/**
 * The demo game of src/main.ts: players keyed by id, moved each tick by the
 * W/A/S/D keys they hold, renamed and steered by actions.  `Demo` is the
 * game record the page hands to the scheduler.
 */
module DemoGame {
  import opened StateMachine

  /** Ticks per second of the demo's machine. */
  const TicksPerSecond: int := 32

  /** Distance a held key moves a player in one tick: dt * 128 with dt = 1/32. */
  const Speed: int := 4

  /** A UTF-16 code unit: JavaScript strings are sequences of these. */
  type CodeUnit = c: int | 0 <= c < 0x1_0000

  type JsString = seq<CodeUnit>

  const KeyW: JsString := ['W' as int]
  const KeyA: JsString := ['A' as int]
  const KeyS: JsString := ['S' as int]
  const KeyD: JsString := ['D' as int]

  /** The name a player gets on first sight. */
  const Anon: JsString := ['A' as int, 'n' as int, 'o' as int, 'n' as int]

  datatype Vector2 = Vector2(x: int, y: int)

  datatype Player = Player(id: int, name: JsString, pos: Vector2, key: map<JsString, bool>)

  datatype GameState = GameState(tick: int, players: map<int, Player>)

  datatype Action =
    | SetNick(time: int, pid: int, name: JsString)
    | KeyEvent(time: int, pid: int, key: JsString, down: bool)

  /** An action's time stamp, the `timeOf` the scheduler turns into its tick. */
  function TimeOf(action: Action): int {
    action.time
  }

  /** A player as `when` creates it on first sight of its id. */
  function NewPlayer(pid: int): Player {
    Player(pid, Anon, Vector2(256, 128), map[])
  }

  /** `key[k]` is truthy: present and true. */
  predicate Held(p: Player, k: JsString) {
    k in p.key && p.key[k]
  }

  function Init(): (gs: GameState)
    ensures gs.tick == 0 && |gs.players| == 0
  {
    GameState(0, map[])
  }

  /**
   * Folds one action into the state: the sender is created if absent,
   * then `SetNick` renames it and `KeyEvent` records one key flag.
   */
  function When(action: Action, gs: GameState): (r: GameState)
    ensures r.tick == gs.tick
    ensures r.players.Keys == gs.players.Keys + {action.pid}
    ensures forall pid :: pid in gs.players && pid != action.pid ==> r.players[pid] == gs.players[pid]
    ensures var p := if action.pid in gs.players then gs.players[action.pid] else NewPlayer(action.pid);
      var q := r.players[action.pid];
      && q.id == p.id
      && q.pos == p.pos
      && (action.SetNick? ==> q.name == action.name && q.key == p.key)
      && (action.KeyEvent? ==> q.name == p.name && q.key.Keys == p.key.Keys + {action.key})
      && (action.KeyEvent? ==> Held(q, action.key) == action.down)
      && (action.KeyEvent? ==> forall k :: k in p.key && k != action.key ==> q.key[k] == p.key[k])
  {
    var p := if action.pid in gs.players then gs.players[action.pid] else NewPlayer(action.pid);
    var q := match action
      case SetNick(_, _, name) => p.(name := name)
      case KeyEvent(_, _, key, down) => p.(key := p.key[key := down]);
    gs.(players := gs.players[action.pid := q])
  }

  /** Applying the same action twice is applying it once. */
  lemma WhenIdempotent(action: Action, gs: GameState)
    ensures When(action, When(action, gs)) == When(action, gs)
  {
    var once := When(action, gs);
    var twice := When(action, once);
    assert twice.players[action.pid] == once.players[action.pid];
    assert twice.players == once.players;
  }

  /** Actions of different players commute, so their arrival order within a tick does not matter. */
  lemma WhenCommutesAcrossPlayers(a: Action, b: Action, gs: GameState)
    requires a.pid != b.pid
    ensures When(a, When(b, gs)) == When(b, When(a, gs))
  {
    var ab := When(a, When(b, gs));
    var ba := When(b, When(a, gs));
    assert ab.players.Keys == ba.players.Keys;
    assert ab.players == ba.players;
  }

  /** The move along one axis for the two keys that push it up and down. */
  function Axis(up: bool, down: bool): (d: int)
    ensures up == down ==> d == 0
    ensures up && !down ==> d == Speed
    ensures down && !up ==> d == -Speed
  {
    ((if up then 1 else 0) + (if down then -1 else 0)) * Speed
  }

  /** One tick of one player's movement. */
  function Move(p: Player): Player {
    p.(pos := Vector2(p.pos.x + Axis(Held(p, KeyD), Held(p, KeyA)), p.pos.y + Axis(Held(p, KeyS), Held(p, KeyW))))
  }

  /** Every player moved by one tick. */
  function MoveAll(players: map<int, Player>): map<int, Player> {
    map pid | pid in players :: Move(players[pid])
  }

  /**
   * Advances the game one tick: every player moves by the keys it holds
   * and nothing else about it changes.
   */
  function Tick(gs: GameState): (r: GameState)
    ensures r.tick == gs.tick + 1
    ensures r.players.Keys == gs.players.Keys
    ensures forall pid :: pid in gs.players ==>
      var p := gs.players[pid];
      var q := r.players[pid];
      && q.id == p.id && q.name == p.name && q.key == p.key
      && (Held(p, KeyD) == Held(p, KeyA) ==> q.pos.x == p.pos.x)
      && (Held(p, KeyD) && !Held(p, KeyA) ==> q.pos.x == p.pos.x + 4)
      && (Held(p, KeyA) && !Held(p, KeyD) ==> q.pos.x == p.pos.x - 4)
      && (Held(p, KeyS) == Held(p, KeyW) ==> q.pos.y == p.pos.y)
      && (Held(p, KeyS) && !Held(p, KeyW) ==> q.pos.y == p.pos.y + 4)
      && (Held(p, KeyW) && !Held(p, KeyS) ==> q.pos.y == p.pos.y - 4)
  {
    GameState(gs.tick + 1, MoveAll(gs.players))
  }

  /** The `for (pid in gs.players)` loop of `tick`: moves the players one at a time. */
  method MovePlayers(players: map<int, Player>) returns (moved: map<int, Player>)
    ensures moved == MoveAll(players)
  {
    moved := players;
    var pending := players.Keys;
    while pending != {}
      invariant pending <= players.Keys
      invariant moved.Keys == players.Keys
      invariant forall pid :: pid in players ==>
        moved[pid] == if pid in pending then players[pid] else Move(players[pid])
      decreases |pending|
    {
      assert exists pid :: pid in pending by {
        if forall pid :: pid !in pending { assert false; }
      }
      var id :| id in pending;
      moved := moved[id := Move(moved[id])];
      pending := pending - {id};
    }
    forall pid | pid in players ensures moved[pid] == MoveAll(players)[pid] {
    }
    assert moved == MoveAll(players);
  }

  /** `tick` as the source runs it: the player loop, then the tick counter. */
  method TickState(gs: GameState) returns (r: GameState)
    ensures r == Tick(gs)
  {
    var players := MovePlayers(gs.players);
    r := GameState(gs.tick + 1, players);
  }

  /** The game record `{init, tick, when}` the page passes to `compute`. */
  const Demo: Game<GameState, Action> := Game(() => Init(), When, Tick)

  /** Of the four movement keys, exactly D is held. */
  predicate OnlyD(p: Player) {
    Held(p, KeyD) && !Held(p, KeyA) && !Held(p, KeyS) && !Held(p, KeyW)
  }

  /** A player holding only D moves `Speed` to the right in one tick and keeps its keys. */
  lemma TickHoldingD(gs: GameState, pid: int)
    requires pid in gs.players && OnlyD(gs.players[pid])
    ensures pid in Tick(gs).players
    ensures Tick(gs).players[pid].key == gs.players[pid].key
    ensures OnlyD(Tick(gs).players[pid])
    ensures Tick(gs).players[pid].pos == Vector2(gs.players[pid].pos.x + Speed, gs.players[pid].pos.y)
  {
    assert Tick(gs).players[pid] == Move(gs.players[pid]);
  }

  /** Over n ticks, a player holding only D moves `Speed * n` to the right and keeps its keys. */
  lemma {:induction false} HoldingDMovesRight(n: nat, gs: GameState, pid: int)
    requires pid in gs.players && OnlyD(gs.players[pid])
    ensures pid in Repeat(Tick, n, gs).players
    ensures Repeat(Tick, n, gs).players[pid].key == gs.players[pid].key
    ensures OnlyD(Repeat(Tick, n, gs).players[pid])
    ensures Repeat(Tick, n, gs).players[pid].pos == Vector2(gs.players[pid].pos.x + Speed * n, gs.players[pid].pos.y)
  {
    if n > 0 {
      HoldingDMovesRight(n - 1, gs, pid);
      TickHoldingD(Repeat(Tick, n - 1, gs), pid);
    }
  }

  /**
   * One second of holding D: a key-down for D at time 0, replayed through
   * the tick of time 1000 ms at 32 ticks per second, leaves the player 128
   * units right of where it appeared (the action lands after tick 0's step).
   */
  lemma OneSecondOfHoldingD(pid: int)
    ensures var logs := map[0 := [KeyEvent(0, pid, KeyD, true)]];
      var end := TimeToTick(TicksPerSecond, 1000);
      var s := StateAt(Demo, logs, 0, end + 1);
      && end == 32
      && pid in s.players
      && s.players[pid].pos == Vector2(256 + 128, 128)
  {
    var press := KeyEvent(0, pid, KeyD, true);
    var logs := map[0 := [press]];
    assert TimeToTick(TicksPerSecond, 1000) == 32;
    var first := Run(Demo, logs, 0, 1, Init());
    assert first == When(press, Tick(Init())) by {
      assert ActionsAt(logs, 0) == [press];
      assert ApplyActions(When, [press], Tick(Init())) == When(press, ApplyActions(When, [], Tick(Init())));
    }
    assert pid in first.players && first.players[pid].pos == Vector2(256, 128);
    assert first.players[pid].key == map[KeyD := true];
    assert KeyD != KeyA && KeyD != KeyS && KeyD != KeyW by {
      assert KeyD[0] != KeyA[0] && KeyD[0] != KeyS[0] && KeyD[0] != KeyW[0];
    }
    forall u | 1 <= u < 1 + 32 ensures ActionsAt(logs, u) == [] {
    }
    assert OnlyD(first.players[pid]);
    RunWithoutActions(Demo, logs, 1, 32, first);
    HoldingDMovesRight(32, first, pid);
    RunCompose(Demo, logs, 0, 1, 33, Init());
  }

  /**
   * The one-second scenario through the scheduler: a fresh machine that
   * registers the key-down at the tick of its time stamp (0) and computes
   * the tick of time 1000 ms (32) returns the
   * replay from genesis, with the player 128 units right of its start.
   */
  lemma OneSecondThroughTheScheduler(pid: int)
    ensures var press := KeyEvent(0, pid, KeyD, true);
      var m := Register(Empty<GameState, Action>(), press, TimeToTick(TicksPerSecond, TimeOf(press)));
      var r := ComputeResult(Demo, m, TimeToTick(TicksPerSecond, 1000));
      && r == StateAt(Demo, map[0 := [press]], 0, 33)
      && pid in r.players
      && r.players[pid].pos == Vector2(256 + 128, 128)
  {
    var press := KeyEvent(0, pid, KeyD, true);
    assert TimeToTick(TicksPerSecond, TimeOf(press)) == 0;
    assert TimeToTick(TicksPerSecond, 1000) == 32;
    EmptyIsValid<GameState, Action>(Demo);
    var m := Register(Empty<GameState, Action>(), press, 0);
    assert ActionsAt(Empty<GameState, Action>().actions, 0) == [];
    assert m.actions == map[0 := [] + [press]];
    assert [] + [press] == [press];
    assert m.actions == map[0 := [press]] && m.genesis == At(0);
    RegisterThenCompute(Demo, Empty<GameState, Action>(), press, 0, 32);
    OneSecondOfHoldingD(pid);
  }

  /** A fresh machine after two different actions at tick 0: both listed in arrival order, nothing cached. */
  lemma TwoActionsAtTickZero(first: Action, second: Action)
    requires first != second
    ensures Register(Register(Empty<GameState, Action>(), first, 0), second, 0)
      == MachState(At(0), NegInf, map[], map[0 := [first, second]])
  {
    var e := Empty<GameState, Action>();
    assert ActionsAt(e.actions, 0) == [];
    var m := Register(e, first, 0);
    assert m.actions == map[0 := [] + [first]] && m.states == map[];
    assert [] + [first] == [first];
    assert ActionsAt(m.actions, 0) == [first];
    assert [first] + [second] == [first, second];
  }

  /** Computing tick 0 on such a machine steps the empty world and applies the two actions in list order. */
  lemma ComputeTwoActionsAtTickZero(first: Action, second: Action)
    ensures ComputeResult(Demo, MachState(At(0), NegInf, map[], map[0 := [first, second]]), 0)
      == When(second, When(first, Tick(Init())))
  {
    var m: MachState<GameState, Action> := MachState(At(0), NegInf, map[], map[0 := [first, second]]);
    var ticked := Tick(Init());
    assert Start(m) == At(0) && StartState(Demo, m) == Init() && !TooFar(m, 0);
    assert ComputeResult(Demo, m, 0) == Run(Demo, m.actions, 0, 1, Init());
    assert Run(Demo, m.actions, 0, 1, Init()) == Step(Demo, m.actions, 0, Init());
    assert Demo.tick(Init()) == ticked && Demo.when == When;
    assert ActionsAt(m.actions, 0) == [first, second];
    assert ApplyActions(When, [first, second], ticked) == When(second, ApplyActions(When, [first], ticked));
    assert ApplyActions(When, [first], ticked) == When(first, ApplyActions(When, [], ticked));
  }

  /**
   * Arrival order within one tick is observable: a key-down and a key-up for
   * the same key at the same tick, registered in the two orders, leave the
   * key released in one replay and held in the other.
   */
  lemma SameTickOrderIsObservable()
    ensures var down, up := KeyEvent(0, 1, KeyD, true), KeyEvent(0, 1, KeyD, false);
      var downFirst := ComputeResult(Demo, Register(Register(Empty<GameState, Action>(), down, 0), up, 0), 0);
      var upFirst := ComputeResult(Demo, Register(Register(Empty<GameState, Action>(), up, 0), down, 0), 0);
      && 1 in downFirst.players && !Held(downFirst.players[1], KeyD)
      && 1 in upFirst.players && Held(upFirst.players[1], KeyD)
  {
    var down, up := KeyEvent(0, 1, KeyD, true), KeyEvent(0, 1, KeyD, false);
    TwoActionsAtTickZero(down, up);
    TwoActionsAtTickZero(up, down);
    ComputeTwoActionsAtTickZero(down, up);
    ComputeTwoActionsAtTickZero(up, down);
  }
}
