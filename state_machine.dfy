/**
 * The rollback/lockstep scheduler of src/state_machine.ts.
 *
 * A machine keeps, per tick, the ordered list of actions registered at that
 * tick and a cache of snapshots ("the state just before tick t is stepped").
 * Registering an action rolls the cache back to the action's tick; computing
 * replays forward from the newest trustworthy snapshot.  The central claim,
 * `Coherent`, is that every cached snapshot equals a from-scratch replay from
 * `init()` at the genesis tick, and both operations keep it.
 */
module StateMachine {

  /**
   * The replay guard's bound: `compute` refuses when the end tick lies more
   * than `MaxReplay` ticks past its start, so one call replays at most
   * `MaxReplay + 1` ticks (start and end included).
   */
  const MaxReplay: int := 1000

  /** A tick, or one of the infinities the source uses as sentinels. */
  datatype ExtTick = NegInf | At(n: int) | PosInf

  /** `a <= b` on ticks extended with both infinities. */
  predicate Le(a: ExtTick, b: ExtTick) {
    a.NegInf? || b.PosInf? || (a.At? && b.At? && a.n <= b.n)
  }

  /** `Math.min` on extended ticks. */
  function Min(a: ExtTick, b: ExtTick): (r: ExtTick)
    ensures Le(r, a) && Le(r, b)
    ensures r == a || r == b
  {
    if Le(a, b) then a else b
  }

  /** `Math.max` on extended ticks. */
  function Max(a: ExtTick, b: ExtTick): (r: ExtTick)
    ensures Le(a, r) && Le(b, r)
    ensures r == a || r == b
  {
    if Le(a, b) then b else a
  }

  /** The tick a time (in milliseconds) falls in: floor(time / 1000 * ticksPerSecond). */
  function TimeToTick(ticksPerSecond: int, time: int): (tick: int)
    ensures tick * 1000 <= time * ticksPerSecond < tick * 1000 + 1000
  {
    (time * ticksPerSecond) / 1000
  }

  /** A later time never falls in an earlier tick. */
  lemma TimeToTickMonotone(ticksPerSecond: int, t1: int, t2: int)
    requires 0 <= ticksPerSecond && t1 <= t2
    ensures TimeToTick(ticksPerSecond, t1) <= TimeToTick(ticksPerSecond, t2)
  {
    assert t1 * ticksPerSecond <= t2 * ticksPerSecond by {
      assert t2 * ticksPerSecond - t1 * ticksPerSecond == (t2 - t1) * ticksPerSecond;
    }
  }

  /** The three pure functions the embedding game supplies. */
  datatype Game<!S, !A> = Game(init: () -> S, when: (A, S) -> S, tick: S -> S)

  /** `action_logs[t] || []`: the actions of tick `t`, in arrival order. */
  function ActionsAt<A>(logs: map<int, seq<A>>, t: int): seq<A> {
    if t in logs then logs[t] else []
  }

  /** Folds the actions into the state, first action first. */
  function ApplyActions<S, A>(when: (A, S) -> S, actions: seq<A>, s: S): S
    decreases |actions|
  {
    if actions == [] then s
    else when(actions[|actions| - 1], ApplyActions(when, actions[..|actions| - 1], s))
  }

  /** One tick of replay: the time step first, then that tick's actions. */
  function Step<S, A>(game: Game<S, A>, logs: map<int, seq<A>>, t: int, s: S): S {
    ApplyActions(game.when, ActionsAt(logs, t), game.tick(s))
  }

  /** Replays ticks `lo`, ..., `hi - 1` starting from state `s`. */
  function Run<S, A>(game: Game<S, A>, logs: map<int, seq<A>>, lo: int, hi: int, s: S): S
    decreases hi - lo
  {
    if hi <= lo then s else Step(game, logs, hi - 1, Run(game, logs, lo, hi - 1, s))
  }

  /** The state just before tick `t` is stepped, replayed from `init()` at genesis tick `genesis`. */
  function StateAt<S, A>(game: Game<S, A>, logs: map<int, seq<A>>, genesis: int, t: int): S {
    Run(game, logs, genesis, t, game.init())
  }

  /** Replaying two consecutive spans is replaying their union. */
  lemma {:induction false} RunCompose<S, A>(game: Game<S, A>, logs: map<int, seq<A>>, lo: int, mid: int, hi: int, s: S)
    requires lo <= mid <= hi
    ensures Run(game, logs, mid, hi, Run(game, logs, lo, mid, s)) == Run(game, logs, lo, hi, s)
    decreases hi - mid
  {
    if hi > mid {
      RunCompose(game, logs, lo, mid, hi - 1, s);
    }
  }

  /** A replay of ticks [lo, hi) reads the action lists of those ticks only. */
  lemma {:induction false} RunFrame<S, A>(game: Game<S, A>, logs1: map<int, seq<A>>, logs2: map<int, seq<A>>, lo: int, hi: int, s: S)
    requires forall u :: lo <= u < hi ==> ActionsAt(logs1, u) == ActionsAt(logs2, u)
    ensures Run(game, logs1, lo, hi, s) == Run(game, logs2, lo, hi, s)
    decreases hi - lo
  {
    if hi > lo {
      RunFrame(game, logs1, logs2, lo, hi - 1, s);
    }
  }

  /** `f` applied `n` times. */
  function Repeat<S>(f: S -> S, n: nat, s: S): S {
    if n == 0 then s else f(Repeat(f, n - 1, s))
  }

  /** Over ticks without actions, a replay is just the time step repeated. */
  lemma {:induction false} RunWithoutActions<S, A>(game: Game<S, A>, logs: map<int, seq<A>>, lo: int, n: nat, s: S)
    requires forall u :: lo <= u < lo + n ==> ActionsAt(logs, u) == []
    ensures Run(game, logs, lo, lo + n, s) == Repeat(game.tick, n, s)
  {
    if n > 0 {
      RunWithoutActions(game, logs, lo, n - 1, s);
      assert ActionsAt(logs, lo + (n - 1)) == [];
      assert Run(game, logs, lo, lo + n, s) == Step(game, logs, lo + (n - 1), Run(game, logs, lo, lo + (n - 1), s));
    }
  }

  /** The contents of a machine, as a value. */
  datatype MachState<S, A> = MachState(
    genesis: ExtTick,               // earliest tick with a registered action; PosInf when none
    cached: ExtTick,                // highest trustworthy snapshot; NegInf when none
    states: map<int, S>,            // snapshot per tick
    actions: map<int, seq<A>>)      // actions per tick, in arrival order

  /** The structural invariant both operations keep. */
  predicate ValidState<S, A>(m: MachState<S, A>) {
    && !m.genesis.NegInf?
    && !m.cached.PosInf?
    && (forall t :: t in m.states ==> Le(At(t), m.cached))
    && (forall t :: t in m.actions ==> Le(m.genesis, At(t)) && m.actions[t] != [])
  }

  /** Every snapshot equals the replay from `init()` at genesis. */
  ghost predicate Coherent<S, A>(game: Game<S, A>, m: MachState<S, A>) {
    forall t :: t in m.states ==>
      && m.genesis.At?
      && m.genesis.n <= t
      && m.states[t] == StateAt(game, m.actions, m.genesis.n, t)
  }

  /** The machine `new_mach` builds. */
  function Empty<S, A>(): MachState<S, A> {
    MachState(PosInf, NegInf, map[], map[])
  }

  lemma EmptyIsValid<S, A>(game: Game<S, A>)
    ensures ValidState(Empty<S, A>()) && Coherent(game, Empty<S, A>())
  {
  }

  /** `states` without the snapshots at ticks in (tick, upTo]. */
  function Drop<S>(states: map<int, S>, tick: int, upTo: ExtTick): (r: map<int, S>)
    ensures r.Keys <= states.Keys
    ensures forall u :: u in r ==> r[u] == states[u]
    ensures forall u :: u in states && u <= tick ==> u in r
    ensures forall u :: u in r ==> !(tick < u && Le(At(u), upTo))
  {
    map u | u in states && !(tick < u && Le(At(u), upTo)) :: states[u]
  }

  /**
   * `register_action` on the value of a machine: open the tick's list,
   * lower genesis, and unless the action is already in the list, roll the
   * cache back to `tick` and append the action.
   */
  function Register<S, A(==)>(m: MachState<S, A>, action: A, tick: int): (r: MachState<S, A>)
    ensures tick in r.actions && action in r.actions[tick]
    ensures Le(r.genesis, At(tick)) && Le(r.genesis, m.genesis)
    ensures r.states.Keys <= m.states.Keys
  {
    var actions := ActionsAt(m.actions, tick);
    var listed := m.(actions := m.actions[tick := actions], genesis := Min(m.genesis, At(tick)));
    if action in actions then listed
    else listed.(
      states := Drop(m.states, tick, m.cached),
      cached := Min(m.cached, At(tick)),
      actions := m.actions[tick := actions + [action]])
  }

  /** Registering an action already present in its tick changes nothing. */
  lemma RegisterDuplicate<S, A>(m: MachState<S, A>, action: A, tick: int)
    requires ValidState(m) && action in ActionsAt(m.actions, tick)
    ensures Register(m, action, tick) == m
  {
    assert m.actions[tick := m.actions[tick]] == m.actions;
  }

  /**
   * A new action at `tick` is appended to that tick's list (created if absent),
   * every other list is kept, genesis drops to at most `tick`, the snapshots
   * kept are exactly those at ticks <= `tick`, and the cache mark is clamped.
   */
  lemma RegisterFresh<S, A>(m: MachState<S, A>, action: A, tick: int)
    requires ValidState(m) && action !in ActionsAt(m.actions, tick)
    ensures var r := Register(m, action, tick);
      && r.actions.Keys == m.actions.Keys + {tick}
      && r.actions[tick] == ActionsAt(m.actions, tick) + [action]
      && (forall t :: t in m.actions && t != tick ==> r.actions[t] == m.actions[t])
      && r.genesis == Min(m.genesis, At(tick))
      && Le(r.genesis, At(tick))
      && (forall t :: t in r.states <==> t in m.states && t <= tick)
      && (forall t :: t in r.states ==> r.states[t] == m.states[t])
      && r.cached == Min(m.cached, At(tick))
  {
  }

  /** Registration keeps the structural invariant. */
  lemma RegisterKeepsValid<S, A>(m: MachState<S, A>, action: A, tick: int)
    requires ValidState(m)
    ensures ValidState(Register(m, action, tick))
  {
    if action in ActionsAt(m.actions, tick) {
      RegisterDuplicate(m, action, tick);
    } else {
      var r := Register(m, action, tick);
      forall t | t in r.states ensures Le(At(t), r.cached) {
        assert Le(At(t), m.cached);
      }
    }
  }

  /**
   * Rolling the cache back exactly to the action's tick keeps every
   * remaining snapshot equal to a replay over the new action lists.
   */
  lemma RegisterKeepsCoherent<S, A>(game: Game<S, A>, m: MachState<S, A>, action: A, tick: int)
    requires ValidState(m) && Coherent(game, m)
    ensures Coherent(game, Register(m, action, tick))
  {
    if action in ActionsAt(m.actions, tick) {
      RegisterDuplicate(m, action, tick);
    } else {
      var r := Register(m, action, tick);
      forall t | t in r.states
        ensures r.genesis.At? && r.genesis.n <= t
        ensures r.states[t] == StateAt(game, r.actions, r.genesis.n, t)
      {
        assert t in m.states && t <= tick;
        assert r.genesis == m.genesis;
        forall u | m.genesis.n <= u < t ensures ActionsAt(m.actions, u) == ActionsAt(r.actions, u) {
        }
        RunFrame(game, m.actions, r.actions, m.genesis.n, t, game.init());
      }
    }
  }

  /** Deleting one more snapshot, as each round of the deletion loop does. */
  lemma DropOneMore<S>(states: map<int, S>, tick: int, t: int)
    requires tick < t
    ensures Drop(states, tick, At(t - 1)) - {t} == Drop(states, tick, At(t))
  {
  }

  /** The deletion loop's bound agrees with the cache mark on every tick above `tick`. */
  lemma DropUpToMark<S>(states: map<int, S>, tick: int, t: int, cached: int)
    requires t - 1 == cached || (t - 1 == tick && cached <= tick)
    ensures Drop(states, tick, At(t - 1)) == Drop(states, tick, At(cached))
  {
  }

  /** Two roll-backs in a row drop what one roll-back to the lower tick drops. */
  lemma DropTwice<S>(states: map<int, S>, a: int, b: int, cached: ExtTick)
    ensures Drop(Drop(states, a, cached), b, Min(cached, At(a))) == Drop(states, if a < b then a else b, cached)
  {
    var lhs := Drop(Drop(states, a, cached), b, Min(cached, At(a)));
    var rhs := Drop(states, if a < b then a else b, cached);
    forall u ensures u in lhs <==> u in rhs {
    }
  }

  /** `RegisterKeepsCoherent`, for every game at once. */
  lemma RegisterKeepsEveryCoherence<S, A>(m: MachState<S, A>, action: A, tick: int)
    requires ValidState(m)
    ensures forall game :: Coherent(game, m) ==> Coherent(game, Register(m, action, tick))
  {
    forall game | Coherent(game, m) ensures Coherent(game, Register(m, action, tick)) {
      RegisterKeepsCoherent(game, m, action, tick);
    }
  }

  /** Lowering a bound twice does not depend on the order. */
  lemma MinSwap(x: ExtTick, a: ExtTick, b: ExtTick)
    ensures Min(Min(x, a), b) == Min(Min(x, b), a)
  {
  }

  /** Registering at `t` leaves the action list of every other tick alone. */
  lemma RegisterKeepsOtherLists<S, A>(m: MachState<S, A>, a: A, t: int, u: int)
    requires u != t
    ensures ActionsAt(Register(m, a, t).actions, u) == ActionsAt(m.actions, u)
  {
  }

  /** The action lists after two registrations at different ticks do not depend on their order. */
  lemma CommuteLists<S, A>(m: MachState<S, A>, a: A, ta: int, b: A, tb: int)
    requires ta != tb
    ensures Register(Register(m, a, ta), b, tb).actions == Register(Register(m, b, tb), a, ta).actions
  {
    RegisterKeepsOtherLists(m, a, ta, tb);
    RegisterKeepsOtherLists(m, b, tb, ta);
  }

  /** Genesis and the cache mark after two registrations at different ticks do not depend on their order. */
  lemma CommuteMarks<S, A>(m: MachState<S, A>, a: A, ta: int, b: A, tb: int)
    requires ta != tb
    ensures Register(Register(m, a, ta), b, tb).genesis == Register(Register(m, b, tb), a, ta).genesis
    ensures Register(Register(m, a, ta), b, tb).cached == Register(Register(m, b, tb), a, ta).cached
  {
    RegisterKeepsOtherLists(m, a, ta, tb);
    RegisterKeepsOtherLists(m, b, tb, ta);
    MinSwap(m.genesis, At(ta), At(tb));
    MinSwap(m.cached, At(ta), At(tb));
  }

  /** The snapshots kept after two registrations at different ticks do not depend on their order. */
  lemma CommuteSnapshots<S, A>(m: MachState<S, A>, a: A, ta: int, b: A, tb: int)
    requires ta != tb
    ensures Register(Register(m, a, ta), b, tb).states == Register(Register(m, b, tb), a, ta).states
  {
    RegisterKeepsOtherLists(m, a, ta, tb);
    RegisterKeepsOtherLists(m, b, tb, ta);
    if a !in ActionsAt(m.actions, ta) && b !in ActionsAt(m.actions, tb) {
      DropTwice(m.states, ta, tb, m.cached);
      DropTwice(m.states, tb, ta, m.cached);
    }
  }

  /**
   * Actions at two different ticks can be registered in either order.  Within
   * one tick the order is kept, and `compute` applies the list in that order.
   */
  lemma RegisterCommutesAcrossTicks<S, A>(m: MachState<S, A>, a: A, ta: int, b: A, tb: int)
    requires ta != tb
    ensures Register(Register(m, a, ta), b, tb) == Register(Register(m, b, tb), a, ta)
  {
    CommuteLists(m, a, ta, b, tb);
    CommuteMarks(m, a, ta, b, tb);
    CommuteSnapshots(m, a, ta, b, tb);
  }

  /** The tick `compute` starts from: the cache mark if it has a snapshot, else genesis. */
  function Start<S, A>(m: MachState<S, A>): (start: ExtTick)
    ensures start == m.genesis || (start == m.cached && start.At? && start.n in m.states)
    ensures m.cached.At? && m.cached.n in m.states ==> start == m.cached
  {
    if m.cached.At? && m.cached.n in m.states then m.cached else m.genesis
  }

  /** The state `compute` starts from: that snapshot, else `init()`. */
  function StartState<S, A>(game: Game<S, A>, m: MachState<S, A>): (s: S)
    ensures s == game.init() || exists t :: t in m.states && s == m.states[t]
    ensures m.cached.At? && m.cached.n in m.states ==> s == m.states[m.cached.n]
  {
    if m.cached.At? && m.cached.n in m.states then m.states[m.cached.n] else game.init()
  }

  /** The replay guard: more than `MaxReplay` ticks to go. */
  predicate TooFar<S, A>(m: MachState<S, A>, end: int) {
    Start(m).At? && end - Start(m).n > MaxReplay
  }

  /** `states` plus, for each tick u in [lo, hi), the replay from `s` at `lo` up to u. */
  function Recorded<S, A>(game: Game<S, A>, logs: map<int, seq<A>>, states: map<int, S>, lo: int, hi: int, s: S): map<int, S>
    decreases hi - lo
  {
    if hi <= lo then states
    else Recorded(game, logs, states, lo, hi - 1, s)[hi - 1 := Run(game, logs, lo, hi - 1, s)]
  }

  lemma {:induction false} RecordedEntries<S, A>(game: Game<S, A>, logs: map<int, seq<A>>, states: map<int, S>, lo: int, hi: int, s: S, k: int)
    ensures k in Recorded(game, logs, states, lo, hi, s) <==> k in states || lo <= k < hi
    ensures k in Recorded(game, logs, states, lo, hi, s) ==>
      Recorded(game, logs, states, lo, hi, s)[k] == (if lo <= k < hi then Run(game, logs, lo, k, s) else states[k])
    decreases hi - lo
  {
    if hi > lo {
      RecordedEntries(game, logs, states, lo, hi - 1, s, k);
    }
  }

  /** What `compute` returns for end tick `end`. */
  function ComputeResult<S, A>(game: Game<S, A>, m: MachState<S, A>, end: int): (s: S)
    ensures TooFar(m, end) ==> s == StartState(game, m)
    ensures Start(m).PosInf? ==> s == game.init()
  {
    var start := Start(m);
    if start.At? && !TooFar(m, end) then Run(game, m.actions, start.n, end + 1, StartState(game, m))
    else StartState(game, m)
  }

  /** The machine after `compute` for end tick `end`: snapshots recorded for [start, end]. */
  function Computed<S, A>(game: Game<S, A>, m: MachState<S, A>, end: int): (r: MachState<S, A>)
    ensures r.actions == m.actions && r.genesis == m.genesis
    ensures Le(m.cached, r.cached)
    ensures TooFar(m, end) || !Start(m).At? || end < Start(m).n ==> r == m
  {
    var start := Start(m);
    if start.At? && !TooFar(m, end) && start.n <= end then
      m.(cached := Max(m.cached, At(end)),
         states := Recorded(game, m.actions, m.states, start.n, end + 1, StartState(game, m)))
    else m
  }

  /**
   * When the replay loop runs, `compute` records a snapshot at every tick of
   * [start, end], keeps the others, and moves the cache mark up to `end`.
   */
  lemma ComputedEntries<S, A>(game: Game<S, A>, m: MachState<S, A>, end: int, t: int)
    requires Start(m).At? && !TooFar(m, end) && Start(m).n <= end
    ensures Computed(game, m, end).cached == Max(m.cached, At(end))
    ensures t in Computed(game, m, end).states <==> t in m.states || Start(m).n <= t <= end
  {
    RecordedEntries(game, m.actions, m.states, Start(m).n, end + 1, StartState(game, m), t);
  }

  /**
   * The state `compute` returns is the snapshot it records at the end tick
   * stepped once more: a tick's actions land after its recorded state.
   */
  lemma ComputeStepsPastSnapshot<S, A>(game: Game<S, A>, m: MachState<S, A>, end: int)
    requires Start(m).At? && !TooFar(m, end) && Start(m).n <= end
    ensures end in Computed(game, m, end).states
    ensures ComputeResult(game, m, end) == Step(game, m.actions, end, Computed(game, m, end).states[end])
  {
    RecordedEntries(game, m.actions, m.states, Start(m).n, end + 1, StartState(game, m), end);
  }

  /** Where `compute` starts on a coherent machine: at or after genesis, from the replayed state. */
  lemma StartIsReplay<S, A>(game: Game<S, A>, m: MachState<S, A>)
    requires ValidState(m) && Coherent(game, m)
    ensures m.genesis.PosInf? ==> Start(m) == PosInf && StartState(game, m) == game.init()
    ensures m.genesis.At? ==> Start(m).At? && m.genesis.n <= Start(m).n
    ensures m.genesis.At? ==> StartState(game, m) == StateAt(game, m.actions, m.genesis.n, Start(m).n)
  {
  }

  /**
   * On a coherent machine within the replay guard, `compute` returns the
   * replay from genesis through the end tick (or through the start tick,
   * when the cache is already past the end).
   */
  lemma ComputeResultIsReplay<S, A>(game: Game<S, A>, m: MachState<S, A>, end: int)
    requires ValidState(m) && Coherent(game, m) && !TooFar(m, end)
    ensures m.genesis.PosInf? ==> ComputeResult(game, m, end) == game.init()
    ensures m.genesis.At? ==> Start(m).At?
    ensures m.genesis.At? ==>
      ComputeResult(game, m, end) == StateAt(game, m.actions, m.genesis.n, if end + 1 < Start(m).n then Start(m).n else end + 1)
  {
    StartIsReplay(game, m);
    if m.genesis.At? {
      var g, s := m.genesis.n, Start(m).n;
      if end + 1 >= s {
        RunCompose(game, m.actions, g, s, end + 1, game.init());
      }
    }
  }

  /** Two coherent machines with the same actions answer `compute` alike once both caches are behind the end tick. */
  lemma ComputeIsCacheTransparent<S, A>(game: Game<S, A>, m1: MachState<S, A>, m2: MachState<S, A>, end: int)
    requires ValidState(m1) && Coherent(game, m1) && ValidState(m2) && Coherent(game, m2)
    requires m1.genesis == m2.genesis && m1.actions == m2.actions
    requires !TooFar(m1, end) && !TooFar(m2, end)
    requires Le(Start(m1), At(end + 1)) && Le(Start(m2), At(end + 1))
    ensures ComputeResult(game, m1, end) == ComputeResult(game, m2, end)
  {
    ComputeResultIsReplay(game, m1, end);
    ComputeResultIsReplay(game, m2, end);
  }

  /** `compute` keeps the structural invariant and changes neither genesis nor the action lists. */
  lemma ComputeKeepsValid<S, A>(game: Game<S, A>, m: MachState<S, A>, end: int)
    requires ValidState(m)
    ensures ValidState(Computed(game, m, end))
    ensures Computed(game, m, end).genesis == m.genesis && Computed(game, m, end).actions == m.actions
  {
    var start := Start(m);
    if start.At? && !TooFar(m, end) && start.n <= end {
      var r := Computed(game, m, end);
      forall t | t in r.states ensures Le(At(t), r.cached) {
        RecordedEntries(game, m.actions, m.states, start.n, end + 1, StartState(game, m), t);
      }
    }
  }

  /** `compute` keeps every snapshot equal to the replay from genesis. */
  lemma ComputeKeepsCoherent<S, A>(game: Game<S, A>, m: MachState<S, A>, end: int)
    requires ValidState(m) && Coherent(game, m)
    ensures Coherent(game, Computed(game, m, end))
  {
    var start := Start(m);
    if start.At? && !TooFar(m, end) && start.n <= end {
      StartIsReplay(game, m);
      var r := Computed(game, m, end);
      var g, s, x := m.genesis.n, start.n, StartState(game, m);
      forall t | t in r.states
        ensures g <= t && r.states[t] == StateAt(game, m.actions, g, t)
      {
        RecordedEntries(game, m.actions, m.states, s, end + 1, x, t);
        if s <= t < end + 1 {
          RunCompose(game, m.actions, g, s, t, game.init());
        }
      }
    }
  }

  /**
   * Rollback correctness: after a late action at tick `tick` <= `end`,
   * `compute` returns the replay from genesis that includes it.
   */
  lemma RegisterThenCompute<S, A>(game: Game<S, A>, m: MachState<S, A>, action: A, tick: int, end: int)
    requires ValidState(m) && Coherent(game, m)
    requires action !in ActionsAt(m.actions, tick) && tick <= end
    requires !TooFar(Register(m, action, tick), end)
    ensures var r := Register(m, action, tick);
      && r.genesis.At?
      && action in ActionsAt(r.actions, tick)
      && ComputeResult(game, r, end) == StateAt(game, r.actions, r.genesis.n, end + 1)
  {
    var r := Register(m, action, tick);
    RegisterFresh(m, action, tick);
    RegisterKeepsValid(m, action, tick);
    RegisterKeepsCoherent(game, m, action, tick);
    ComputeResultIsReplay(game, r, end);
    assert Le(Start(r), At(tick));
  }

  /** A scheduler session: the mutable record of src/state_machine.ts. */
  class Mach<S, A(==)> {
    const ticksPerSecond: int
    var genesisTick: ExtTick
    var cachedTick: ExtTick
    var stateLogs: map<int, S>
    var actionLogs: map<int, seq<A>>

    function View(): MachState<S, A>
      reads this
    {
      MachState(genesisTick, cachedTick, stateLogs, actionLogs)
    }

    predicate Valid()
      reads this
    {
      ValidState(View())
    }

    /** `new_mach`: no actions, no snapshots. */
    constructor (ticksPerSecond: int)
      ensures this.ticksPerSecond == ticksPerSecond
      ensures View() == Empty() && Valid()
      ensures forall game :: Coherent(game, View())
    {
      this.ticksPerSecond := ticksPerSecond;
      genesisTick := PosInf;
      cachedTick := NegInf;
      stateLogs := map[];
      actionLogs := map[];
    }

    /** `register_action`: `timeOf` reads the action's `time` field. */
    method RegisterAction(action: A, timeOf: A -> int)
      requires Valid()
      modifies this
      ensures Valid()
      ensures View() == Register(old(View()), action, TimeToTick(ticksPerSecond, timeOf(action)))
      ensures forall game :: Coherent(game, old(View())) ==> Coherent(game, View())
    {
      ghost var before := View();
      var tick := TimeToTick(ticksPerSecond, timeOf(action));
      ghost var after := Register(before, action, tick);
      RegisterKeepsValid(before, action, tick);
      RegisterKeepsEveryCoherence(before, action, tick);

      if tick !in actionLogs {
        actionLogs := actionLogs[tick := []];
      }
      genesisTick := Min(genesisTick, At(tick));
      var actions := actionLogs[tick];

      // A duplicate of an action already in this tick is dropped.
      var i := 0;
      while i < |actions|
        invariant 0 <= i <= |actions|
        invariant forall j :: 0 <= j < i ==> actions[j] != action
      {
        if actions[i] == action {
          assert action in ActionsAt(before.actions, tick);
          assert View() == after;
          return;
        }
        i := i + 1;
      }

      // Every snapshot in (tick, cachedTick] is deleted.
      DropSnapshotsAbove(tick);
      cachedTick := Min(cachedTick, At(tick));

      actionLogs := actionLogs[tick := actions + [action]];
      assert action !in ActionsAt(before.actions, tick);
      assert stateLogs == after.states && actionLogs == after.actions;
    }

    /** The deletion loop of `register_action`: removes the snapshots at ticks in (tick, cachedTick]. */
    method DropSnapshotsAbove(tick: int)
      requires !cachedTick.PosInf?
      modifies this`stateLogs
      ensures stateLogs == Drop(old(stateLogs), tick, cachedTick)
    {
      if cachedTick.At? {
        var t := tick + 1;
        while t <= cachedTick.n
          invariant tick + 1 <= t && (t <= cachedTick.n + 1 || t == tick + 1)
          invariant stateLogs == Drop(old(stateLogs), tick, At(t - 1))
        {
          DropOneMore(old(stateLogs), tick, t);
          stateLogs := stateLogs - {t};
          t := t + 1;
        }
        DropUpToMark(old(stateLogs), tick, t, cachedTick.n);
      } else {
        assert Drop(stateLogs, tick, cachedTick).Keys == stateLogs.Keys;
      }
    }

    /** `compute`: the state at `time`; refuses when end - start exceeds `MaxReplay`, so at most `MaxReplay + 1` ticks are replayed. */
    method Compute(game: Game<S, A>, time: int) returns (state: S)
      requires Valid()
      modifies this
      ensures Valid()
      ensures state == ComputeResult(game, old(View()), TimeToTick(ticksPerSecond, time))
      ensures View() == Computed(game, old(View()), TimeToTick(ticksPerSecond, time))
      ensures Coherent(game, old(View())) ==> Coherent(game, View())
    {
      ghost var before := View();
      var end := TimeToTick(ticksPerSecond, time);
      var ini := cachedTick;
      if ini.At? && ini.n in stateLogs {
        state := stateLogs[ini.n];
      } else {
        state := game.init();
        ini := genesisTick;
      }
      if ini.At? && end - ini.n > MaxReplay {
        return;
      }
      if ini.At? {
        ghost var start := state;
        var t := ini.n;
        while t <= end
          invariant ini.n <= t && (t <= end + 1 || t == ini.n)
          invariant state == Run(game, actionLogs, ini.n, t, start)
          invariant stateLogs == Recorded(game, actionLogs, before.states, ini.n, t, start)
          invariant cachedTick == if t == ini.n then before.cached else Max(before.cached, At(t - 1))
          invariant actionLogs == before.actions && genesisTick == before.genesis
        {
          // The snapshot of tick t is the state before t is stepped.
          cachedTick := Max(cachedTick, At(t));
          stateLogs := stateLogs[t := state];
          state := game.tick(state);
          var actions := ActionsAt(actionLogs, t);
          ghost var ticked := state;
          var i := 0;
          while i < |actions|
            invariant 0 <= i <= |actions|
            invariant state == ApplyActions(game.when, actions[..i], ticked)
          {
            assert actions[..i + 1][..i] == actions[..i];
            state := game.when(actions[i], state);
            i := i + 1;
          }
          assert actions[..|actions|] == actions;
          t := t + 1;
        }
      }
      ComputeKeepsValid(game, before, end);
      if Coherent(game, before) {
        ComputeKeepsCoherent(game, before, end);
      }
    }
  }
}
