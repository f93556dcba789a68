# uwuchat2 demo: rollback scheduler and demo game, in Dafny

This project models the core of the uwuchat2 demo. There are three parts.

- **The rollback/lockstep scheduler** (`src/state_machine.ts`), in `state_machine.dfy`, module `StateMachine`.
  - A machine records, per tick, the ordered list of actions registered at that tick.
  - It also keeps a cache of snapshots: the state just before each tick is stepped.
  - Registering a late action rolls the cache back to the action's tick.
  - Computing replays forward from the newest trustworthy snapshot, refusing when the end tick lies more than 1000 ticks past the start, so at most 1001 ticks per call.
  - The machine is the class `Mach`. Its methods `RegisterAction` and `Compute` follow the source's loops. Each is proved against a function on the machine's value (`MachState`): `Register`, `ComputeResult` and `Computed`.
  - The central invariant is `Coherent`: every cached snapshot equals the from-scratch replay from `init()` at the genesis tick. Both operations keep it, and `RegisterThenCompute` combines them into rollback correctness.
- **The demo game** (`src/main.ts`), in `demo_game.dfy`, module `DemoGame`.
  - `Init` is the empty world.
  - `When` creates the sender on first sight, then renames it or records one key flag.
  - `Tick` moves every player by 4 units per axis according to W/A/S/D. At 32 ticks per second, `dt * 128` is exactly 4.
  - `Demo` plugs these three into the scheduler. `OneSecondOfHoldingD` replays one second of a held D key, and `OneSecondThroughTheScheduler` obtains the same state from a machine that registers the key-down and computes.
  - `SameTickOrderIsObservable` shows that the arrival order of two actions at the same tick changes the result.
- **The action codec** (`src/main.ts`), in `action_codec.dfy`, module `ActionCodec`.
  - Byte 0 is a tag.
  - Bytes 1..6 hold the time modulo 2^48 and bytes 7..12 the player id modulo 2^48, both little-endian. The source writes them through a `BigUint64Array`, which uses the host's byte order; the model fixes little-endian (see "## Left out").
  - A `SetNick` continues with the UTF-8 name. A `KeyEvent` continues with the key byte and a down byte.
  - Decoding fails on an empty buffer or an unknown tag.
  - Round trips are proved in both directions. Encoding then decoding is proved for every action, up to the reductions the format makes. Decoding then re-encoding is proved for a 15-byte `KeyEvent` buffer, and for a `SetNick` buffer whose name bytes survive UTF-8 decoding and re-encoding.

Conventions of the model:

- **Sentinels.** The source's `Infinity` and `-Infinity` become `ExtTick.PosInf` and `ExtTick.NegInf`. `Le`, `Min` and `Max` compare them the way JavaScript numbers compare.
- **Generics.** The scheduler is generic. The game is a record of three function values, `init`, `when` and `tick`.
- **Time.** The machine's tick rate is an integer, and `time_to_tick` is integer floor division.
- **Strings.** JavaScript strings are sequences of UTF-16 code units (`JsString`).
- **UTF-8.** `TextEncoder` and `TextDecoder` are passed to the codec as `encode`/`decode` functions.

## Model

| member | source | states |
|---|---|---|
| `StateMachine.Min` | src/state_machine.ts:47 | `Math.min` on extended ticks is a lower bound of both arguments and one of them |
| `StateMachine.Max` | src/state_machine.ts:86 | `Math.max` on extended ticks is an upper bound of both arguments and one of them |
| `StateMachine.TimeToTick` | src/state_machine.ts:32-34 | the tick is floor(time * ticksPerSecond / 1000): tick*1000 <= time*tps < tick*1000 + 1000 |
| `StateMachine.TimeToTickMonotone` | src/state_machine.ts:32-34 | for a non-negative rate, a later time never maps to an earlier tick |
| `StateMachine.RunCompose` | src/state_machine.ts:84-97 | replaying [lo, mid) and then [mid, hi) is replaying [lo, hi) |
| `StateMachine.RunWithoutActions` | src/state_machine.ts:84-97 | over ticks with no registered actions the replay is `tick` applied once per tick |
| `StateMachine.RunFrame` | src/state_machine.ts:93-96 | a replay of [lo, hi) depends only on the action lists of those ticks |
| `StateMachine.EmptyIsValid` | src/state_machine.ts:22-30 | a new machine (genesis +Infinity, cache mark -Infinity, no logs) is valid and coherent for every game |
| `StateMachine.Drop` | src/state_machine.ts:59-62 | the roll-back only deletes: every kept snapshot keeps its value, and every snapshot at or below the registered tick is kept, and none in (tick, upTo] survives; `Mach.DropSnapshotsAbove` proves the source's deletion loop equal to it |
| `StateMachine.Register` | src/state_machine.ts:36-67 | `register_action` on the machine's value: afterwards the action is listed at its tick, genesis is at most that tick and at most the old genesis, and snapshots are only ever removed; `RegisterFresh`, `RegisterDuplicate`, `RegisterKeepsValid` and `RegisterKeepsCoherent` characterize it fully |
| `StateMachine.RegisterDuplicate` | src/state_machine.ts:50-57 | registering an action equal to one already in its tick's list leaves the machine unchanged |
| `StateMachine.RegisterFresh` | src/state_machine.ts:41-66 | a new action is appended to its tick's list (created if absent), other lists are kept, genesis becomes min(genesis, tick), the kept snapshots are exactly those at ticks <= tick with their values, and the cache mark becomes min(mark, tick) |
| `StateMachine.RegisterKeepsValid` | src/state_machine.ts:36-67 | registration keeps genesis at most every tick with a (non-empty) action list and every snapshot at most the cache mark |
| `StateMachine.RegisterKeepsCoherent` | src/state_machine.ts:59-63 | after the roll-back every remaining snapshot still equals the replay from genesis over the new action lists |
| `StateMachine.RegisterKeepsOtherLists` | src/state_machine.ts:41-66 | registering at one tick leaves every other tick's action list unchanged |
| `StateMachine.CommuteLists` | src/state_machine.ts:41-66 | two registrations at different ticks leave the same action lists in either order |
| `StateMachine.CommuteMarks` | src/state_machine.ts:47 | two registrations at different ticks leave the same genesis and cache mark in either order |
| `StateMachine.CommuteSnapshots` | src/state_machine.ts:59-63 | two registrations at different ticks keep the same snapshots in either order |
| `StateMachine.RegisterCommutesAcrossTicks` | src/state_machine.ts:36-67 | registering two actions at different ticks gives the same machine in either order |
| `StateMachine.RecordedEntries` | src/state_machine.ts:84-88 | the replay loop stores, at each tick t in [start, end], the state replayed up to t, and keeps every other snapshot |
| `StateMachine.Start` | src/state_machine.ts:70-77 | `compute` starts at the cache mark whenever a snapshot is stored there, and at genesis otherwise; `StartIsReplay` relates it to the replay |
| `StateMachine.StartState` | src/state_machine.ts:70-77 | the starting state is the snapshot stored at the cache mark when there is one, and otherwise `init()` (it is always `init()` or a stored snapshot); `StartIsReplay` shows it is the replay up to `Start` |
| `StateMachine.TooFar` | src/state_machine.ts:79-81 | the guard: the start is a tick and the end lies more than 1000 ticks past it, so a call that passes replays at most 1001 ticks (no contract of its own; `ComputeResult` states its early return) |
| `StateMachine.ComputeResult` | src/state_machine.ts:69-100 | what `compute` returns: the start state unchanged when the guard fires, `init()` when nothing was ever registered; `ComputeResultIsReplay` and `ComputeStepsPastSnapshot` characterize the replay case |
| `StateMachine.Computed` | src/state_machine.ts:83-97 | the machine after `compute`: the action lists and genesis are unchanged, the cache mark never moves back, and a call stopped by the guard (or whose start is past the end, or that has no start tick) leaves the machine unchanged; `ComputedEntries` gives the recorded snapshots and the new mark; `ComputeKeepsValid` and `ComputeKeepsCoherent` state its invariants |
| `StateMachine.ComputedEntries` | src/state_machine.ts:84-88 | when the loop runs, the snapshots afterwards are exactly the old ones plus one at every tick of [start, end], and the cache mark becomes max(old mark, end) |
| `StateMachine.ComputeStepsPastSnapshot` | src/state_machine.ts:83-96 | when the loop runs, it records a snapshot at the end tick, and the returned state is that snapshot stepped once more (a tick's actions land after its recorded state) |
| `StateMachine.StartIsReplay` | src/state_machine.ts:70-77 | on a coherent machine `compute` starts at or after genesis from the replayed state, or from `init()` when nothing was registered |
| `StateMachine.ComputeResultIsReplay` | src/state_machine.ts:69-100 | on a coherent machine within the 1000-tick guard, `compute` returns the replay from genesis through the end tick (through the start tick when the cache is already past the end), or `init()` with no actions |
| `StateMachine.ComputeIsCacheTransparent` | src/state_machine.ts:69-100 | two coherent machines with the same actions and genesis return the same state, provided both start ticks are at most end + 1 and neither call is stopped by the 1000-tick guard |
| `StateMachine.ComputeKeepsValid` | src/state_machine.ts:83-97 | `compute` keeps the structural invariant and changes neither genesis nor the action lists |
| `StateMachine.ComputeKeepsCoherent` | src/state_machine.ts:83-97 | every snapshot `compute` records equals the replay from genesis |
| `StateMachine.RegisterThenCompute` | src/state_machine.ts:59-97 | rollback correctness: after a new action at a tick <= end, `compute` returns the replay from genesis that includes it |
| `StateMachine.Mach.constructor` | src/state_machine.ts:22-30 | `new_mach` builds the empty, valid machine, coherent for every game |
| `StateMachine.Mach.RegisterAction` | src/state_machine.ts:36-67 | the loop-based method produces exactly `Register` of the old machine at the action's tick and keeps validity and coherence |
| `StateMachine.Mach.DropSnapshotsAbove` | src/state_machine.ts:59-62 | the deletion loop removes exactly the snapshots at ticks in (tick, cached_tick] |
| `StateMachine.Mach.Compute` | src/state_machine.ts:69-100 | the replay loop returns `ComputeResult`, leaves the machine at `Computed`, and keeps validity and coherence |
| `DemoGame.Init` | src/main.ts:40-42 | the initial state is tick 0 with no players |
| `DemoGame.NewPlayer` | src/main.ts:47-49 | the player `when` creates on first sight: named "Anon" at (256,128) with no keys (no contract of its own; `When` states it) |
| `DemoGame.When` | src/main.ts:45-61 | the sender exists afterwards (created as "Anon" at (256,128) with no keys if absent); `SetNick` changes only its name; `KeyEvent` sets only `key[key] := down`; positions, the tick and all other players are unchanged |
| `DemoGame.WhenIdempotent` | src/main.ts:45-61 | applying the same action twice equals applying it once |
| `DemoGame.WhenCommutesAcrossPlayers` | src/main.ts:45-61 | actions of different players commute |
| `DemoGame.Axis` | src/main.ts:69-70 | one axis moves by +4, -4 or 0 according to which of its two keys are held |
| `DemoGame.Move` | src/main.ts:68-70 | one player's movement for one tick (no contract of its own; `Tick` states its effect on every player) |
| `DemoGame.MoveAll` | src/main.ts:67-71 | every player moved by one tick (no contract of its own; `MovePlayers` proves the source's loop equal to it and `Tick` states its effect) |
| `DemoGame.Tick` | src/main.ts:64-74 | the tick count rises by 1, the players, their names and key maps are kept, x moves by 4([D]-[A]) and y by 4([S]-[W]), absent keys counting as released |
| `DemoGame.MovePlayers` | src/main.ts:67-71 | the per-player loop moves every player exactly once |
| `DemoGame.TickState` | src/main.ts:64-74 | the loop-based `tick` computes `Tick` |
| `DemoGame.TickHoldingD` | src/main.ts:66-70 | one tick moves a player holding only D by +4 in x, 0 in y, and keeps its keys |
| `DemoGame.HoldingDMovesRight` | src/main.ts:66-70 | n ticks move a player holding only D by 4n to the right and keep its keys |
| `DemoGame.OneSecondOfHoldingD` | src/main.ts:7 | at 32 ticks per second, a D key-down at time 0 replayed through the tick of time 1000 leaves the new player 128 units right of (256,128) |
| `DemoGame.OneSecondThroughTheScheduler` | src/state_machine.ts:36-100 | a new machine that registers that key-down at the tick of its time stamp (0) and computes the tick of time 1000 ms (32) returns the replay from genesis, with the player at (384,128) |
| `DemoGame.TwoActionsAtTickZero` | src/state_machine.ts:41-66 | two different actions registered at tick 0 on a new machine are listed in arrival order, with genesis 0 and no snapshots |
| `DemoGame.ComputeTwoActionsAtTickZero` | src/state_machine.ts:84-96 | computing tick 0 steps the empty world and then applies the listed actions in list order |
| `DemoGame.SameTickOrderIsObservable` | src/state_machine.ts:66 | a D key-down and key-up at the same tick, registered in the two orders, leave D released in one result and held in the other |
| `ActionCodec.LeValueOfLeBytes` | src/main.ts:133-138 | reading back the k low bytes of a number below 256^k gives the number |
| `ActionCodec.LeBytesOfLeValue` | src/main.ts:112-113 | writing out the value of a byte string gives back the bytes |
| `ActionCodec.Int48` | src/main.ts:112-113 | the six low bytes of `BigUint64Array([BigInt(n)])` read back as n modulo 2^48 |
| `ActionCodec.KeyByte` | src/main.ts:121 | the key byte is the first code unit modulo 256 (itself when below 256), and 0 for an empty key |
| `ActionCodec.Serialize` | src/main.ts:106-127 | byte 0 is the tag, bytes 1..6 are time mod 2^48 and bytes 7..12 pid mod 2^48 (little-endian), then the encoded name, or exactly the key byte and a down byte that is 1 iff down and 0 iff not |
| `ActionCodec.SerializeAction` | src/main.ts:106-127 | the push-based builder yields `Serialize` |
| `ActionCodec.Slice` | src/main.ts:134 | `slice` clamps to the buffer: inside it is the sub-sequence, running past the end it is the tail from `lo`, starting past the end it is empty |
| `ActionCodec.Field48` | src/main.ts:133-135 | a 48-bit field read through a zeroed eight-byte buffer is the little-endian value of the six bytes at `lo`, of the bytes left when fewer remain, or 0 past the end, and lies in [0, 2^48) |
| `ActionCodec.Deserialize` | src/main.ts:129-157 | fails iff the buffer is empty or the tag is not 0 or 1; the tag picks the kind; time and pid are in [0, 2^48) and, on a buffer of at least 13 bytes, are bytes 1..6 and 7..12 read little-endian; the name is the decoded tail; the key is `[data[13]]`, or `[0]` when that byte is missing; down iff byte 14 exists and equals 1 |
| `ActionCodec.KeyEventRoundTrip` | src/main.ts:142-151 | a `KeyEvent` with time and pid in [0, 2^48) and a one-character key below 256 decodes to itself |
| `ActionCodec.SetNickRoundTrip` | src/main.ts:132-140 | a `SetNick` with time and pid in [0, 2^48) decodes to itself when its name survives UTF-8 encode/decode |
| `ActionCodec.DeserializeSerialize` | src/main.ts:129-157 | any action decodes to itself with time and pid reduced mod 2^48, the key cut to its first code unit's low byte and the name passed through UTF-8 |
| `ActionCodec.SerializeDeserializeSetNick` | src/main.ts:110-115 | a `SetNick` buffer of at least 13 bytes whose name bytes survive UTF-8 decoding and re-encoding decodes and re-encodes to the same bytes |
| `ActionCodec.SerializeDeserializeKeyEvent` | src/main.ts:117-124 | a 15-byte buffer with tag 1 and a down byte of 0 or 1 decodes and re-encodes to the same bytes |

## Left out

- `draw` (src/main.ts:77-100) is canvas rendering and is not part of this model.
- The network client, the top-level `await`, `recv`/`send` and `client.time()` (src/main.ts:167-175) are I/O through a library that is not part of this model. Times reach `Compute` and `RegisterAction` as parameters.
- `handle_key_event`, `key_state`, the window listeners and `game_loop` (src/main.ts:178-208) are browser glue and the animation loop. They are not modelled.
- `PID` and `room` come from `Math.random`; the `console.log` call is output. Both are left out, and player ids are parameters.
- The webpack and rollup configuration files hold no logic.
- UTF-8 is not modelled. `TextEncoder`/`TextDecoder` are the `encode`/`decode` parameters, and the `SetNick` round trip assumes `decode(encode(name)) == name`, which fails for example for names with lone surrogates or a leading U+FEFF (`TextDecoder` strips a leading byte-order mark).
- Duplicate detection compares `JSON.stringify` fingerprints; the model uses structural equality (`==` on the action type). The two agree for the demo's actions, which are always built with the same field order.
- The `JSON.parse(JSON.stringify(...))` deep copies in `when` and `tick` only give value semantics, which Dafny datatypes already have.
- Floating point is replaced by integers:
  - `time_to_tick` divides floats; the model uses integer floor division with an integer tick rate;
  - positions are floats in the source; the model uses integers, since every step is exactly 4 and the start position is integral.
- The `!state` test in `compute` is modelled as "no snapshot at that tick". A falsy game state (such as `0`) would also count as missing in the source; that is not modelled.
- `StateMachine.Mach.Compute` is modelled as written when the cache mark is past the end tick: the loop does not run, and it returns the snapshot at the cache mark, a state later than the one asked for. `ComputeResultIsReplay` states this case explicitly.
- ActionCodec.Serialize, ActionCodec.Deserialize and the round trips fix little-endian byte order. The source writes time and player id through `BigUint64Array` (src/main.ts:112-113, :119-120) and reads them back the same way (:135, :138, :145, :148), so it uses the host's byte order. On a big-endian host `slice(0, 6)` would keep the six high bytes: the low 16 bits of time and player id would be lost on the wire, and `KeyEventRoundTrip`/`SetNickRoundTrip` would not hold. Big-endian hosts are not modelled.
- The 48-bit integers of the source (`Tick`, `Time`, player ids) are unbounded `int`s in the scheduler. Only the codec reduces them modulo 2^48.
- StateMachine.RegisterCommutesAcrossTicks: registration order is irrelevant only for actions at different ticks. Within one tick, `register_action` appends in arrival order (src/state_machine.ts:66) and `compute` applies the list in that order (src/state_machine.ts:94-96). So the final state can depend on which of two same-tick actions arrived first; `DemoGame.SameTickOrderIsObservable` proves this for a key-down and a key-up of D. Actions of different players at one tick do commute (`DemoGame.WhenCommutesAcrossPlayers`).
