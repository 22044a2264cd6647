# Tegzit game orchestration: a Dafny model

This project models the orchestrator of the Tegzit winter-storm game: the class
`Game` in `src/Game.js`. It covers the following steps:

- the player's winterization choice (`skipWinterization`, `winterize`);
- starting the clock (`continueGame`);
- the hourly update (`hourlyUpdate`);
- the daily update (`dailyUpdate`);
- the rotation of governors when one resigns (`resignGovernor`).

Every collaborator the orchestrator talks to (the simulation, its donation ledger,
the storm) is modelled only through the calls made into it. Each call is recorded
with its arguments in an append-only log, `Game.log`. The value a query returns
is a parameter of the step that issues it.

Modules:

- `Calls`: the `Call` datatype, plus counting calls by kind.
- `Governors`: the governor index's increment-and-wrap step, and its closed form
  after `n` resignations.
- `Ticks`: the calls each step issues, and `Threaded`, which states the tick
  protocol on its own terms. The protocol says which call must precede or follow
  which, and which answered value must flow into which call.
- `History`: a ghost history of operations. The game's state and its whole call
  log are functions of that history (`WinterizedAfter`, `ClockRunningAfter`,
  `Resignations`, `Render`). The lemmas here hold for every interleaving of the
  operations.
- `Orchestration`: the classes `GameState` (the clock's running bit) and `Game`.
  `Game.Valid()` ties the fields to the history. Each method keeps `Valid()` and
  states its new state outright. `Session` is a small client that exercises one
  game session.

## Model

| member | source | states |
|---|---|---|
| Orchestration.Game.constructor | src/Game.js:7-18 | The orange faction is in power and the governor index is 0. The clock is stopped, the log is empty and the winterization flag is the simulation's initial one. |
| Orchestration.GameState.constructor | src/Game.js:134-139 | A new game state holds a stopped clock. |
| Orchestration.Game.SkipWinterization | src/Game.js:33-35 | The flag becomes false. Exactly one call is appended: `applyEnergyDonations(false, orangeGovernor)` on the donation ledger. |
| Orchestration.Game.Winterize | src/Game.js:45-47 | The flag becomes true. Exactly one call is appended: `applyEnergyDonations(true, orangeGovernor)` on the donation ledger. |
| Orchestration.Game.ContinueGame | src/Game.js:57-62 | The clock runs afterwards. The log, the flag and the governor index are unchanged. |
| Orchestration.Game.HourlyUpdate | src/Game.js:64-78 | The log grows by exactly the hourly calls, in order, with the answered temperature, usage, population and approval passed along. |
| Orchestration.Game.DailyUpdate | src/Game.js:80-85 | The log grows by exactly three calls, in order: `buyGenerators`, then generator donations with its result, then the simulation's energy donations with the current flag. |
| Orchestration.Game.ResignGovernor | src/Game.js:113-121 | The clock stops and the index moves to the next governor, wrapping to 0 at the end of the list. The log and the flag are unchanged. |
| Orchestration.Game.GovernorIndexInRange | src/Game.js:113-121 | In every reachable state the index is below the number of governors and equals the number of resignations modulo it. With no governors it is 0. |
| Orchestration.Game.LogFollowsProtocol | src/Game.js:33-85 | In every reachable state the log keeps the tick protocol and passes only the faction in power. Every daily energy donation in it passes the flag in force. The flag the log's decision calls set is the game's flag. |
| Orchestration.Game.LogCounts | src/Game.js:33-85 | In every reachable state the log holds, for every kind of call, exactly as many calls as the operations performed issue: `Tally(history, k)`. Spelled out: one temperature query, `hourTick`, gazz donation, population query, approval query and grassroots donation per hourly update; one regeneration per hourly update at hour 9; one purchase and one generator donation per day; one energy donation per decision and per day. |
| Governors.NextGovernorIndex | src/Game.js:118-121 | One resignation maps index `i` below the count to `(i + 1) % count`. The result is always in range, and 0 when the list is empty. |
| Governors.GovernorIndexAfter | src/Game.js:13 | Starting from 0, the index after any number of resignations stays in range. |
| Governors.GovernorIndexAfterIsModulo | src/Game.js:118-121 | After `n` resignations from index 0 the index is `n % count`. |
| Ticks.HourlyRegeneration | src/Game.js:65-68 | An hourly update regenerates the temperatures if and only if the hour is 9. It then does so first, directly before the temperature query. |
| Ticks.HourlyThreadsValues | src/Game.js:68-74 | In an hourly update the temperature query is for the clock's hour. `hourTick` receives the temperature just answered, and the gazz donations receive `hourTick`'s usage. The grassroots donation comes after the gazz donation, with the population and approval just answered. |
| Ticks.HourlyCallsThreaded | src/Game.js:64-74 | The calls of any hourly update keep the tick protocol. |
| Ticks.DailyCallsThreaded | src/Game.js:80-85 | The calls of any daily update keep the tick protocol. |
| Ticks.ThreadedAppend | src/Game.js:64-85 | Appending one protocol-keeping log to another keeps the protocol. |
| History.RenderCounts | src/Game.js:33-85 | For any history, the log counts per kind of call: <br>• one temperature query, `hourTick`, gazz donation, population query, approval query and grassroots donation per hourly update; <br>• one regeneration per hourly update at hour 9; <br>• one purchase and one generator donation per day; <br>• one energy donation per decision and per day. |
| History.RenderThreaded | src/Game.js:64-85 | Any interleaving of operations leaves a log that keeps the tick protocol. |
| History.RenderOnlyFaction | src/Game.js:33-84 | Every faction argument in the log of any history is the constant `true` the constructor sets. |
| History.RenderPolicy | src/Game.js:33-47 | The flag the last decision call in the log passes (or the initial flag) equals `gridWinterized` after the same history. |
| History.RenderDailyFlagIsCurrent | src/Game.js:80-85 | Each daily energy donation passes the flag that the decision calls before it set. |

## Left out

- The presentation is not modelled: modals, `showInGameModal`/`clearInGameModal`, `updateUI`, `updateDate`, `textContent` writes, `Math.round` and region drawing. It is display only.
- `startGame` is not modelled. It only refreshes the display and opens the decision dialog.
- `updateUI` also reads the temperature; that read is not in the log, since it feeds only the display.
- The internals of `Simulation`, `Storm`, `TimeAndDate` and the donation ledger are not modelled. Their source is not part of this model, so their answers are parameters: the temperature, `hourTick`'s usage, population, approval and `buyGenerators`' count.
- Temperatures, usage and approval are opaque real values that nothing computes with. JavaScript's floating point is not modelled.
- The real-time driver behind `startTime`/`stopTime` is not modelled. The clock is only its running bit, and `HourlyUpdate` takes the clock's hour as a parameter.
- The governor names are not modelled, only their number: `governorCount`.
- The clock is assumed to start stopped, since `TimeAndDate` is not part of this model. The simulation's initial `gridWinterized`, which `Simulation.js` sets, is a constructor parameter.
- The game holds no simulation or UI object: the calls into them are log entries.
- `gridWinterized` is modelled as a field of `Game` that only `SkipWinterization` and `Winterize` write. In the source it is a field of the simulation object, read at src/Game.js:84 after `hourTick`, `buyGenerators` and the donation calls. `Simulation.js` is not part of this model, so `History.RenderPolicy`, `History.RenderDailyFlagIsCurrent` and `Orchestration.Game.LogFollowsProtocol` assume that nothing inside the simulation writes that flag.
- The governor index is an unbounded `nat`. JavaScript's number type cannot overflow at the list's length.
- Where a reader might expect otherwise, the model follows the code as written:
  - `hourTick` receives the faction in power, not the winterization flag.
  - `dailyUpdate` calls the simulation's own `applyEnergyDonations` every day, so the energy donation is not a one-time call.
  - Nothing stops an hourly or daily update before the decision is made.
  - A second decision is not refused.
