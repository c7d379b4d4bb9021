# Vehicle generation and hyperparameter search of a SUMO traffic-signal testbed

This project models two parts of a traffic-signal-control testbed built on the
SUMO microscopic traffic simulator, and proves properties of the model.

**The vehicle generator** (`VehicleGen`) puts vehicles into the simulation, one
tick at a time. At construction it selects a strategy from the demand name and
the run mode:
- *single* keeps exactly one vehicle in the network.
- *dynamic* (and every training run whose demand is not *single*)
  precomputes a per-second schedule. It
  drains a one-second budget with exponential headways, rotates the counts by a
  random phase, zeroes the last minute, and draws an origin edge for every
  vehicle.
- *linear* / *real* load every vehicle of a recorded demand file at once and
  then stop generating.

Spawned vehicles get a random-walk route from their origin to a destination
edge. The headway function `headway_j` maps a flow rate to a time gap through
seven fitted Johnson distributions.

**The grid search driver** (`hp_optimization.py`) takes the hyperparameter grid
of a signal controller and sorts its flags. It forms the Cartesian product of
the grids and builds, for every configuration, the shell command that evaluates
it. It refuses every demand except the recorded one. At the end it ranks the
configurations by mean plus standard deviation of their travel times.

Modules:
- `Common` (common.dfy): results and errors, uniform choice by an index
  oracle, and Python's `str()` of integers.
- `Headway` (headway.dfy): `headway_j`.
- `Schedule` (schedule.dfy): `gen_dynamic_demand`.
- `Router` (router.dfy): `add_origin_routes` and `set_veh_route`.
- `Controller` (controller.dfy): `__init__`, `run`, `gen_single`,
  `gen_dynamic`, `gen_veh`, `addVehicle` and the burst part of `gen_fr_cycle`.
- `HpGrid` (hp_grid.dfy): `get_hp_dict`, `sorted(keys)` and
  `itertools.product`.
- `HpCommands` (hp_commands.dfy): `create_hp_cmds` and the demand check of
  `main`.
- `HpRank` (hp_rank.dfy): the ranking of `rank_hp`.

Modelling choices:
- **Randomness is an input.** Every random draw becomes an oracle input:
  - a vector of seven samples, one per reference distribution, for
    `headway_j`;
  - a sequence of headway draws for the count loop;
  - index sequences for `np.random.choice`, where index `k` picks element
    `k mod n`.

  A finite oracle can run out where the source would keep drawing. The model
  then fails with `OracleExhausted`. This outcome exists only in the model.
- **Numbers are exact.** Arithmetic is on exact reals. Python's `int()`
  truncation is written out.
- **The simulator is a log.** Simulator calls are replaced by a log of
  insertions. What the simulator reports back is a parameter of each tick:
  the vehicle count, the route ids and the loaded recording.
- **Python data types have explicit counterparts:**
  - a Python dict is its entry list in insertion order;
  - Python's string order is code-point lexicographic order;
  - `sorted` is a stable insertion sort.
- **Shell commands have a partner.** Every command string is related to the
  argument vector the shell splits it into.

## Model

| member | source | states |
|---|---|---|
| Common.Choose | src/vehiclegen.py:181 | uniform choice fails exactly on an empty list and otherwise returns one of its elements |
| Common.NatToString | src/vehiclegen.py:186 | `str()` of a counter value is a non-empty string of decimal digits, a single digit exactly below 10 |
| Common.NatToStringValue | src/vehiclegen.py:186 | the printed digits read back as the number, and only zero starts with `0`, so the string is the canonical decimal form |
| Common.NatToStringInjective | src/vehiclegen.py:186 | distinct counter values print as distinct decimal strings |
| Common.IntToString | hp_optimization.py:49-52 | `str()` of a process count is one space-free word: a minus sign exactly for a negative value, followed by digits that read back as its magnitude |
| Headway.HeadwayJ | src/vehiclegen.py:62-82 | the headway fails with the flow-rate assertion exactly when the rate is below 30 v/h (half the lowest reference rate); every other rate yields a headway |
| Headway.FirstBinFrom | src/vehiclegen.py:75-76 | the bin search returns the first reference rate at or above the flow rate, all earlier ones being below it, or reports that none is |
| Headway.FRatesIncreasing | src/vehiclegen.py:5 | the reference rates strictly increase |
| Headway.BracketUnique | src/vehiclegen.py:75-80 | at most one interpolation bin holds a given rate |
| Headway.BracketExists | src/vehiclegen.py:75-80 | every rate above 60 and up to 1700 v/h lies in some bin |
| Headway.FirstBinIsBracket | src/vehiclegen.py:75-76 | the first-match loop stops exactly at the bin that brackets the rate |
| Headway.RatioInUnitInterval | src/vehiclegen.py:77 | inside a bin the interpolation weight lies in (0, 1] |
| Headway.HeadwayLowRates | src/vehiclegen.py:72-74 | between 30 and 60 v/h the lowest distribution's sample is stretched by 60/rate and capped at 900 s |
| Headway.HeadwayHighRates | src/vehiclegen.py:81-82 | above 1700 v/h the highest distribution's sample is compressed by 1700/rate and never negative |
| Headway.HeadwayInterpolates | src/vehiclegen.py:75-80 | inside a bin the headway is the linear interpolation of the two neighbouring samples, floored at 0 |
| Headway.HeadwayAtReferenceRate | src/vehiclegen.py:75-80 | at a reference rate the interpolation collapses onto that rate's own sample |
| Headway.HeadwayAtLowestRate | src/vehiclegen.py:72-74 | at 60 v/h the stretch factor is 1, so only the 900 s cap applies |
| Headway.LerpBetween | src/vehiclegen.py:78 | an interpolated headway lies between the two samples it mixes |
| Headway.HeadwayPositiveOnBoundedFits | src/vehiclegen.py:65-80 | with samples from the bounded Johnson SB supports, every admissible rate up to 800 v/h gets a strictly positive headway |
| Schedule.DrainTick | src/vehiclegen.py:150-154 | one tick counts exactly the headways that leave the budget positive and consumes one more draw; a non-positive budget skips the loop |
| Schedule.DrainsUnique | src/vehiclegen.py:150-154 | a tick's count and consumption are determined by its budget and the draws |
| Schedule.CarryAtMostOne | src/vehiclegen.py:150-155 | whatever budget a tick starts with, it carries at most one second into the next |
| Schedule.ExtendRun | src/vehiclegen.py:147-156 | appending a tick that starts where the previous stopped, with the carried budget, extends a run of the count loop |
| Schedule.CountVehicles | src/vehiclegen.py:146-156 | the count loop yields one tick per second of the horizon, each tick starting with the carried budget (at most one second) where the previous one stopped, unless the draws run out |
| Schedule.CountIsPositivePrefix | src/vehiclegen.py:147-156 | each count is the number of cumulative headways that stayed below the tick's budget, the next one reaching it |
| Schedule.Rotate | src/vehiclegen.py:164 | the phase shift is a left rotation: same length, same counts as a multiset, entry i taken from (i + r) mod n |
| Schedule.RotateZero | src/vehiclegen.py:160-164 | a phase of zero leaves the counts unchanged |
| Schedule.ShiftAmount | src/vehiclegen.py:160-163 | test mode has no phase; otherwise the phase lies in [0, horizon) and an empty horizon fails as randint(0, 0) does |
| Schedule.ZeroTail | src/vehiclegen.py:166 | the last sixty entries (all, for a shorter horizon) become 0 and the others keep their value |
| Schedule.ShiftCounts | src/vehiclegen.py:159-166 | the shifted counts keep their length and end in a zero minute; only an empty horizon outside test mode fails |
| Schedule.ShiftCountsTestMode | src/vehiclegen.py:160-166 | in test mode only the tail is zeroed |
| Schedule.ShiftCountsIsRotation | src/vehiclegen.py:162-166 | outside test mode the counts are rotated by some phase below the horizon, keeping every count, then the tail is zeroed |
| Schedule.Trunc | src/vehiclegen.py:168 | `int()` truncates toward zero for both signs |
| Schedule.PickEach | src/vehiclegen.py:168 | a drawn batch has the requested size and only origin edges |
| Schedule.Expand | src/vehiclegen.py:168-169 | expansion succeeds exactly when every count can be drawn and the choices suffice; each positive count becomes int(scale * count) origin edges and a zero count becomes no edge |
| Schedule.ExpandZeroScale | src/vehiclegen.py:168-169 | with scale 0 every tick expands to no vehicle and never fails |
| Schedule.ScheduleFromCounts | src/vehiclegen.py:158-169 | the shift fails exactly on an empty horizon outside test mode; otherwise the expansion succeeds exactly when every shifted count can be drawn and the origin choices suffice, with batch sizes int(scale * count), an empty last minute and only origin edges |
| Schedule.GenDynamicDemand | src/vehiclegen.py:141-172 | the returned ticks are the count loop's run over the draws, at most one per second, and a run short of the horizon ends only because the remaining draws starve the next tick; such a short run fails with the oracle error; with a full count loop the builder succeeds exactly when the shift is defined, every shifted count can be drawn and the origin choices suffice; the schedule then has one batch per second, sized by the (rotated in training) counts, an empty last minute, only origin edges, and scale 0 gives an empty schedule |
| Router.OriginRoutes | src/vehiclegen.py:174-176 | each origin has a route of its own name consisting of that single edge |
| Router.Walk | src/vehiclegen.py:191-198 | a successful walk starts at the edge, steps along outgoing edges as the oracle picks them, and stops at the first destination edge |
| Router.WalkComplete | src/vehiclegen.py:191-198 | conversely, every such route following the oracle is the one the walk returns |
| Router.WalkReadsOnlyItsSteps | src/vehiclegen.py:193-197 | a route of k edges reads only the first k - 1 choices: any oracle that agrees on them gives the same route, so the remaining choices are free for the next vehicle |
| Router.LineNetworkRoute | src/vehiclegen.py:191-198 | on the network A to B to D a vehicle starting on A is routed A, B, D whatever the choices |
| Router.SelfLoopNeverArrives | src/vehiclegen.py:194-197 | an edge whose only successor is itself and that is not a destination never finishes its route |
| Controller.Dispatch | src/vehiclegen.py:37-45 | each strategy is selected exactly under its branch condition of the if/elif chain, and an unknown demand leaves no generator |
| Controller.TrainModeUsesDynamic | src/vehiclegen.py:39 | in training mode every demand except single uses the dynamic schedule |
| Controller.RecordedIdInjective | src/vehiclegen.py:85 | recorded-demand vehicle ids determine both the route and the counter |
| Controller.VehicleIdInjective | src/vehiclegen.py:186 | random-walk ids determine edge and counter when no edge name ends in a digit |
| Controller.VehicleIdCollision | src/vehiclegen.py:186 | without that condition vehicle 0 on edge `e1` and vehicle 10 on edge `e` share the id `e10` |
| Controller.LogIdsUnique | src/vehiclegen.py:85-87 | two vehicles of the same kind in a numbered log have distinct ids under the naming condition |
| Controller.GenVeh | src/vehiclegen.py:184-189 | one vehicle per edge, in order, on that origin, numbered consecutively from the counter, each on the random walk from its origin that reads the choices the vehicles before it left unread |
| Controller.GenVehComplete | src/vehiclegen.py:184-198 | conversely, when every edge is an origin and each vehicle's share of the choices walks it to a destination, the batch succeeds with exactly those routes |
| Controller.GenVehRoutable | src/vehiclegen.py:184-198 | a batch succeeds exactly when it can be routed: all edges are origins and every walk, on its share of the choices, arrives |
| Controller.Spawn | src/vehiclegen.py:184-189 | a batch succeeds exactly when it can be routed; it extends the log without touching earlier entries, adds one vehicle per edge in order on that origin with the id edge + counter and on its random walk, advances the counter by the batch size and changes nothing else |
| Controller.GenSingle | src/vehiclegen.py:178-182 | with vehicles in the network nothing happens; in an empty network, no origins fail the choice, and otherwise the tick succeeds exactly when a vehicle on the drawn origin can be routed, spawning exactly that one vehicle and changing nothing else |
| Controller.GenDynamic | src/vehiclegen.py:52-59 | before the end, the call succeeds exactly when the current batch can be routed, then advances the cursor by one and spawns that batch: earlier entries unchanged, one vehicle per scheduled edge, in order, on that edge, numbered from the counter, nothing else changed; past the end nothing happens and nothing fails |
| Controller.RecordedRoutes | src/vehiclegen.py:92-93 | the filter fails exactly when some id is empty and never keeps more ids than it is given |
| Controller.RecordedRoutesMembers | src/vehiclegen.py:93 | the kept routes are exactly the ids starting with `r` |
| Controller.RecordedRoutesSplit | src/vehiclegen.py:93 | the filter keeps the ids in their order: filtering a concatenation concatenates the filtered parts |
| Controller.RecordedRoutesSingle | src/vehiclegen.py:93 | a single id is kept exactly when it starts with `r`; with the split this fixes the whole result |
| Controller.Burst | src/vehiclegen.py:127-128 | fails exactly when a route has no recording or has vehicles but no colour; otherwise the k-th start time of route i is the vehicle after all start times of the routes before it, on that route, departing at that time, numbered with the counter at its position, and there is no other vehicle |
| Controller.GenFrCycle | src/vehiclegen.py:91-129 | the recorded load succeeds exactly when the route ids are non-empty, at least twelve routes are kept and every kept route has a recording and, if it has vehicles, a colour; it then appends exactly the burst of the kept routes, one vehicle per recorded start time on its route at its time, sets stop_gen and keeps the strategy |
| Controller.GenVehicles | src/vehiclegen.py:37-49 | generation keeps the state invariant, fails when no generator was assigned, keeps the clock and the network, keeps the strategy except that a dynamic schedule moves by one batch, and sets stop_gen only for the recorded strategies |
| Controller.Run | src/vehiclegen.py:47-50 | each tick advances the clock by one, only appends insertions, keeps the counter equal to the insertions made, once stopped does nothing else, and otherwise leaves the strategy as its generator leaves it |
| Controller.RunSingle | src/vehiclegen.py:47-50 | an unstopped single-vehicle tick does nothing while vehicles are live and otherwise succeeds exactly when the drawn origin's vehicle can be routed, spawning it |
| Controller.RunDynamic | src/vehiclegen.py:47-50 | an unstopped dynamic tick succeeds exactly when the schedule's next batch can be routed, spawns it and moves the cursor past it; past the end it only advances the clock |
| Controller.RunCycle | src/vehiclegen.py:47-50 | an unstopped recorded-demand tick succeeds exactly when the ids are non-empty, at least twelve routes are kept and the recording can be loaded with the colour table; otherwise it fails with the error of `gen_fr_cycle` |
| Controller.RunAll | src/vehiclegen.py:47-50 | successive ticks keep the invariant, advance the clock once per tick, only append insertions, keep the counter equal to the insertions made, and keep the network and the kind of strategy (a schedule only moves forward) |
| Controller.StoppedStaysQuiet | src/vehiclegen.py:47-50 | once stop_gen is set, further ticks only advance the clock |
| Controller.BurstThenStop | src/vehiclegen.py:91-129 | a recorded-demand controller whose recording can be loaded succeeds on its first tick, appends one vehicle per recorded start time, on its route at its time, and every later tick adds nothing |
| Controller.ExhaustedScheduleIsQuiet | src/vehiclegen.py:55-59 | pulling past the end of the schedule is silent on every later tick |
| Controller.EmptyScheduleAddsNothing | src/vehiclegen.py:52-59 | a schedule of empty batches never adds a vehicle and never fails |
| Controller.Init | src/vehiclegen.py:19-45 | construction zeroes clock and counter and selects the dispatched strategy; it always succeeds except for the dynamic one, whose returned ticks are the count loop's run over the draws (short of the horizon only when the draws starve) and which succeeds exactly when the schedule builder does and then holds a full-horizon schedule sized by the shifted counts, with an empty last minute and only origin edges |
| HpGrid.GetHpDict | hp_optimization.py:26-35 | a grid exists exactly for websters, maxpressure and uniform; any other controller fails; grids have distinct flags |
| HpGrid.LearningControllersHaveNoGrid | hp_optimization.py:26-35 | dqn and ddpg have no grid |
| HpGrid.Range | hp_optimization.py:30-32 | `np.arange(lo, hi)` has hi - lo values and value i prints lo + i |
| HpGrid.RangeValues | hp_optimization.py:30-32 | each printed value reads back as lo + i, so no value repeats |
| HpGrid.GreenTimeGrids | hp_optimization.py:29-32 | max-pressure searches minimum green times 1..30 and uniform 1..52 |
| HpGrid.Lookup | hp_optimization.py:107 | looking a flag up yields the grid stored under it |
| HpGrid.LexLeTotal | hp_optimization.py:105 | any two strings are comparable in Python's order |
| HpGrid.LexLeTransitive | hp_optimization.py:105 | Python's string order is transitive |
| HpGrid.LexLeAntisymmetric | hp_optimization.py:105 | two strings ordered both ways are equal |
| HpGrid.Insert | hp_optimization.py:105 | inserting into a sorted list keeps it sorted and adds exactly that string |
| HpGrid.SortStrings | hp_optimization.py:105 | sorting yields a sorted permutation |
| HpGrid.SortedUnique | hp_optimization.py:105 | a collection has only one sorted arrangement, so the flag order is fully determined |
| HpGrid.WebstersOrder | hp_optimization.py:28 | Webster's flags are searched in the order -cmax, -cmin, -f, -satflow |
| HpGrid.PrefixAllAt | hp_optimization.py:109 | the product is laid out row-major: the first grid varies slowest |
| HpGrid.Product | hp_optimization.py:109 | the product has one configuration per combination, and each takes component k from grid k |
| HpGrid.ProductComplete | hp_optimization.py:109 | every combination of grid values occurs in the product |
| HpGrid.GridsInOrder | hp_optimization.py:107 | grid k is the grid of the k-th flag in sorted order |
| HpGrid.HpSearchSpace | hp_optimization.py:104-109 | the flags are the grid's keys in sorted order, and the configurations number the product of the grid sizes with component k from flag k's grid |
| HpGrid.WebstersSearchSpace | hp_optimization.py:104-110 | Webster's controller has 54 configurations |
| HpCommands.Interleave | hp_optimization.py:43-44 | the flag/value pairs run to the shorter of the two lists |
| HpCommands.InterleaveAt | hp_optimization.py:43-44 | argument 2k is flag k and argument 2k + 1 is its value |
| HpCommands.WordsOfJoin | hp_optimization.py:138 | joining two command pieces with a space joins their shell words |
| HpCommands.HpStr | hp_optimization.py:41-44 | the hp string starts with a space and, when flags and values are single words, splits into flag, value, flag, value, ... up to the shorter list |
| HpCommands.WordsOfPairText | hp_optimization.py:42-44 | the hp string splits into flag, value, flag, value, ... |
| HpCommands.CreateHpCmds | hp_optimization.py:37-57 | learning controllers get a training and an evaluation command, others only the evaluation; the evaluation command is last |
| HpCommands.EvalCommandArgv | hp_optimization.py:39-55 | the evaluation command splits into the prefix, the flag/value pairs, test mode with n + l simulations and -load for a learning controller |
| HpCommands.TrainCommandArgv | hp_optimization.py:39-49 | the training command splits into the prefix, the pairs, and training mode with n simulations, l learners and dynamic demand |
| HpCommands.EvalOnRealDemand | hp_optimization.py:130-137 | an evaluation is issued exactly on real demand; every other demand is refused with its name |
| HpCommands.EvalOnRealDemandArgv | hp_optimization.py:135 | the real-demand evaluation is the evaluation command's words followed by -demand real |
| HpCommands.GridValuesAreWords | hp_optimization.py:26-32 | every flag and printed grid value is a single shell word |
| HpCommands.SearchSpaceNonEmpty | hp_optimization.py:107-109 | every controller with a grid has a configuration to evaluate |
| HpCommands.PlanSearch | hp_optimization.py:125-137 | one evaluation per configuration exists exactly for a controller with a grid on real demand; otherwise the controller or demand failure is reported |
| HpCommands.PlanSearchArgv | hp_optimization.py:125-137 | evaluation i runs the simulator with configuration i's values after their sorted flags, in test mode on real demand |
| HpRank.InsertRanked | hp_optimization.py:69 | inserting a ranked entry keeps the ranking sorted and adds exactly that entry |
| HpRank.RankByScore | hp_optimization.py:69 | the ranking is sorted by fitness and a permutation of the entries |
| HpRank.RankHp | hp_optimization.py:68-69 | every evaluated configuration is ranked once, by ascending fitness |
| HpRank.InsertRankedStable | hp_optimization.py:69 | an inserted entry goes first among equally fit entries and leaves them in order |
| HpRank.RankStable | hp_optimization.py:69 | within each fitness value the ranking keeps evaluation order |
| HpRank.BestHp | hp_optimization.py:72 | a best configuration exists exactly when something was evaluated and is one of the entries |
| HpRank.BestIsFirstMinimal | hp_optimization.py:68-72 | the reported best has the lowest mean plus std and, among ties, was evaluated first |
| HpRank.FirstMinimalExists | hp_optimization.py:68-72 | any non-empty evaluation has such a first minimal configuration |

## Left out

- The random distributions are not modelled. These are the Johnson SB/SU
  samples, the exponential headways with their sine-shaped mean (lines
  143-144, 151), `randint` and `np.random.choice`. Their outcomes are oracle
  inputs, and the only property kept is that Johnson SB samples lie in their
  support.
- The oracle-exhaustion failure (`OracleExhausted`) stands for the source's
  unbounded loops. These are the count loop and the route walk, which draw
  until they are done.
- Floating point is not modelled: reals are exact, `min(900, x)` and
  `max(x, 0)` are real comparisons, and rounding is ignored.
- The simulator is not modelled. TraCI calls (`addFull`, `setRoute`,
  `vehicle.add`, `route.add`, `getIDCount`, `getIDList`, `getRoute`) become
  the insertion log and per-tick inputs. Departure lanes and the vehicle type
  are dropped.
- Controller.GenFrCycle: the choice and unpickling of the demand file (lines
  97-108) are left out; the recording is an input. The colour values are left
  out too. Only the table's twelve slots are kept, because building the table
  fails on fewer routes, and a route with vehicles but outside it fails at the
  lookup `self.color_routes[id_route]` (line 88). That lookup is the argument
  of `setColor`, evaluated before `setColor` runs.
- Controller.Burst: the failing colour lookup happens after the vehicle was
  added and counted. The model reports the failure and keeps no partial state.
- Controller.GenVeh: a failure part-way through a batch leaves the earlier
  vehicles of that batch in the simulator. The model reports the failure and
  keeps no partial state.
- The `SUMO_HOME` check at import, `np.random.seed()` and all `print` output
  are left out, as is the commented-out rate-driven generator in
  `gen_fr_cycle`.
- `stop_gen` is set only by the recorded-demand burst. A scale of zero or an
  exhausted dynamic schedule leaves it false; the model follows the code
  (`GenDynamic`, `ExhaustedScheduleIsQuiet`).
- Headway.HeadwayJ: the sample vector must have one entry per reference rate.
  This is the shape of the oracle, not a demand of the source.
- Argument parsing is left out. `Args` keeps only the fields that reach the
  commands: sim, tsc, n, l, demand.
- `os.system`, the reading of travel times, `shutil.rmtree`, the CSV and
  pickle writes and the timing of `main` are left out. The loop of `main` is
  modelled as the list of commands it issues.
- HpRank.RankHp: `np.mean` and `np.std` are not computed. The integer mean
  and standard deviation `main` records are inputs. The ranking's key
  (`hp_str`, the comma-joined values of line 140) is kept as an opaque string.
- HpCommands.EvalCommandArgv: word splitting treats only the space as a
  separator, with no quoting. A grid value with a space is not covered; no
  grid has one.
- Controller.RunAll: the per-tick generation (which vehicles a tick spawns,
  and when a tick fails) is stated one tick at a time by `Run`,
  `RunSingle`, `RunDynamic`, `RunCycle` and `BurstThenStop`; the contract over many ticks
  keeps only the invariant, the clock, the append-only log, the counter and
  the strategy.
- HpCommands.TrainCommandArgv: the training command is built but never run
  by the live loop of `main`. Learning controllers have no grid and fail
  earlier.
- The commented-out per-cycle and repeated-run loops of `main` (lines
  165-280) are dead code and are left out.
