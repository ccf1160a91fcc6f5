# Irrigation controller: a verified model

A Dafny 4.11 model of a water controller: two sprinkler outputs with auto-off timers, a motor valve that is
opened and closed by timed pulses, a latching flow alarm, a cron-like schedule, calibrated sensors, a flash
key-value store, an HTTP configuration API, and the small protocols a device serves while it is being set up.
`dafny verify dfyconfig.toml` checks the whole project.

The code that changes state is modelled by classes and methods with loops (`App`, `WaterValve`, `TimedSwitch`,
`FlashKv`, `ConfigApi`, `Device`, the wire-format builders that fill arrays, the calibration and schedule loops).
Each such method is proved equal to a function of its inputs or of the old state; the lemmas are about those
functions and about whole runs of them.

| files | what they model |
|---|---|
| `Lines`, `Sorting`, `Calibration`, `CalibrationThen`, `CalibrationStored`, `CalibrationLaw` | piecewise-linear tables, chaining any two of them, and exactly when the chained table is the composition |
| `WaterValve`, `ValveRuns`, `ValveOrders`, `ValveExamples`, `TimedSwitch` | the valve sequencer and the auto-off switches, over runs of ticks, commands and retimings |
| `Controller`, `ControllerMachine` | `App` and the same `App` cut at every mutex it takes, so that other tasks' commands, clears, configuration changes, sensor reports and power cuts can fall between any two steps of a tick |
| `ControllerSafety`, `ControllerAlarm`, `ControllerFires`, `ControllerWatering`, `ControllerDeadline`, `ControllerSprinklers` | what every interleaving keeps: the alarm closes the valve, exactly when it fires and what that implies about the past, how soon the valve is closed, how long a sprinkler runs, and that sprinklers, pins and evaluations agree |
| `ControllerTasks` | configuration changes, commands, boot and one tick in terms of seconds set and bytes stored |
| `ControllerPersistence`, `ControllerRecovery` | what survives power cuts, where the valve's coil was driven last, and when a cut leaves the controller wrong about it |
| `ControllerExamples`, `ControllerLate` | runs in full: a fire after a minute, a fire lost to a power cut, an opening stranded by a power cut, a valve closed late |
| `FlashKv`, `FlashKvFormat`, `FlashKvStore`, `FlashKvTorn`, `FlashKvRuns` | the flash image, the store above it, what a write that stopped half way leaves, and what is kept over runs of changes and reboots |
| `Schedule`, `ScheduleCalendar` | windows of minutes, the driver loop over any sequence of clock readings, and both in calendar terms |
| `Template` | placeholder substitution in webhook bodies |
| `Dns`, `DnsClient`, `Dhcp`, `DhcpClient` | two independent captive-portal DNS responders; the one-lease DHCP server; what their clients read |
| `Json`, `Config`, `ConfigSecrets`, `ConfigApi`, `ConfigUpdates` | JSON merge, redaction and adoption of secrets, reading and writing back config sections, and what an update makes of each field |
| `Ota` | streaming a firmware image into the inactive slot |
| `Pulses` | widening 16-bit pulse counters; the battery average |
| `WifiRoundRobin` | trying the configured networks in turn, and the fallback to access-point mode |
| `Bytes`, `Wrappers` | bytes, little-endian words, the option type |

Times are integers in milliseconds (nanoseconds in `Schedule`); `f32` is modelled by `real`.

## Where the code does less than its documentation says

The model follows the code. Where a documented law is false in general, one lemma gives an input for which it
fails and another the exact condition under which it holds.

- `then` is documented as `(self.then(other))(x) == other.apply(self.apply(x))`. Outside the first table's
  breakpoints, or where the first table crosses a breakpoint of the second one more than once, this can fail
  (`ChainLaw.LawFails`, `ChainLaw.LawFailsAtPeak`). It holds exactly under `OnceCrossed` (`ChainLaw.LawIff`):
  always for a two-point second table, and between the breakpoints of a strictly monotone first one.
- The flow alarm counts whole seconds between ticks and drops the remainder, so it may fire late or never.
  It fires exactly at the enabled evaluations that saw no latch and come at least the duration after the last
  one that did not count, the milliseconds dropped since not included (`ControllerFires.FiresWhen`): on time with
  gaps of whole seconds (`ControllerFires.FiresOnTheSecond`), and never more than 999 ms late for each evaluation
  (`ControllerFires.FiresInTime`). The no_std firmware waits a second between ticks
  (`crates/firmware-nostd/src/main.rs:448-463`), so it needs at most one evaluation for each second of the duration
  (`ControllerFires.FiresByCount`). The IDF firmware ticks every 10 ms (`crates/firmware/src/main.rs:295`), so there
  the counter stays at zero and an alarm with a positive duration never fires
  (`ControllerAlarm.SubSecondTicksNeverFire`). A zero duration fires at once, even without flow.
- The stored alarm history is promised to keep the latest fires. A power cut between a fire and its write loses
  the record (`ControllerExamples.CutLosesFire`); `ControllerPersistence.HistoryIsLastFires` says which fires
  are kept, and that all of them are if and only if no cut comes on an unsaved one.
- A crash while the valve moves is documented to be followed by a recovery sequence
  (`crates/core/src/app.rs:29-32`). The firmware only logs the restored state. The state restored after a cut is
  wrong exactly if the cut falls between the first tick that drives a sequence's coil and the write of the completed
  sequence's state, opening or closing (`ControllerRecovery.FirstCutStrandsIff`; for any number of cuts and with
  failing writes `ControllerRecovery.RestoredAgrees`). Then no order that asks for what the controller believes
  already moves the valve, the alarm's order to close included (`ControllerRecovery.CutStrands`,
  `ControllerExamples.CutStrandsOpening`).
- Putting a section back as it was read keeps every secret only while networks that share an SSID share a
  password (`ConfigApis.PutBack`, `Configs.SharedSsidLoses`).
- Updating one section also fills the blank password of a stored network whose SSID an earlier one carries with
  a password (`ConfigApis.OtherPutFillsPassword`); every other section stays as it was if and only if there is
  none (`ConfigApis.OtherSectionsKept`).
- `redact_secrets_for_api` is documented to blank every sensitive field; the access point's own password is
  shown. `Configs.RedactionHidesExactlySecrets` lists exactly what is hidden.
- A failed read of the IDF pulse counter counts as a raw value of zero and adds 32768 pulses unless the
  counter happened to wrap (`Pulses.FailedReadOvercounts`). `Pulses.ExactTotal` gives the total after any run, and
  `Pulses.TotalIsTrue` says when it is the true count: exactly if no wrap shows between good reads but at 32768,
  and where reads failed in between the counter wrapped or the raw value before them was zero.
- `then` and `apply` assume tables built by `Calibration::new`. A table that comes from a stored config is
  deserialized without that check. `apply` panics exactly on tables of fewer than two points
  (`Calibrations.ShortTablesPanic`), and `then` exactly if one of the tables is that short or the first one's smallest
  and largest inputs cannot be told apart (`StoredChaining.ThenPanicsIff`; `Chaining.ThenFails` gives such a table).
- An update is documented to boot the slot it has written. Which slot `activate_next_partition` selects is not
  decided by the write: if it is the one after the selected one, the two are the same with two slots exactly
  while the running slot is the selected one, and with three they can differ (`Ota.RotationMeets`). On the flashed
  layout a retry after an attempt that selected its slot but could not mark it selects the running slot
  (`Ota.RetrySelectsRunning`).

## Model

| member | source | states |
|---|---|---|
| Calibrations.NewCalibration | crates/core/src/calibration.rs:22-40 | sorting in place and rejecting close neighbours is the function `New` |
| Calibrations.NewAccepts | crates/core/src/calibration.rs:20-40 | a table is built if and only if there are two or more points with pairwise distinguishable inputs; it then holds exactly those points in increasing order |
| Calibrations.NewNeedsGaps | crates/core/src/calibration.rs:20-40 | with a positive tolerance that is: any two inputs are at least that far apart |
| Calibrations.ApplyRaw | crates/core/src/calibration.rs:41-56 | for any table, sorted or not, the scan computes `ApplyTable`, including the index that is out of range and the division by zero between points with equal inputs |
| Calibrations.ValidReads | crates/core/src/calibration.rs:41-56 | for a table that `new` accepts that is the value `Apply` |
| Calibrations.ShortTablesPanic | crates/core/src/calibration.rs:41-56 | evaluation reads out of range if and only if the table has fewer than two points, and at which index |
| Calibrations.InterpIsLine | crates/core/src/calibration.rs:89-97 | interpolation between two points is the line through them |
| Calibrations.ApplyOn | crates/core/src/calibration.rs:41-56 | the value is that of the line of any segment the input lies on, the outer segments reaching to infinity; at a shared breakpoint both agree |
| Calibrations.Locate | crates/core/src/calibration.rs:41-56 | every input lies on some segment |
| Chaining.InvertSelf | crates/core/src/calibration.rs:99-114 | the search for a raw value is `Invert`: the first segment whose outputs reach the target |
| Chaining.SolveOnSegment | crates/core/src/calibration.rs:99-114 | the raw value found lies on that segment and maps to the target |
| Chaining.InvertInRange | crates/core/src/calibration.rs:64-75 | the output-range test never rejects a target that some segment reaches |
| StoredChaining.Chain | crates/core/src/calibration.rs:58-86 | for any two tables, collecting, sorting, deduplicating and evaluating the chained breakpoints is the function `ThenStored`, panics included |
| StoredChaining.StoredIsThen | crates/core/src/calibration.rs:58-86 | on increasing tables that is `Then` |
| StoredChaining.ThenPanicsIff | crates/core/src/calibration.rs:58-86 | for all tables, unsorted, repeated or short: it panics if and only if one has fewer than two points or the first one's smallest and largest inputs cannot be told apart |
| StoredChaining.ThenBuilds | crates/core/src/calibration.rs:58-86 | otherwise, if no neighbours share an input, the result is an increasing table of the chained breakpoints with the composed values |
| Chaining.DedupIncreasing | crates/core/src/calibration.rs:76-79 | after the dedup the breakpoints increase and no two neighbours are close |
| Chaining.DedupCovers | crates/core/src/calibration.rs:76-79 | every collected breakpoint is close to one that was kept |
| Chaining.ThenSucceedsIff | crates/core/src/calibration.rs:58-86 | on increasing tables the `expect` is met if and only if the first table's outer breakpoints can be told apart; the result has the chained breakpoints |
| Chaining.ThenFails | crates/core/src/calibration.rs:80-86 | for every positive tolerance an increasing table for which the `expect` fails |
| Chaining.ThenSucceeds | crates/core/src/calibration.rs:80-86 | it is met for every table that `new` accepts |
| ChainLaw.LawIff | crates/core/src/calibration.rs:57-86 | the chained table equals the composition (everywhere, or between the breakpoints) if and only if every kink of the second table is crossed only inside the first one's range and by the first segment that reaches it |
| ChainLaw.TwoPointLaw | crates/core/src/calibration.rs:57-86 | with a two-point second table the law holds for every real input and any first table |
| ChainLaw.MonotoneLaw | crates/core/src/calibration.rs:57-86 | with a strictly monotone first table the law holds between its first and last breakpoints |
| ChainLaw.LawFailsAtPeak | crates/core/src/calibration.rs:57-86 | the law fails beyond the last breakpoint whenever the first table ends at an inner peak of the second |
| ChainLaw.LawFails | crates/core/src/calibration.rs:57-86 | a concrete pair of tables for which the documented law is false |
| ChainLaw.ToleranceIsExact | crates/core/src/calibration.rs:58-114 | when chained breakpoints and segment end values are equal or a tolerance apart, the tolerance changes nothing |
| WaterValves.WaterValve.WithTiming | crates/core/src/water_valve.rs:96-102 | a fresh valve is idle and closed with this timing |
| WaterValves.WaterValve.SetTiming | crates/core/src/water_valve.rs:104-106 | only the timing changes, mid-sequence too |
| WaterValves.WaterValve.Restore | crates/core/src/water_valve.rs:112-114 | only the user state changes; no motor moves |
| WaterValves.WaterValve.TurnOn | crates/core/src/water_valve.rs:134-145 | starts opening when idle and off or draining, else nothing |
| WaterValves.WaterValve.TurnOff | crates/core/src/water_valve.rs:147-153 | starts closing when idle and on, else nothing |
| WaterValves.WaterValve.Tick | crates/core/src/water_valve.rs:155-209 | phase, user state and the three pins after a tick at any time |
| ValveOrders.OrderIsCarriedOut | crates/core/src/water_valve.rs:134-209 | an order to open a valve that is off, resting or draining, or to close one that is on: one pulse of its own coil, from a second after the order for the motor time, the other coil and, until the end, the drain low; the state changes at the first tick two seconds and the motor time after the order, not before |
| ValveRuns.SettleGap | crates/core/src/water_valve.rs:134-209 | at least SETTLE_MS pass between one coil's pin going low and the other's going high, for any tick times and any retiming, less the staleness of a command's clock reading |
| ValveExamples.StalenessTakesFromSettle | crates/core/src/water_valve.rs:134-209 | for each staleness up to SETTLE_MS a run whose settle time is shorter by exactly that much |
| ValveRuns.SettledAlways | crates/core/src/water_valve.rs:134-209 | over any run a coil is driven only in its own sequence, after the other one was released |
| ValveRuns.OnePulse | crates/core/src/water_valve.rs:155-196 | a completed sequence drives its own coil in one contiguous stretch lasting the motor time give or take one tick gap, never the other coil, and ends open at rest, or closed and draining |
| ValveRuns.DrainThenIdle | crates/core/src/water_valve.rs:198-207 | a drain that no turn-on cancels holds only the drain pin until its time is up, and ends less than a tick gap late |
| ValveRuns.DuringSequence | crates/core/src/water_valve.rs:155-209 | until a sequence completes no command changes the valve and each tick drives what its time demands |
| TimedSwitches.TimedSwitch.TurnOn | crates/core/src/switch.rs:35-45 | turns on and clears the override, or does nothing when already on |
| TimedSwitches.TimedSwitch.TurnOnFor | crates/core/src/switch.rs:47-53 | turns on with an override, or does nothing when already on |
| TimedSwitches.TimedSwitch.TurnOff | crates/core/src/switch.rs:55-62 | off, with start time and override cleared |
| TimedSwitches.TimedSwitch.SetAutoOff | crates/core/src/switch.rs:31-33 | only the configured limit changes |
| TimedSwitches.TimedSwitch.Tick | crates/core/src/switch.rs:65-77 | switches off exactly when the limit in force has passed, and says so |
| TimedSwitches.Stands | crates/core/src/switch.rs:35-77 | until its limit an activation stands whatever commands repeat it and, under an override, whatever the configuration becomes |
| TimedSwitches.OffInTime | crates/core/src/switch.rs:35-77 | a lone switch: an activation with limit d is ended by a tick no earlier than d, and less than a tick gap after d or within one of the tick before the activation |
| TimedSwitches.ZeroOverrideEndsAtOnce | crates/core/src/app.rs:266-283 | a zero override ends at the very next tick |
| Controllers.App.WithNvs | crates/core/src/app.rs:82-141 | the booted state as a function of config and store: restored valve state, last 16 alarms, nothing moving |
| Controllers.App.SwitchCommand | crates/core/src/app.rs:287-326 | each command's effect; Busy and no effect while the valve sequence runs |
| Controllers.App.FireScheduleSprinkler | crates/core/src/app.rs:266-283 | starts the named sprinkler with its override; an unknown name is reported and changes nothing |
| Controllers.App.ReplaceConfig | crates/core/src/app.rs:236-262 | limits, timing and config are replaced, nothing else |
| Controllers.App.ClearFlowAlarm | crates/core/src/app.rs:484-494 | the latch and the counter are cleared, nothing else |
| Controllers.App.RecordAlarmEvent | crates/core/src/app.rs:189-203 | the ring keeps the last 16 events and is written as a whole or not at all |
| Controllers.App.EvaluateFlowAlarm | crates/core/src/app.rs:414-481 | the alarm evaluation: count, latch, record, close |
| Controllers.App.PersistValve | crates/core/src/app.rs:378-389 | the user state is written when it differs from the cached one, and cached only if the write succeeds |
| Controllers.App.Tick | crates/core/src/app.rs:332-396 | one undisturbed tick as a function of state, store and inputs |
| Machines.SoloIsTick | crates/core/src/app.rs:332-481 | undisturbed, the lock-level steps add up to exactly `App::tick` |
| ControllerSafety.LatchedIsNotOpen | crates/core/src/app.rs:332-481 | under every interleaving and any power cuts, whenever a tick returns with the alarm latched the valve is not resting open |
| ControllerSafety.CommandsNeverOpen | crates/core/src/app.rs:287-326 | no command makes a valve rest open that did not before |
| ControllerDeadline.ClosedByDeadline | crates/core/src/app.rs:414-481 | with fixed timing, ticks at most g apart lasting at most d, and no later turn-on, clear, disable or reboot, the valve is closed 2 * (sequence + g) + 2 * d after the latch |
| ControllerLate.ClosesLate | crates/core/src/app.rs:414-481 | a run of that kind in which the valve is not closed after 2 * (sequence + g) + d |
| ControllerSprinklers.OffInTime | crates/core/src/app.rs:332-360 | under every interleaving, with ticks at most g apart lasting at most d: an activation, however old its clock reading, ends by a tick that has reached its limit, and is over a gap and a tick after the limit or after it took effect, whichever is later |
| ControllerSprinklers.OrderActivates | crates/core/src/app.rs:287-326 | turning on an idle sprinkler begins such an activation, as old as the order's clock reading |
| ControllerSprinklers.ScheduleActivates | crates/core/src/app.rs:266-283 | so does a scheduled one, with its own limit |
| ControllerWatering.PinsFollow | crates/core/src/app.rs:332-396 | a tick that begins and returns while a sprinkler is on, or off, all the time returns its pin so, whatever falls between its steps |
| ControllerWatering.OffOrderStops | crates/core/src/app.rs:287-326 | a manual off switches the sprinkler off at once and it stays off until it is turned on again |
| ControllerWatering.LimitInSeconds | crates/core/src/app.rs:243-256 | an order after a change of the limit begins an activation of that many seconds, or one without end for zero |
| ControllerTasks.ReconfigureReplaces | crates/core/src/app.rs:236-262 | the steps of a configuration change replace the limits, in seconds, the timing and the config, and nothing else |
| ControllerTasks.BusyRefuses | crates/core/src/app.rs:287-326 | a water command is refused exactly while the valve is opening or closing, then without effect; a command changes nothing but its own output |
| ControllerTasks.BootsAsStored | crates/core/src/app.rs:82-141 | the stored byte decides the valve's state at boot, any but zero for open, and the limits are those configured, in seconds |
| ControllerTasks.SnapshotShows | crates/core/src/app.rs:360-375 | after an undisturbed tick the snapshot shows the sprinklers as the pins returned and the water control as the valve was left |
| ControllerTasks.FiresAreRecorded | crates/core/src/app.rs:452-475 | every fire of every run is recorded with its time, the flow it saw and the duration in force |
| ControllerTasks.LatchRecords | crates/core/src/app.rs:189-203 | a tick that latches the alarm puts that record behind at most fifteen earlier ones |
| ControllerAlarm.FireIsSustained | crates/core/src/app.rs:414-494 | a fire with duration D > 0 has an earlier evaluation of the same boot at least D seconds before, after which every evaluation found the alarm enabled and saw the flow at or above the threshold then in force and no sprinkler on; ControllerWatering.FireIsDry ties what it saw to the pins |
| ControllerWatering.FireIsDry | crates/core/src/app.rs:366-450 | a fire with a positive duration ends a stretch as long as that in which every tick that evaluated returned both sprinkler pins low and saw the alarm enabled and flow at or above the threshold |
| ControllerWatering.EvaluationsSeePins | crates/core/src/app.rs:360-450 | every evaluation of every run saw the sprinklers as its own tick returns them |
| ControllerWatering.PinsAreReturned | crates/core/src/app.rs:360-396 | pins once settled are what the tick returns, whatever falls between its steps |
| ControllerWatering.SnapshotIsTrue | crates/core/src/app.rs:360-437 | and the flow as it was reported last |
| ControllerWatering.WateringResets | crates/core/src/app.rs:436-450 | in any run, an evaluation in a tick with a sprinkler pin high, or with too little flow, leaves the counter at zero and fires only for a zero duration; any other adds the seconds since the last check |
| ControllerWatering.LatchesWhen | crates/core/src/app.rs:332-481 | one undisturbed tick latches the alarm if and only if it is enabled and has no duration, or both returned sprinkler pins are low, the flow is enough and the seconds add up |
| ControllerAlarm.CountIsSustained | crates/core/src/app.rs:418-446 | the counter never exceeds the whole seconds since the last evaluation that did not count |
| ControllerAlarm.CountIsWhole | crates/core/src/app.rs:418-446 | short of saturation the time since the last evaluation that did not count is the counter's seconds and the milliseconds lost to rounding since |
| ControllerAlarm.LostBounds | crates/core/src/app.rs:418-426 | those are at most 999 for each evaluation, and none if and only if every gap is of whole seconds |
| ControllerAlarm.SubSecondTicksNeverFire | crates/core/src/app.rs:418-426 | with evaluations less than a second apart no alarm with a positive duration ever fires |
| ControllerAlarm.AgreesAlways | crates/core/src/app.rs:414-494 | under every interleaving the counter, the latch and the last check are what the sequence of evaluations, clears and reboots implies, each fire being recorded exactly where the count it leaves reaches the duration |
| ControllerAlarm.LatchDropsOnly | crates/core/src/app.rs:428-494 | a latched alarm drops only through a clear, a disabled evaluation or a reboot |
| ControllerFires.FiresExactly | crates/core/src/app.rs:414-494 | over every run: an evaluation fires if and only if the alarm is enabled, it saw no latch and the count up to it reaches the duration; what it saw is the latch unless a clear came since; and the latch afterwards |
| ControllerFires.FiresWhen | crates/core/src/app.rs:414-481 | over every run, short of saturation: an enabled evaluation fires if and only if it saw no latch and comes the duration and the lost milliseconds after the last one that did not count |
| ControllerFires.FiresByCount | crates/firmware-nostd/src/main.rs:448-463 | with gaps of a second or more it fires no later than the evaluation that makes as many as the duration has seconds |
| ControllerFires.ZeroDurationFires | crates/core/src/app.rs:414-481 | a zero duration fires at every enabled evaluation of any run that saw no latch, whatever the flow |
| ControllerExamples.FiresAfterAMinute | crates/core/src/app.rs:332-481 | a run with a 60 s limit that latches at the tick a minute after the first |
| ControllerPersistence.CacheFaithfulAlways | crates/core/src/app.rs:378-389 | over any run the cached value decodes what NVS holds, which is the last successful write |
| ControllerPersistence.RebootRestoresLastWrite | crates/core/src/app.rs:82-136 | a rebuilt App has the valve state of the last successful write |
| ControllerTasks.NoRedundantWrite | crates/core/src/app.rs:378-389 | in any run the state is written only when that changes what storage says |
| ControllerTasks.WritesOneByte | crates/core/src/app.rs:378-389 | a write leaves one byte, 1 for open and 0 for closed |
| ControllerPersistence.QuietUntilCommanded | crates/core/src/app.rs:82-136 | from any boot until the first water command no tick drives a coil or the drain |
| ControllerPersistence.HistoryIsLastFires | crates/core/src/app.rs:189-203 | over every run, cuts and failed writes anywhere: the stored history is the last 16 of the saved fires of all boots, the RAM ring the last 16 of the kept ones; every fire is kept if and only if no cut comes on an unsaved one |
| ControllerPersistence.AllKeptIff | crates/core/src/app.rs:414-481 | every fire is among the kept ones if and only if power is never cut between a fire and its write |
| ControllerExamples.CutLosesFire | crates/core/src/app.rs:414-481 | a run in which a cut loses the record of a fire |
| ControllerRecovery.SequenceAgrees | crates/core/src/water_valve.rs:155-209 | a sequence that completes leaves the user state in the direction the coil was driven last |
| ControllerRecovery.CoilIsKnown | crates/core/src/app.rs:332-396 | over every run, cuts anywhere and writes failing or not: where the coil was driven last and what storage says, from the valve's state, whether its sequence has begun to drive, whether storage is behind and whether a cut left the coil adrift |
| ControllerRecovery.RestoredAgrees | crates/core/src/app.rs:29-136 | exactly when the state restored after a cut at any step is the direction the coil was driven last |
| ControllerRecovery.FirstCutStrandsIff | crates/core/src/app.rs:29-136 | with writes that succeed, before any other cut: it is wrong if and only if the cut falls between the first tick that drives a sequence's coil and the write of its completion; between ticks, if and only if a sequence has begun to drive and not completed |
| ControllerRecovery.NothingDriven | crates/core/src/app.rs:287-481 | believed to rest in a state, the valve is not driven by any run without an order to leave it, further cuts and the alarm's orders to close an off valve included |
| ControllerRecovery.CutStrands | crates/core/src/app.rs:29-136 | after a run and a cut whose restored state is wrong, opening or closing, the valve stays where the coil left it and the opposite is reported through any such run |
| ControllerExamples.CutStrandsOpening | crates/core/src/app.rs:332-396 | a run in which a cut after the opening pulse leaves the coil driven open and the valve reported off |
| FlashKvs.Pad4IsMask | crates/firmware-nostd/src/nvs.rs:36-38 | the recursive rounding is the source's rounding to a multiple of four |
| FlashKvs.LookupPut | crates/firmware-nostd/src/nvs.rs:142-146 | a put key reads back its value and every other key is unchanged |
| FlashKvs.LookupDelete | crates/firmware-nostd/src/nvs.rs:148-152 | a removed key is gone and every other key is unchanged |
| FlashKvs.PutOrdered | crates/firmware-nostd/src/nvs.rs:142-146 | putting keeps the keys strictly ordered, so each occurs once |
| FlashKvs.RoundTrip | crates/firmware-nostd/src/nvs.rs:68-134 | every map with text keys, encoded and followed by anything, decodes to exactly that map |
| FlashKvFormats.TextIffEncoded | crates/firmware-nostd/src/nvs.rs:90-94 | a key is accepted as text if and only if it encodes a sequence of Unicode scalar values |
| FlashKvFormats.ImageOfTwo | crates/firmware-nostd/src/nvs.rs:108-124 | the image of a map with two entries, byte for byte |
| FlashKvFormats.PutInOrder | crates/firmware-nostd/src/nvs.rs:142-146 | entries stand in the order of their keys, whichever was put first |
| FlashKvFormats.OtherHeadersAreEmpty | crates/firmware-nostd/src/nvs.rs:68-77 | a region without the magic and version 1 boots as an empty store |
| FlashKvStores.Load | crates/firmware-nostd/src/nvs.rs:68-106 | a region of any content decodes in bounds, to `Decode` |
| FlashKvStores.LoadAll | crates/firmware-nostd/src/nvs.rs:78-105 | the cursor loop reads entry after entry, stops at the first unreadable one, and puts them in order |
| FlashKvStores.DecodesLegal | crates/firmware-nostd/src/nvs.rs:68-106 | whatever a region holds, what is loaded is an ordered map with text keys |
| FlashKvStores.BuildImage | crates/firmware-nostd/src/nvs.rs:108-124 | growing the buffer with in-place padding gives the encoding |
| FlashKvStores.FlashKv.constructor | crates/firmware-nostd/src/nvs.rs:47-60 | boots with what the region holds, or empty |
| FlashKvStores.FlashKv.Get | crates/firmware-nostd/src/nvs.rs:138-140 | reads come from the cache |
| FlashKvStores.FlashKv.Set | crates/firmware-nostd/src/nvs.rs:142-146 | the cache takes the value even when the flash cannot; Full leaves the flash untouched; nothing outside the region changes |
| FlashKvStores.FlashKv.Remove | crates/firmware-nostd/src/nvs.rs:148-152 | the same for removal |
| FlashKvStores.FlashKv.Flush | crates/firmware-nostd/src/nvs.rs:108-134 | Full exactly when the image does not fit; on success the region is the image followed by erased bytes |
| FlashKvStores.RebootAfterOk | crates/firmware-nostd/src/nvs.rs:47-134 | after a change that reported success a reboot finds exactly the cache |
| FlashKvTorn.RebootFindsTorn | crates/firmware-nostd/src/nvs.rs:68-134 | for every map and every number of bytes written before power failed, the map a reboot finds |
| FlashKvTorn.TornExact | crates/firmware-nostd/src/nvs.rs:68-134 | that is: an empty store if the last key was not written in full, else the whole map but for the unwritten end of the last value, which reads as 0xFF bytes |
| FlashKvRuns.RebootFindsLastLeft | crates/firmware-nostd/src/nvs.rs:45-152 | after any run of changes and reboots, erases failing and writes stopping anywhere, a reboot finds exactly what the last change that erased the region left |
| FlashKvRuns.RebootFindsLastSaved | crates/firmware-nostd/src/nvs.rs:45-152 | if no write stopped half way, that is the map of the last change that reported success |
| FlashKvRuns.StaysSound | crates/firmware-nostd/src/nvs.rs:45-152 | throughout the cache is an ordered map with text keys |
| FlashKvRuns.RewriteIsStep | crates/firmware-nostd/src/nvs.rs:108-152 | the object's changes are the steps of these runs |
| Schedules.EvaluateRange | crates/core/src/schedule.rs:95-116 | the capped loop reports, minute by minute, the rules due in the window (last, now] |
| Schedules.EvaluateMinute | crates/core/src/schedule.rs:120-123 | reports exactly the rules due in the minute of `now` |
| Schedules.WindowExact | crates/core/src/schedule.rs:57-116 | a window holds every matching (minute, rule) once, in minute order and then list order, and nothing else |
| Schedules.WindowsJoin | crates/core/src/schedule.rs:95-116 | adjacent windows concatenate |
| Schedules.SplitCall | crates/core/src/schedule.rs:95-116 | a call spanning at most 1500 minutes can be split at any instant |
| Schedules.LongJump | crates/core/src/schedule.rs:107-114 | a longer jump reports exactly its first 1500 minutes |
| Schedules.ScheduleTask | crates/firmware-nostd/src/schedule.rs:34-58 | the driver loop fires each wake-up's window, whichever way the clock went |
| Schedules.FiresOncePerSweep | crates/firmware-nostd/src/schedule.rs:34-58 | for any clock at all, a rule fires for a minute exactly as often as windows sweep over it |
| Schedules.RunIsOneWindow | crates/firmware-nostd/src/schedule.rs:34-58 | on a clock that never steps back nor by more than 1500 minutes the whole run is one window, each minute judged by the rules configured when it was first reached |
| Schedules.ExactlyOnce | crates/firmware-nostd/src/schedule.rs:34-58 | with unchanging rules every matching (minute, rule) after the start minute up to the last fires exactly once, in minute order |
| Schedules.OneDayOfHits | crates/core/src/schedule.rs:57-116 | any window of 1440 minutes reports an enabled rule without day filter once for each of its hours and minutes |
| Calendars.DueOnCalendar | crates/core/src/schedule.rs:57-78 | a rule is due at a minute if and only if it is enabled and lists its hour, its minute and, unless it lists no day, its weekday, counted from a Thursday |
| Calendars.OneWeekday | crates/core/src/schedule.rs:57-78 | a rule for one weekday is due on that day only |
| Calendars.FiresListedOnly | crates/firmware-nostd/src/schedule.rs:34-58 | whatever the clock does and however the rules change, no disabled rule fires, and none at a minute it does not list |
| Calendars.OneWeekOfFirings | crates/firmware-nostd/src/schedule.rs:34-58 | a run of exactly seven days, wherever it starts and however the wake-ups divide it, fires an enabled rule once for each of its days, hours and minutes and a disabled one never |
| Templates.RenderTemplate | crates/core/src/webhook.rs:245-252 | the loop replaces one placeholder after the other |
| Templates.OnePass | crates/core/src/webhook.rs:245-252 | one pass rewrites exactly the placeholders with that key |
| Templates.RendersAtOnce | crates/core/src/webhook.rs:241-252 | the passes are one simultaneous substitution when names and keys are brace-free, values brace-free and non-empty, and literal text has no double brace |
| Templates.OrderIrrelevant | crates/core/src/webhook.rs:245-252 | the order of the keys does not matter |
| Templates.UnknownSurvives | crates/core/src/webhook.rs:241-244 | an unknown placeholder comes out as it went in |
| Templates.ReadsOneWay | crates/core/src/webhook.rs:245-252 | a template text has only one reading as literals and placeholders |
| Templates.BracedValueOrder | crates/core/src/webhook.rs:245-252 | a value that is a placeholder makes the result depend on the order |
| Templates.EmptyValueOrder | crates/core/src/webhook.rs:245-252 | so does an empty value |
| Templates.RendersFlow | crates/core/src/webhook.rs:241-252 | a concrete template and its rendering |
| Dns.BuildDnsReply | crates/firmware-nostd/src/ap.rs:150-196 | on any datagram the label walk ends in bounds; the output is untouched without an answer, else starts with exactly the reply |
| Dns.BuildAResponse | crates/firmware/src/captive_dns.rs:59-109 | the same for the other responder |
| Dns.CaptiveAnswers | crates/firmware/src/captive_dns.rs:59-109 | an encoded address query is answered with its id, its question unchanged and the address |
| Dns.ApAnswers | crates/firmware-nostd/src/ap.rs:150-196 | so it is here; other types get an empty answer |
| Dns.RespondersAgree | crates/firmware-nostd/src/ap.rs:150-196 | on every address query with QR = 0 and labels of 1 to 63 bytes that fits, the two replies are byte-identical |
| Dns.CaptiveAnswersExactly | crates/firmware/src/captive_dns.rs:59-109 | it answers a datagram if and only if it is the encoding of a single-question address query |
| Dns.WhereTheyDiffer | crates/firmware-nostd/src/ap.rs:150-196 | on any datagram, if both answer the bytes agree, and when only one does the reason is among those listed |
| DnsClients.ClientResolves | crates/firmware/src/captive_dns.rs:59-109 | for every address query, a resolver reads from the reply its own id and question and, for the name it asked, the configured address for sixty seconds |
| DnsClients.ApClientResolves | crates/firmware-nostd/src/ap.rs:150-196 | from the other responder it reads 192.168.4.1 |
| DnsClients.ApAnswersQueries | crates/firmware-nostd/src/ap.rs:150-163 | it answers queries with one question only, never a reply |
| DnsClients.ApClientReadsNone | crates/firmware-nostd/src/ap.rs:150-196 | for another type it reads its question and that there is no answer |
| Dhcp.PutOpt | crates/firmware-nostd/src/ap.rs:44-49 | writes one option behind what is there, the length as one byte |
| Dhcp.DhcpMsgType | crates/firmware-nostd/src/ap.rs:52-74 | terminates in bounds on any packet |
| Dhcp.ReadsFirstType | crates/firmware-nostd/src/ap.rs:52-74 | for any options laid out after the cookie and closed by 255, the type is the first byte of the first non-empty option 53 |
| Dhcp.LongDataMisread | crates/firmware-nostd/src/ap.rs:44-74 | with 256 bytes of data the length wraps and the data is read as options |
| Dhcp.BuildDhcpReply | crates/firmware-nostd/src/ap.rs:78-98 | all 300 bytes: echoed fields, cookie, six options, end, zeros |
| Dhcp.ReplyReadsBack | crates/firmware-nostd/src/ap.rs:52-98 | reading the reply gives the message type it was built with |
| Dhcp.Serve | crates/firmware-nostd/src/ap.rs:116-130 | only requests are answered, and never a reply; by its offsets and options a client reads its own id, flags and hardware address, the offer of 192.168.4.2 by 192.168.4.1 for 7200 seconds, and a router in its own subnet that is not itself |
| Dhcp.ClientReads | crates/firmware-nostd/src/ap.rs:78-98 | that, for the reply to any request |
| Dhcp.AnswersByType | crates/firmware-nostd/src/ap.rs:116-130 | a DISCOVER is answered by an OFFER, a REQUEST by an ACK, and nothing else |
| Dhcp.IgnoresOthers | crates/firmware-nostd/src/ap.rs:52-130 | a datagram that is too short, no request, or without the cookie is not answered |
| JsonTrees.MergeInto | crates/firmware-nostd/src/webapi.rs:323-340 | the recursive loop over the overlay, in any order, is `Merge` |
| JsonTrees.MergeIdempotent | crates/firmware-nostd/src/webapi.rs:320-340 | merging the same overlay twice is merging it once |
| JsonTrees.MergeSelf | crates/firmware-nostd/src/webapi.rs:320-340 | merging a value into itself changes nothing |
| JsonTrees.MergeLeaves | crates/firmware-nostd/src/webapi.rs:320-340 | a key the overlay does not set, or sets to a blank string, keeps its value |
| JsonTrees.MergeTakesLeaves | crates/firmware-nostd/src/webapi.rs:320-340 | every leaf of the overlay that is no blank string, at any depth, is in the result |
| Configs.RedactSecretsForApi | crates/core/src/config.rs:348-360 | the loop blanks every network password and the five scalar secrets and the token |
| Configs.RedactionHidesExactlySecrets | crates/core/src/config.rs:344-360 | two configs look the same redacted if and only if they differ at most in those secrets |
| Configs.RestoreSecretsFrom | crates/core/src/config.rs:384-411 | blank secrets are filled, network passwords from the first stored network with the SSID |
| ConfigSecrets.RestoringAdopts | crates/core/src/config.rs:384-411 | field by field: a secret sent is adopted, a blank one leaves what was stored, a blank network password is that of the first stored network with the SSID or stays blank, and everything else is as sent |
| ConfigSecrets.TakenAsSent | crates/core/src/config.rs:384-411 | a config without a blank secret is taken exactly as sent |
| Configs.RestoreRedacted | crates/core/src/config.rs:348-411 | restoring a redacted config against its original gives the original if and only if networks sharing an SSID share the first one's password |
| Configs.SharedSsidLoses | crates/core/src/config.rs:384-393 | two stored networks with one SSID: the second password is lost |
| Configs.RestoreIdempotent | crates/core/src/config.rs:384-411 | restoring twice is restoring once |
| ConfigApis.SectionReadsBack | crates/firmware-nostd/src/webapi.rs:306-309 | every section written as JSON reads back |
| ConfigApis.ConfigApi.GetSection | crates/firmware-nostd/src/webapi.rs:274-282 | the named section of the redacted config, or unknown |
| ConfigApis.ConfigApi.PutSection | crates/firmware-nostd/src/webapi.rs:290-318 | the five outcomes; live and stored config change only on success, and then adopt the secrets sent |
| ConfigApis.ConfigApi.PutConfig | crates/firmware-nostd/src/webapi.rs:176-197 | the same for the whole config; without a blank secret it is saved exactly as sent |
| ConfigUpdates.MqttUpdate | crates/firmware-nostd/src/webapi.rs:290-340 | after an update of the section each of its fields, secrets included, is as sent, or as stored if it was not sent or blank |
| ConfigUpdates.HttpsUpdate | crates/firmware-nostd/src/webapi.rs:290-340 | the same |
| ConfigUpdates.WireguardUpdate | crates/firmware-nostd/src/webapi.rs:290-340 | the same |
| ConfigUpdates.WifiUpdate | crates/firmware-nostd/src/webapi.rs:290-340 | the same, the list of networks being replaced as a whole, each password sent adopted and each blank one looked up |
| ConfigUpdates.TokenUpdate | crates/firmware-nostd/src/webapi.rs:290-340 | a token sent is adopted, a blank one keeps the stored one |
| ConfigApis.NamedSections | crates/firmware-nostd/src/webapi.rs:274-282 | the sections by the names they are asked for |
| ConfigApis.SectionsShown | crates/firmware-nostd/src/webapi.rs:274-282 | sections without secrets are shown as they are, the token is blank |
| ConfigUpdates.ObjectsOnly | crates/firmware-nostd/src/webapi.rs:290-318 | a section that is an object takes nothing else |
| ConfigApis.PutBack | crates/firmware-nostd/src/webapi.rs:274-340 | putting any section back exactly as read leaves the whole config unchanged if and only if the first network with an SSID decides for the others |
| ConfigApis.PutBackDistinct | crates/firmware-nostd/src/webapi.rs:274-340 | with distinct SSIDs this holds for every section |
| ConfigApis.OtherSectionsKept | crates/firmware-nostd/src/webapi.rs:290-318 | whatever the body, an update of one section leaves another one as it was, the networks if and only if none has a blank password and the SSID of an earlier one with a password |
| ConfigApis.OtherPutFillsPassword | crates/firmware-nostd/src/webapi.rs:290-318 | two stored networks of one name: updating any other section gives the open one the password of the first |
| Ota.InactiveSlot | crates/firmware-nostd/src/ota.rs:52-68 | the first application partition that is neither the booted one nor the factory image, or none if there is none |
| Ota.SlotIsApart | crates/firmware-nostd/src/ota.rs:52-68 | in a table of disjoint partitions it does not overlap the booted one |
| Ota.RotationMeets | crates/firmware-nostd/src/ota.rs:52-79 | when moving on to the following slot selects the slot that is written: with two slots exactly if the running one is selected; with more and the running one selected, only if that is the first or the last |
| Ota.LayoutIsInOrder | crates/firmware/partitions.csv:7-11 | the flashed layout has two slots, in order |
| Ota.RetrySelectsRunning | crates/firmware-nostd/src/ota.rs:72-79 | on it, with slot 0 running and slot 1 selected, slot 1 is written and slot 0 selected |
| Ota.FillSector | crates/firmware-nostd/src/ota.rs:162-175 | however the reader chunks its bytes the buffer holds the next bytes of the body |
| Ota.StreamInto | crates/firmware-nostd/src/ota.rs:157-190 | success means the slot starts with the body; nothing outside the slot changes |
| Ota.WriteImage | crates/firmware-nostd/src/ota.rs:138-200 | success only with the whole body in the inactive slot and the boot data moved on; the booted slot is never touched; the selection never moves on a partial image; and without faults a long enough body succeeds |
| Pulses.EspPulseCounter.Count | crates/firmware/src/hw_pcnt.rs:77-93 | one read's effect, a failed read counting as raw 0 |
| Pulses.ExactTotal | crates/firmware/src/hw_pcnt.rs:77-93 | the total after any run of reads for any counter modulus up to 32768: true count plus the listed excesses |
| Pulses.NoExcessIff | crates/firmware/src/hw_pcnt.rs:77-93 | there is no excess if and only if each good read was harmless: it shows a wrap only at 32768, and where reads failed since the good one before, the counter wrapped or the raw value before them was zero |
| Pulses.TotalIsTrue | crates/firmware/src/hw_pcnt.rs:77-93 | the total at a good read is the true count if and only if every good read was harmless |
| Pulses.NoFailuresNoExcess | crates/firmware/src/hw_pcnt.rs:77-93 | for modulus 32768 and reads that succeed there is none |
| Pulses.FailedReadOvercounts | crates/firmware/src/hw_pcnt.rs:79-79 | one failed read at a standstill adds 32768 |
| Pulses.AccumulatorExact | crates/firmware-nostd/src/sensors.rs:92-98 | the total never exceeds the true count and equals it if and only if fewer than 32768 pulses fall between any two reads |
| Pulses.SensorTask | crates/firmware-nostd/src/sensors.rs:77-134 | the loop accumulates that total; the per-minute deltas are those of the full minutes and sum to the total at the last flow update |
| Pulses.BatteryAverage.Push | crates/firmware-nostd/src/sensors.rs:82-111 | the circular window's average is that of the latest fifteen samples, or of all while there are fewer |
| WifiRoundRobin.ReadBootMode | crates/firmware-nostd/src/main.rs:153-158 | access-point mode exactly for a stored value that starts with 1 |
| WifiRoundRobin.WriteBootMode | crates/firmware-nostd/src/main.rs:164-175 | written only when it changes, and read back |
| WifiRoundRobin.ConnectionTask | crates/firmware-nostd/src/main.rs:615-722 | the networks tried, the reboot request and the boot mode over any pattern of outcomes |
| WifiRoundRobin.TriesInTurn | crates/firmware-nostd/src/main.rs:622-722 | after a success the same network is tried again, after a failure of either kind the next one |
| WifiRoundRobin.ModeByHistory | crates/firmware-nostd/src/main.rs:622-722 | the boot mode is access point for good after a fallback, else station mode once connected |
| WifiRoundRobin.FallbackAfterThreeEach | crates/firmware-nostd/src/main.rs:622-722 | fallback if and only if every network has failed exactly three times since boot or the last success |

## Left out

- Floating-point rounding: calibration, flow and the battery average use reals; the tolerance `f32::EPSILON` is a parameter.
- Calibrations.NewCalibration: takes points with real coordinates, so NaN and infinite inputs are not modelled.
- StoredChaining.ThenBuilds: requires that no neighbours share an input; where they do, a value can be no number, and the outcome then says no more than that.
- Chaining.ThenSucceedsIff, Chaining.ThenSucceeds: about increasing tables; StoredChaining.ThenPanicsIff covers all others.
- ValveRuns.SettleGap: a command may carry a clock reading taken before the latest tick, as the mutex is taken after the clock is read; the bound is reduced by that staleness, and ValveExamples.StalenessTakesFromSettle shows that it has to be.
- ControllerDeadline.ClosedByDeadline: adds twice the time a tick takes from its clock reading to its end, because the closing command reads the clock again; with instantaneous ticks the bound is 2 * (sequence + g). ControllerLate.ClosesLate exceeds that.
- TimedSwitches.OffInTime: a lone switch; ControllerSprinklers.OffInTime is about the whole controller.
- ControllerRecovery.SequenceAgrees: assumes, as all of ControllerRecovery does, tick gaps no longer than the motor time, as a longer one can skip the pulse (ControllerRecovery.LongGapSkipsPulse), and a timing that changes between sequences only.
- ControllerFires.FiresWhen: short of saturation, that is less than 2^32 seconds after the last evaluation that did not count.
- Clock: `monotonic_ms` is a nondecreasing integer per boot; the wall clock only stamps events.
- Sensors, GPIO and flash drivers, PCNT, ADC, TLS, the network stack and the radio are outside inputs.
- Webhook delivery, event variables, log text, telnet, MQTT, Home Assistant discovery and the single-page app.
- JSON text and serde: values are trees; sections without secrets are trees whose reader is a parameter that reads back what it wrote; a JSON array given for a struct, which serde accepts by position, is read as an error.
- ConfigApis.ConfigApi.PutSection: reads only the updated section from the merged tree; the others read back what they were written from.
- Time zones and daylight saving: local time is an integer. Schedules.RunIsOneWindow excludes clocks that step back; Schedules.FiresOncePerSweep covers them.
- Leap seconds, which the calendar library can represent, are not.
- FlashKvStores.Load: offsets are unbounded integers; on the 32-bit target a length near 2^32 could wrap before it is compared.
- FlashKvStores.FlashKv.Flush: a failed erase leaves the region as it was and a write stops after some bytes, which stand from the start; the map is kept as an ordered list of byte strings, as a `BTreeMap` iterates.
- Dhcp.BuildDhcpReply: requires 44 bytes of request, which its only caller guarantees.
- Dhcp.ReadsFirstType: requires data of at most 255 bytes, as its length byte can count; Dhcp.LongDataMisread shows why.
- Ota.WriteImage: a flash write succeeds or leaves anything in the sectors it touches; where the boot data moves on to belongs to its library and is a parameter, Ota.RotationMeets taking it to be the following slot; the rollback of an unconfirmed image belongs to the bootloader.
- Pulses.ExactTotal: which modulus the counter hardware has is not in the repository, so it is a parameter.
- WifiRoundRobin.ConnectionTask: the network list is fixed during a run, and the wait while connected, with its scan requests, is one step.
- The SNTP exchange, access-point scanning and the QEMU placeholders.
