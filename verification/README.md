# Verification of the nabu-charger drivers

A Dafny model of the state machines inside the charging drivers, and proofs of what every run
of them keeps. `dafny verify dfyconfig.toml` checks the whole project.

The model is written the way the code is. What the code computes is a function; what it updates
in place is a class with the same fields, whose methods follow the code branch by branch and
are proved against a specification; and what the code promises is proved about those
specifications, over every run, every input and every pattern of failures.

| Files | Component |
|---|---|
| `BatteryPolicy`, `BatteryMiniport` | the published power state: hysteresis holds, SOC direction witness, AC / charging / discharging flags, percentage, notifications |
| `HvdcpBand`, `Hvdcp` | QC3 pulses, the pulse counter, the FORCE_9V latch, bus corrections, the negotiation |
| `FccPolicy`, `WindowCorrection`, `ClosedLoop`, `ReElevation`, `GaugeGate` | the policies of the telemetry tick, and the correction policy closed over the bus it corrects |
| `Icl`, `SmbPolicy`, `SmbBus`, `Journal`, `Charger`, `Runner` | the SMB charger session, from the current grid to the loop that drives it |
| `Hex`, `Lines`, `Mock`, `Wire` | the text protocol between the client and the simulator, and the scripted device behind it |
| `Widths`, `Outcomes` | machine integers and shared result types |

Conventions. Times are milliseconds handed to the operation that reads the clock; a run's times
are required to be monotonic only where a property needs it. Rust's saturating arithmetic is
written out (`SatAdd32` and its like) wherever a result depends on it. A bus, a link or a chip is
a class whose accesses fail, or answer anything, by nondeterministic choice; ghost fields record
what was sent. A `View` is the value of a component's fields, and a run is a fold of steps over it.

Where a promise turned out not to hold on all inputs, the code is kept as it is and the exact
condition is proved:

- Corrections settle in the transfer band for every bus voltage if and only if the cell is
  between 2.9 V and 4.7 V; outside, the absolute floor and ceiling of the target override the
  band (`SettlesExactly`). The telemetry tick corrects only a bus of 6.0 V or more, so a
  correction that lands below is the last: some elevated bus is lost out of the band if and only
  if the cell is neither within 2.95 V and 4.7 V nor exactly 2.8 V (`LostExactly`,
  `LostForGood`).
- A retry loop ends on a dead link if and only if the retry limit is at most 254, because the
  attempt number saturates at 255 (`RetriesEndExactly`); the step fuse of the runner blows if and
  only if it is below the largest 32-bit value (`FuseBlowsExactly`).
- A charge-current register that is not raised rests at the factory value, under honest writes,
  if and only if the one-shot probe was not stranded (`RestsExactly`). Under any faults it is
  above the factory value if and only if the last write to reach it was a raise that could not
  be read back (`OverdrivenExactly`); such a raise is returned only if the pump comes alive and
  it is raised again (`UnreadRaiseIsNeverReturned`).
- Windows is left with stale flags when they change while the battery class is detached: the
  comment at crates/ln8000-kmdf/src/battery.rs:561-565 describes a repeated notification, but
  only the percentage is compared. It is in sync again exactly when it queries, or when flags or
  percentage differ from those of the attach at some later call (`SyncExactly`,
  `LateAttachLosesFlags`).
- The scripted device keeps every address in use if and only if there are at most 64 of them;
  further writes are acknowledged and dropped. Its registers read as a map if and only if every
  dropped address was last written with zero (`RegistersAreAMapExactly`).
- A delayed detection becomes ready in the scripted device if and only if the delay is below 255
  reads, because its read counter saturates (`ReadyInTheEndExactly`).
- The injected fault `Disconnect`, documented to fail reads, never fails anything
  (`DisconnectNeverFires`).
- Two polls can fall into one window of the gauge gate, in some interleaving on a clock read in
  order, if and only if one tick is stamped zero and another within the first 30 s
  (`SharedExactly`); after a poll with a non-zero stamp every later one is a window further away
  (`WindowsAreOwnedOnce`).

## Model

| member | source | states |
|---|---|---|
| `BatteryPolicy.NoEvidenceIsInvisible` | crates/ln8000/src/battery_policy.rs:242-249 | inserting or deleting ticks without evidence anywhere in any trace changes nothing |
| `BatteryPolicy.RunArmedEqualsHistory` | crates/ln8000/src/battery_policy.rs:190-231 | over every trace, the run-armed hold is up if and only if some two consecutive true samples were followed only by false ones less than the hold time later |
| `BatteryPolicy.AfterFalseReading` | crates/ln8000/src/battery_policy.rs:190-231 | after a false sample the hold is up if and only if two consecutive true samples ended less than the hold time before it |
| `BatteryPolicy.LoneTrueChangesNothing` | crates/ln8000/src/battery_policy.rs:129-150 | a single true sample after a false one moves neither the flag nor the window |
| `BatteryPolicy.FrontArmedDominates` | crates/ln8000/src/battery_policy.rs:151-231 | on the same trace the front-armed hold is up whenever the run-armed one is, with a stamp no older |
| `BatteryPolicy.TimedEqualsHistory` | crates/ln8000/src/battery_policy.rs:151-231 | a front-armed hold, each sample with its own hold time, is up if and only if some arming sample (a true one after another, or on a cold hold) was followed only by false ones within their hold time |
| `BatteryPolicy.FrontArmedEqualsHistory` | crates/ln8000/src/battery_policy.rs:151-249 | the same on every trace with one hold time and ticks without evidence |
| `BatteryPolicy.FrontArmedNeedsFreshTrue` | crates/ln8000/src/battery_policy.rs:151-231 | in particular, on any clock, one that is up rests on a true sample that no later false one outdates; the exact condition is `FrontArmedEqualsHistory` |
| `BatteryPolicy.RisingEqualsHistory` | crates/ln8000/src/battery_policy.rs:52-98 | the trend is rising if and only if the counter's last strict change was a rise less than 300 s before the last sample |
| `BatteryMiniport.Miniport.UpdateFromTelemetry` | crates/ln8000-kmdf/src/battery.rs:477-576 | the imperative update is one step of the specification the run theorems are about |
| `BatteryMiniport.Miniport.BuildStatus` | crates/ln8000-kmdf/src/battery.rs:662-706 | the mask built bit by bit from the held flags and the percentage; the voltage in millivolts; a known rate, zero, exactly when floating on AC |
| `BatteryMiniport.Miniport.SetGaugeRaw` | crates/ln8000-kmdf/src/battery.rs:592-607 | a gauge sample sets percentage, source and trend, and clears the failure count |
| `BatteryMiniport.VerdictByMeasurements` | crates/ln8000/src/battery_policy.rs:348-505 | what any tick says of the adapter, by its measurements in numbers: 80 mA at 4.2 V says yes whatever the unplug bit; else the bit says no; else a bus of 4.6 V or more reading twice the cell says nothing; below 4.2 V no; else yes if and only if 6.0 V, no cell reading, or 200 mV above the cell; an unusable tick says only what the bit says |
| `BatteryMiniport.AdapterRaisesAc` | crates/ln8000-kmdf/src/battery.rs:477-576 | after any run, one tick that shows an adapter publishes AC and not DISCHARGING |
| `BatteryMiniport.IdlingClearsAc` | crates/ln8000-kmdf/src/battery.rs:477-576 | after any run, ticks idling on the pack publish DISCHARGING and neither AC nor CHARGING once 8 s have passed since the adapter was last proved |
| `BatteryMiniport.AcFlagExactCauses` | crates/ln8000-kmdf/src/battery.rs:499-552 | the AC flag rises on a true verdict and nothing else; it falls if and only if three calls in a row saw the input unplugged, or a false verdict came 8 s or more after the last true one; no-evidence calls leave it alone |
| `BatteryMiniport.AcEqualsHistory` | crates/ln8000-kmdf/src/battery.rs:536-546 | over every run, AC is up if and only if some arming verdict was followed by no denial 8 s or more later and by no confirmed unplug |
| `BatteryMiniport.AcNeedsProof` | crates/ln8000-kmdf/src/battery.rs:499-552 | whenever AC is up some call of the run saw the adapter and no call denied it 8 s or more later |
| `BatteryMiniport.RemovalIsNotMissed` | crates/ln8000-kmdf/src/battery.rs:499-552 | a denial 8 s or more after every sighting leaves AC down |
| `BatteryMiniport.ReportsAreConsistent` | crates/ln8000-kmdf/src/battery.rs:662-691 | in every report ever read: CHARGING only with AC, DISCHARGING exactly without it, CRITICAL exactly on a known percentage of 5 or less |
| `BatteryMiniport.TrendFollowsGauge` | crates/ln8000-kmdf/src/battery.rs:592-616 | the module's trend is that of the run's gauge samples alone |
| `BatteryMiniport.ChargingEqualsHistory` | crates/ln8000-kmdf/src/battery.rs:547-552 | CHARGING is held if and only if two telemetry calls in a row saw charging (AC with current, peak or a recent rise) and no later call denied it 20 s or more after |
| `BatteryMiniport.FlagsEqualHistory` | crates/ln8000-kmdf/src/battery.rs:662-691 | the published mask, bit by bit, is a function of the run's history |
| `BatteryMiniport.FailuresAreCounted` | crates/ln8000-kmdf/src/battery.rs:628-634 | the failure counter is the number of gauge failures since the last sample |
| `BatteryMiniport.PercentEqualsHistory` | crates/ln8000-kmdf/src/battery.rs:487-650 | the percentage is the converted last gauge sample if there was one, else the estimate of the last measured cell with a false verdict, else unknown |
| `BatteryMiniport.SocPercentIsLinear` | crates/ln8000-kmdf/src/battery.rs:640-650 | the voltage estimate is 0 % up to 3.4 V, 100 % from 4.35 V, and one percent more for each 9.5 mV between |
| `BatteryMiniport.GaugePercentRounds` | crates/ln8000-kmdf/src/battery.rs:592-607 | between its end codes the gauge conversion is 1 + 98 (raw - 1) / 253 to the nearest percent |
| `BatteryMiniport.GaugePercentEndsAreReserved` | crates/ln8000-kmdf/src/battery.rs:592-607 | the gauge conversion is monotone and gives 0 % and 100 % to the end codes only |
| `BatteryMiniport.WindowsIsInSync` | crates/ln8000-kmdf/src/battery.rs:557-576 | with the class attached from the start, Windows's last report equals the current state after every telemetry call, however status queries interleave if the gauge is polled at most once a tick, and however often it is polled if there are none |
| `BatteryMiniport.SyncExactly` | crates/ln8000-kmdf/src/battery.rs:557-576 | from any settled state (every attached call leaves one, `EveryAttachedCallSettles`) and over every continuation: in sync at the end if and only if in sync at the start, or a query came, or some call left flags or percentage other than at the start |
| `BatteryMiniport.SyncWithoutQueriesExactly` | crates/ln8000-kmdf/src/battery.rs:557-576 | without queries, from any attached state: in sync after a call if and only if the report was the last built and notified one at the start, or some call since left something else |
| `BatteryMiniport.LateAttachLosesFlags` | crates/ln8000-kmdf/src/battery.rs:557-576 | a settled start out of sync, and a continuation without a refresh: the AC change is never reported, because the class was detached |
| `BatteryMiniport.TwoGaugesInOneTickCanBeMissed` | crates/ln8000-kmdf/src/battery.rs:557-607 | the one-gauge-sample-per-tick assumption of `WindowsIsInSync` is needed |
| `HvdcpBand.TwoCorrectionsSettle` | crates/ln8000-kmdf/src/hvdcp.rs:1577-1740 | for a cell of 2.9 to 4.7 V and a bus at most 4.0 V above or 4.6 V below the target, two corrections put Vin in the band and every later one sends nothing |
| `HvdcpBand.AnyBusSettles` | crates/ln8000-kmdf/src/hvdcp.rs:1577-1740 | from any positive bus voltage the corrections settle within a stated number of calls |
| `HvdcpBand.SettlesExactly` | crates/ln8000-kmdf/src/hvdcp.rs:478-521 | every bus voltage settles if and only if the cell is between 2.9 and 4.7 V |
| `HvdcpBand.BandInNumbers` | crates/ln8000-kmdf/src/hvdcp.rs:478-521 | target, top and floor of a steerable cell are 300, 400 and 200 mV above twice the cell, the target at most 9.6 V |
| `HvdcpBand.AnyBandInNumbers` | crates/ln8000-kmdf/src/hvdcp.rs:478-521 | the same for every known cell, with its clamps |
| `HvdcpBand.DeadCorrectionLands` | crates/ln8000-kmdf/src/hvdcp.rs:1700-1740 | one correction under a dead current: from the target to the top of the band exactly one pulse down (none for the 4.7 V cell at its floor of 9.6 V); above it as with a live current; below the target up to it or less than a step past; it raises the bus only from below the target |
| `HvdcpBand.DeadCurrentSeesaws` | crates/ln8000-kmdf/src/hvdcp.rs:1700-1740 | below 4.7 V, any number of dead corrections keep the bus within a step of the target, one pulse each, down from the target or above and up from below |
| `HvdcpBand.DeadCurrentOnlyLowers` | crates/ln8000-kmdf/src/hvdcp.rs:1700-1740 | every further dead correction from the target or above lowers the bus |
| `HvdcpBand.TrimStopsExactly` | crates/ln8000-kmdf/src/hvdcp.rs:1577-1625 | for any stop and floor: every DEC starts above both, and the trim stops at the first estimate that is not, or at its budget |
| `HvdcpBand.BoostStopsExactly` | crates/ln8000-kmdf/src/hvdcp.rs:1631-1690 | the same for a boost, its stop and its top |
| `HvdcpBand.TrimLands` | crates/ln8000-kmdf/src/hvdcp.rs:1577-1625 | inside its budget a trim crosses the target and overshoots it by less than one step |
| `HvdcpBand.BoostLands` | crates/ln8000-kmdf/src/hvdcp.rs:1631-1690 | inside its budget a boost crosses the target and overshoots it by less than one step |
| `Hvdcp.HvdcpState.constructor` | crates/ln8000-kmdf/src/hvdcp.rs:379-393 | a new state satisfies the invariant |
| `Hvdcp.HvdcpState.SendPulse` | crates/ln8000-kmdf/src/hvdcp.rs:801-866 | a pulse is counted exactly when it was sent; a latched bus is neither touched nor counted |
| `Hvdcp.HvdcpState.Force9v` | crates/ln8000-kmdf/src/hvdcp.rs:868-875 | the latch rises only with an accepted write that carries FORCE_9V, and then counts 20 pulses |
| `Hvdcp.HvdcpState.SafeForce5v` | crates/ln8000-kmdf/src/hvdcp.rs:878-881 | 5 V is commanded and the latch is down, whatever the bus does |
| `Hvdcp.HvdcpState.TrimVinForPump` | crates/ln8000-kmdf/src/hvdcp.rs:1577-1625 | never more DEC pulses than the band arithmetic asks for, on an ideal bus exactly those, one step each |
| `Hvdcp.HvdcpState.BoostVinForPump` | crates/ln8000-kmdf/src/hvdcp.rs:1631-1690 | the same for INC pulses |
| `Hvdcp.HvdcpState.NudgeVinIntoWindow` | crates/ln8000-kmdf/src/hvdcp.rs:1700-1740 | one correction keeps the invariant and sends what the band arithmetic says; a latched bus is not touched |
| `Hvdcp.HvdcpState.EnsureIclAtLeast` | crates/ln8000-kmdf/src/hvdcp.rs:708-724 | on an ideal bus the limit ends at the larger of what it was and the target, overridden and out of suspend, all other configuration unchanged |
| `Hvdcp.HvdcpState.EnsureVoltageGates` | crates/ln8000-kmdf/src/hvdcp.rs:749-766 | on an ideal bus 5 to 12 V are allowed and QC2 goes to 9 V, all other bits kept |
| `Hvdcp.CorrectRepeatedly` | crates/ln8000-kmdf/src/hvdcp.rs:1700-1740 | reading Vin and correcting it, on an ideal bus, reaches the band in the stated number of rounds, and a further round sends nothing |
| `Hvdcp.HvdcpState.WaitForce9vRise` | crates/ln8000-kmdf/src/hvdcp.rs:916-950 | the wait ends at the first two consecutive samples at 8.0 V, or at a sample below that from 1.6 s on, or from 4.0 s on if one of the first 1.6 s had risen to 5.6 V, and at 5.0 s in any case; the peak is the highest sample |
| `Hvdcp.HvdcpState.AttemptQc35Authenticate` | crates/ln8000-kmdf/src/hvdcp.rs:957-1080 | authentication keeps the counter equal to the adapter's real level, whatever fails; a power class is granted for the first SRC_CAP answer in the window if it is a class level, only after the whole of both trains, and refused only after 250 ms without one; from 3.9 to 6.4 V the request is made; the limit is raised to the class's |
| `Hvdcp.HvdcpState.DetectAdapter` | crates/ln8000-kmdf/src/hvdcp.rs:1139-1240 | a Quick Charge signature already latched is not rerun, any other detection is rerun once; a rerun that answers plain DCP does not lose the QC2 or QC3 signature seen before it; the command register is not touched |
| `Hvdcp.HvdcpState.RaiseByPulses` | crates/ln8000-kmdf/src/hvdcp.rs:1280-1318 | the raise keeps the counter equal to the adapter's real level, and from 5 V or more reaches the target and passes it by less than one step |
| `Hvdcp.HvdcpState.NegotiateOnBus` | crates/ln8000-kmdf/src/hvdcp.rs:1090-1471 | for any adapter and any bus failures: the latch and counter invariant; phase Done or Failed; QC3 or a continuous adapter is pulsed, only QC2, a DCP or a Quick Charge status is forced, any other is turned away, by the bits; a failure that started unlatched ends unlatched, and last commanded 5 V if it commanded anything; on an ideal bus the outcome by the answers alone, the configuration it leaves, authentication asked for, and the level reached |
| `Hvdcp.LatchedInBits` | crates/ln8000-kmdf/src/hvdcp.rs:1149-1163 | when detection is not rerun, in bits |
| `Hvdcp.ClassesInNumbers` | crates/ln8000/src/qc35_auth.rs:112-130 | the power classes by the answered level |
| `Hvdcp.TrainsFit` | crates/ln8000-kmdf/src/hvdcp.rs:1024-1080 | the authentication trains never run the counter into either end |
| `FccPolicy.Policy.SnapshotTick` | crates/ln8000-kmdf/src/lib.rs:2854-3108 | one tick of the code is one step of the specification, and sends exactly its writes |
| `FccPolicy.RegisterOwnership` | crates/ln8000-kmdf/src/lib.rs:2854-3108 | over every run and every fate of every write: nothing is written before the capture, the captured value is the factory one for good, a pending return implies raised, every write is at most max(60, factory) |
| `FccPolicy.OneOwnerPerTick` | crates/ln8000-kmdf/src/lib.rs:2924-3108 | a tick writes nothing, the probe pair, one raise or one return, each only in its own state |
| `FccPolicy.PolicyOffWritesOnlyTheProbe` | crates/ln8000-kmdf/src/lib.rs:2924-3108 | with the policy off only the one-shot probe ever writes, at most once |
| `FccPolicy.FirstSnapshotCaptures` | crates/ln8000-kmdf/src/lib.rs:2862-2875 | the first successful snapshot captures the factory value |
| `FccPolicy.ProbeHappensOnce` | crates/ln8000-kmdf/src/lib.rs:2948-3012 | the first successful snapshot of a sound chip out of transfer writes raw 20 and then the factory value if that is higher, and spends the one chance |
| `FccPolicy.ProbeYields` | crates/ln8000-kmdf/src/lib.rs:2963-2970 | it yields for good to a register that is raised or about to be |
| `FccPolicy.NothingIsWasted` | crates/ln8000-kmdf/src/lib.rs:2948-3108 | a critical fault neither writes nor changes anything but the capture; a failed snapshot neither captures nor probes |
| `FccPolicy.CapturedIsRaised` | crates/ln8000-kmdf/src/lib.rs:3070-3088 | captured, in transfer, below 4.35 V and configured, a write that takes raises the register to min(configured, 60) |
| `FccPolicy.RaisedIsReturned` | crates/ln8000-kmdf/src/lib.rs:3089-3106 | over every run: raised, and out of transfer with nothing critical since some tick, a tick 120 s or more later whose write takes returns the register to min(factory, 60) and clears the flag and the deadline |
| `FccPolicy.ReturnIsReadBack` | crates/ln8000-kmdf/src/lib.rs:3093-3105 | whenever the flag clears, the deadline had passed and the register holds the returned value |
| `FccPolicy.RestsExactly` | crates/ln8000-kmdf/src/lib.rs:2924-3108 | with honest writes and a factory value of at most 60, an unraised register rests at the factory value if and only if the probe was not stranded |
| `FccPolicy.ProbeCanStrand` | crates/ln8000-kmdf/src/lib.rs:2976-3014 | a run that leaves an unraised register at the probe's value |
| `FccPolicy.OverdrivenExactly` | crates/ln8000-kmdf/src/lib.rs:2854-3108 | for every factory value and every fate of every write, an unraised register is above the factory value if and only if the last write to reach it was an unread raise to more than that |
| `FccPolicy.UnreadRaiseCanOverdrive` | crates/ln8000-kmdf/src/lib.rs:2505-2543 | a two-tick run that leaves an unraised register at 50 over a factory 30 |
| `FccPolicy.UnreadRaiseIsNeverReturned` | crates/ln8000-kmdf/src/lib.rs:2505-2543 | a raise that landed unread stays, over every continuation with the pump out of transfer |
| `FccPolicy.ReturnWaitsTheGrace` | crates/ln8000-kmdf/src/lib.rs:3089-3106 | a pending return was scheduled 120 s ahead, and the pump has been out of transfer since |
| `WindowCorrection.Corrector.OutOfBand` | crates/ln8000-kmdf/src/lib.rs:3326-3368 | the tick's decision and its three fields are one step of the budget |
| `WindowCorrection.CorrectsExactly` | crates/ln8000-kmdf/src/lib.rs:3326-3368 | when a tick corrects, by the episode's history alone: allowed, and 10 s past the last correction with fewer than four since the last progress, or 60 s past, or in an elevated bypass with none since |
| `WindowCorrection.BudgetIsSpent` | crates/ln8000-kmdf/src/lib.rs:3326-3368 | the potential of best error and stall count never grows and pays for every fast and every urgent correction |
| `WindowCorrection.FastCorrectionsAreBounded` | crates/ln8000-kmdf/src/lib.rs:3315-3413 | in one episode with first error e, at most 4(1 + e/50 000) corrections are below the stall limit and at most 1 + e/50 000 are urgent |
| `WindowCorrection.CorrectionsKeepTheirDistance` | crates/ln8000-kmdf/src/lib.rs:3336-3366 | a correction at the stall limit is 60 s, and a non-urgent one 10 s, after every earlier one |
| `ClosedLoop.TheLoopNeverStalls` | crates/ln8000-kmdf/src/lib.rs:3289-3413 | the tick's guard, the budget and the corrections together, on an ideal adapter and a cell of 2.9 to 4.7 V: never a correction at the stall limit, no more corrections than the band arithmetic needs, a bus in the band or below 6.0 V is left alone, any other is corrected by the first tick 10 s after the last correction that finds no transfer to spare |
| `ClosedLoop.LostForGood` | crates/ln8000-kmdf/src/lib.rs:3289-3413 | a bus out of the band and below 6.0 V, or answered with no pulse, stays there on every continuation |
| `ClosedLoop.LedCellsAreNotLost` | crates/ln8000-kmdf/src/lib.rs:3289-3413 | for a cell of 2.95 to 4.7 V (or exactly 2.8 V) an elevated bus stays elevated or in the band, and is never lost, under any ticks |
| `ClosedLoop.LostExactly` | crates/ln8000-kmdf/src/lib.rs:3289-3413 | some elevated bus is lost under some ticks if and only if the cell is not one of those |
| `ClosedLoop.CorrectionLands` | crates/ln8000-kmdf/src/hvdcp.rs:1700-1740 | one correction brings the bus 4.0 V nearer or within a step of the target, and from within a step into the band |
| `ReElevation.Scheduler.Tick` | crates/ln8000-kmdf/src/lib.rs:3622-3643 | the scheduler's tick is one step of the backoff |
| `ReElevation.FiresExactly` | crates/ln8000-kmdf/src/lib.rs:3622-3643 | when a tick schedules a re-elevation, by history alone: it owns, and the wait since the last in the running episode, or since its first tick, has reached the backoff |
| `ReElevation.OwnershipIsServed` | crates/ln8000-kmdf/src/lib.rs:3622-3643 | five minutes of ownership never pass without one |
| `ReElevation.EachFollowsAMinuteOfOwnership` | crates/ln8000-kmdf/src/lib.rs:3622-3643 | every re-elevation follows at least 60 s of uninterrupted ownership |
| `ReElevation.BackoffInsideAnEpisode` | crates/ln8000-kmdf/src/lib.rs:3626-3636 | inside an episode the wait after the n-th is at least the n-th backoff |
| `ReElevation.WaitIsCappedDoubling` | crates/ln8000-kmdf/src/lib.rs:175-182 | which is min(300 s, 60 s doubled n - 1 times) |
| `ReElevation.AtLeastAMinuteApart` | crates/ln8000-kmdf/src/lib.rs:3622-3643 | any two re-elevations of a run, across episodes, are at least 60 s apart |
| `ReElevation.AttemptsAreBounded` | crates/ln8000-kmdf/src/lib.rs:3622-3643 | a run schedules at most one per minute of its duration |
| `GaugeGate.EveryInterleavingIsConsistent` | crates/ln8000-kmdf/src/lib.rs:605-630 | in every interleaving of any number of ticks: winners are different ticks, the shared word is the last winner's stamp, every pending exchange is due by what it loaded, neighbouring winners are a window apart unless the earlier stamp is zero |
| `GaugeGate.WindowsAreOwnedOnce` | crates/ln8000-kmdf/src/lib.rs:605-630 | after a winner with a non-zero stamp any later one is a polling window away for each step between them |
| `GaugeGate.SharingNeedsZero` | crates/ln8000-kmdf/src/lib.rs:605-630 | in any interleaving at all, two winners in one window name a tick stamped zero and another stamped below the polling interval |
| `GaugeGate.SharedExactly` | crates/ln8000-kmdf/src/lib.rs:605-630 | some interleaving on a clock read in order lets two polls share a window if and only if the ticks bring a zero stamp and another below the polling interval |
| `GaugeGate.UndisturbedPollsExactly` | crates/ln8000-kmdf/src/lib.rs:605-630 | after any interleaving, a tick whose steps no other disturbs polls if and only if nobody has, or the last poll is stamped zero or 30 s past |
| `Icl.EncodeExactly` | crates/core/src/icl.rs:60-77 | encoding gives a code if and only if the current lies in that code's half-open step |
| `Icl.EncodeFailsExactly` | crates/core/src/icl.rs:60-77 | and fails if and only if the step is zero or the current is off the grid |
| `Icl.QuantizeIsGreatest` | crates/core/src/icl.rs:87-100 | quantization gives the greatest grid value not above the request |
| `Icl.QuantizeRoundTrip` | crates/core/src/icl.rs:60-100 | what it gives always encodes, decodes back exactly and quantizes to itself |
| `Icl.QuantizeMonotone` | crates/core/src/icl.rs:87-100 | quantization is monotone |
| `Icl.QuantizeRespectsCeiling` | crates/core/src/icl.rs:87-100 | it stays at or below the request if and only if the request is not below the grid |
| `Icl.DecodeEncodeExactly` | crates/core/src/icl.rs:60-83 | a code survives decode and encode if and only if its value fits 32 bits |
| `SmbPolicy.RecognizedExactly` | crates/core/src/apsd.rs:86-156 | what detection recognizes and when it fails, by the status and result bits |
| `SmbPolicy.PoliciesAreSafe` | crates/core/src/policy.rs:101-154 | the current, voltage and pump each adapter may be given |
| `Charger.RetriesEndExactly` | crates/core/src/driver.rs:636-643 | the attempt number both retry loops carry (their invariant) ever exceeds the limit if and only if the limit is at most 254 |
| `Charger.Session.ReadReg` | crates/core/src/driver.rs:618-646 | at most R + 1 accesses and R resets; on a link that never fails more than R times in a row, nor beyond repair, it succeeds; it gives up on a recoverable failure only when the accesses are used up or the link reset failed; a successful read is the register's value and is journalled; the accounts stay balanced |
| `Charger.Session.WriteReg` | crates/core/src/driver.rs:648-709 | only the addressed register may differ; success with verification, or on an honest link, means it holds the value; a verification error names what it holds; it gives up on a recoverable failure only after more than R accesses or a failed reset, and on a reliable link it succeeds |
| `Charger.Session.UpdateReg` | crates/core/src/driver.rs:678-688 | success replaces exactly the masked bits of what the register held |
| `Charger.PlansAreFaithful` | crates/core/src/driver.rs:425-436 | a plan exists if and only if the grid has a step; its code decodes to the greatest grid current within the policy and the configured limit, and may be sent |
| `Charger.Session.Apply` | crates/core/src/driver.rs:421-480 | a transaction under faults: on success the register file is exactly the plan's, with override bits added, the QC2 field replaced only on request and its low six bits kept, and all else unchanged; on failure the session is faulted and only the three registers may differ; on a reliable link and a grid with a step it succeeds |
| `Charger.Session.Open` | crates/core/src/driver.rs:220-284 | opening writes nothing and succeeds only on a live status; a failed open stays closed, with no close record |
| `Charger.Session.Close` | crates/core/src/driver.rs:564-578 | a close that reports success left the safe limit in the register; it is recorded once, and a closed session changes nothing and accesses nothing; on a reliable link success is exactly a grid with a step |
| `Charger.Session.DetectStep` | crates/core/src/driver.rs:330-406 | each answer is what the last status and result read decode to; every Pending spends detection budget, and comes with a commanded rerun exactly when the check timed out or the time is up; a timeout is reported only past the timeout with the reruns exhausted; only the detection command register may be written; on a reliable link no failure is the link's |
| `Charger.Session.RetryDetection` | crates/core/src/driver.rs:597-616 | a rerun counts once and is recorded once; if it succeeds the rerun bit was sent with all others as they were, nothing else was, exactly one such write is recorded, and a trusted register holds it |
| `Charger.Session.Monitor` | crates/core/src/driver.rs:488-531 | polling writes nothing and reports a changed, unchanged or missing adapter by what was last read |
| `Charger.Session.Reinit` | crates/core/src/driver.rs:539-558 | detection starts over, unless the reset failed |
| `Charger.JournalReplaysTheSession` | crates/core/src/driver.rs:618-787 | in every reachable state the journal is numbered from one, chains from closed to the current state, counts what the counters count, holds at most one close, and on an exact link its writes replayed give the registers |
| `Runner.RunUntilDetected` | crates/host/src/runner.rs:49-83 | when step and pause take a millisecond together, the loop ends within the detection budget plus one, and within the fuse; short of success or a fault it ends exactly on the fuse, which a fuse above the budget never is |
| `Runner.FuseBlowsExactly` | crates/host/src/runner.rs:61-68 | the saturating step counter, which the loop's invariant carries, passes the fuse if and only if the fuse is below 2^32 - 1 |
| `Runner.RunUntilReady` | crates/host/src/runner.rs:49-83 | it fails as detection does, as the callback does, or as applying does, and succeeds on a reliable link otherwise; success means the detected adapter's plan is in the registers and nothing but the detection command besides |
| `Runner.MonitorCycle` | crates/host/src/runner.rs:90-102 | without a change nothing is written; with one the new adapter's plan is in the registers or it fails |
| `Runner.AnySession` | crates/core/src/driver.rs:220-578 | over any sequence of calls and any link: only permitted commands are sent (four addresses, no current above the ceiling), a failed open sends nothing, Pending moments and detection restarts are within their limits, restarts equal reruns as long as none failed, an opened session is closed exactly once |
| `Hex.ParseExactly` | crates/host/src/sim.rs:229-231 | the parser accepts exactly the non-empty numerals, of any length and either case, with at most one plus sign, whose value fits 16 bits |
| `Hex.PrintThenParse` | crates/host/src/tcp.rs:92-113 | what is printed at a sufficient width parses back |
| `Lines.SpacedWords` | crates/host/src/sim.rs:198-211 | words written with single spaces are split back into themselves |
| `Mock.ScriptedMock.SetReg` | crates/core/src/testkit.rs:197-212 | the array search is an update of the register map, which drops a new address when 64 are in use |
| `Mock.ScriptedMock.Reg` | crates/core/src/testkit.rs:216-222 | the array search is a lookup defaulting to zero |
| `Mock.ScriptedMock.Consume` | crates/core/src/testkit.rs:248-264 | the first applicable fault slot, and only it, loses one attempt |
| `Mock.ScriptedMock.Read` | crates/core/src/testkit.rs:294-310 | the read over arrays is the read of the device with a register map |
| `Mock.ScriptedMock.Write` | crates/core/src/testkit.rs:312-324 | the write over arrays is the write of that device |
| `Mock.PushingOwesExactly` | crates/core/src/testkit.rs:225-233 | injecting a fault adds its number of times to exactly the operations it is meant for |
| `Mock.ReadExactly` | crates/core/src/testkit.rs:294-310 | a read without injected errors changes no register and answers what the register holds, without its done bit while detection is to be delayed |
| `Mock.LiesAreTheInjectedOnes` | crates/core/src/testkit.rs:285-308 | a read that owes a lie tells an injected value and pays for it |
| `Mock.ErrorsAreTheInjectedOnes` | crates/core/src/testkit.rs:266-283 | a failing access fails with an injected kind |
| `Mock.WriteThenRead` | crates/core/src/testkit.rs:293-324 | an undisturbed write while there is room is read back, and no other register changes |
| `Mock.WriteFailsExactly` | crates/core/src/testkit.rs:312-324 | a write fails if and only if a write error is owed; then it changes nothing, else it is logged while the log has room |
| `Mock.ReadyInTheEndExactly` | crates/core/src/testkit.rs:298-305 | a finished detection is seen in the end if and only if the readiness delay is below 255 reads |
| `Mock.RegistersAreAMapExactly` | crates/core/src/testkit.rs:197-222 | from any device and under any injected faults, every address in use is kept if and only if there are at most 64, and every address reads as in a map if and only if each dropped one was last written with zero |
| `Mock.ReadsFailExactly` | crates/core/src/testkit.rs:248-274 | of successive reads of a register exactly the first ones fail, as many as were injected for it |
| `Mock.DisconnectNeverFires` | crates/core/src/testkit.rs:40-44 | an injected link loss adds to no operation's failures |
| `Wire.ProtocolLines` | crates/host/src/tcp.rs:5-10 | the request lines are those of the documented protocol |
| `Wire.RemoteRefinesLocal` | crates/host/src/sim.rs:198-227 | one operation printed, dispatched and parsed back: the local device state and value, with errors seen as input/output errors |
| `Wire.AnySessionRefines` | crates/host/src/tcp.rs:96-132 | the same for every sequence of operations |
| `Wire.MalformedExactly` | crates/host/src/sim.rs:198-227 | which requests are refused as unknown or unreadable, exactly; they leave the device alone |
| `Wire.DispatchTo` | crates/host/src/sim.rs:198-227 | the dispatch over the arrays is the one the refinement is about |
| `Wire.TcpTransport.Read` | crates/host/src/tcp.rs:97-110 | a remote read is the local read of the far device |
| `Wire.TcpTransport.Write` | crates/host/src/tcp.rs:112-122 | a remote write is the local write of the far device |

## Left out

- RunUntilDetected: requires that the clock moves between steps or the fuse is below 2^32 - 1; without either the source's loop need not end, and a method must.
- RunUntilReady: the same.
- AnySession: a retry limit of 255 is admitted on a link that answers within some number of accesses; on one that never does the source's retry loop does not end (`RetriesEndExactly`).
- WindowsIsInSync: excludes several gauge samples in one tick together with status queries; `TwoGaugesInOneTickCanBeMissed` shows the need, and the telemetry timer polls once a tick.
- SyncExactly: starts from a settled state; from an attach with an unreported percentage the exact condition is proved for continuations without status queries (`SyncWithoutQueriesExactly`).
- TwoCorrectionsSettle: assumes an adapter that moves exactly 200 mV a pulse and a live current; a dead current makes the code send one more DEC inside the band on purpose.
- TheLoopNeverStalls: the same assumptions and a constant cell; the band is computed from the cell the tick already anchored.
- LostForGood: speaks of the corrections alone; re-elevation, a renegotiation or a re-plug may move such a bus.
- ReadReg: a successful read of a control register is taken to be true; a device that misreports one is not modelled, nor are the levels, time stamps, request ids and durations of journal records.
- Monitor: that an unchanged adapter always has its policy applied is not claimed; it holds only if every re-apply succeeded.
- Wire: socket failures, and with them the client's timeout and disconnect errors; the link is intact.
- FORCE_9V is only as good as the read before it: a failed read is taken for zero, as in the code, so bits of the command register other than those commanded are not claimed to survive.
- Settling pauses, inter-pulse gaps and elapsed real time inside the negotiation: only poll counts are modelled.
- Choice of SPMI transport, endianness probing, grants and SUPERUSER requests: an access succeeds or fails.
- How the telemetry tick chooses between the modes of the pump (`charge_mode`, the guard, the pump driver): its inputs to the policies are arbitrary here.
- Registry marks, IOCTL buffers, BattC and WMI glue, WDF life cycle, SDDL, power requests: foreign calls without visible meaning.
- Start-up probing sequences, command line, JSON and tracing output, sockets, threads, benches: diagnostics and presentation.
- The session's error counter and detection counter are kept but not tied to the journal, which records more and fewer of them.
