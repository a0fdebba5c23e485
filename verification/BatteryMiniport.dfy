/**
 The published battery state of crates/ln8000-kmdf/src/battery.rs: AC, charging and
 discharging flags, the percentage, and when Windows is told to re-read them.
 */
module BatteryMiniport {
  import opened Widths
  import opened Outcomes
  import opened BatteryPolicy

  const UNKNOWN_CAPACITY: u32 := 0xFFFF_FFFF
  const VBAT_EMPTY_UV := 3_400_000
  const VBAT_FULL_UV := 4_350_000
  const CRITICAL_PCT := 5

  datatype SocSource = NoSource | Gauge | CellVoltage

  // The power_state mask, one field a bit.
  datatype Flags = Flags(ac: bool, discharging: bool, charging: bool, critical: bool)

  const NEVER_BUILT := Flags(false, false, false, false)

  // What BattC is handed by one build_status.
  datatype Report = Report(flags: Flags, pct: u32)

  // The arguments of update_from_telemetry, less the SOC direction its caller looks up.
  datatype Tick = Tick(vbatUv: u32, vbusUv: u32, iinUa: u32, iinPeakUa: u32,
                       vacUnplug: bool, inputReadingsUsable: bool, nowMs: u64)

  function Verdict(t: Tick): Option<bool> {
    OnlineRawWithEvidence(t.vbusUv, t.vbatUv, t.iinUa, t.vacUnplug, t.inputReadingsUsable)
  }

  // The hardware says VBUS is gone and no current flows into the pack.
  predicate Unplugged(t: Tick) {
    t.vacUnplug && t.iinUa < 80_000
  }

  function SocPercent(vbatUv: u32): u32 {
    if vbatUv <= VBAT_EMPTY_UV then 0
    else if vbatUv >= VBAT_FULL_UV then 100
    else (vbatUv - VBAT_EMPTY_UV) * 100 / (VBAT_FULL_UV - VBAT_EMPTY_UV)
  }

  function GaugePercent(raw: u8): u32 {
    if raw == 255 then 100
    else if raw == 0 then 0
    else ((raw - 1) * 98 + 126) / 253 + 1
  }

  function PowerOf(online: bool, charging: bool, pct: u32): Flags {
    Flags(
      ac := online,
      discharging := !online && !(charging && online),
      charging := charging && online,
      critical := pct != UNKNOWN_CAPACITY && pct <= CRITICAL_PCT)
  }

  // The module's statics. `told` is the report Windows read last, on a notification or a query.
  datatype View = View(
    attached: bool, lastPct: u32, notifiedPct: u32, source: SocSource, gaugeFails: u32,
    online: Hold, charging: Hold, unplugRun: u32, trend: SocTrend, power: Flags,
    told: Option<Report>)

  const BOOT := View(
    false, UNKNOWN_CAPACITY, UNKNOWN_CAPACITY, NoSource, 0,
    FRONT_ARMED, RUN_ARMED, 0, NOTHING_SEEN, NEVER_BUILT, None)

  // A call that measures a cell and denies the adapter re-estimates the percentage,
  // unless the gauge has ever answered.
  ghost function Estimated(v: View, t: Tick): View {
    if t.vbatUv > 0 && v.source != Gauge && Verdict(t) == Some(false)
    then v.(lastPct := SocPercent(t.vbatUv), source := CellVoltage)
    else v
  }

  // A confirmed unplug ends the AC window on the spot.
  ghost function NextOnline(online: Hold, unplugRun: u32, t: Tick): Hold {
    if UnplugRelease(t.vacUnplug, t.iinUa, unplugRun).0 then online.Update(false, t.nowMs, 0)
    else online.UpdateEvidence(Verdict(t), t.nowMs, ONLINE_HOLD_MS)
  }

  ghost function Held(v: View, t: Tick, socRising: bool): View {
    var online := NextOnline(v.online, v.unplugRun, t);
    var raw := ChargingRaw(online.held, t.iinUa, t.iinPeakUa, socRising);
    v.(unplugRun := UnplugRelease(t.vacUnplug, t.iinUa, v.unplugRun).1,
       online := online, charging := v.charging.Update(raw, t.nowMs, CHARGING_HOLD_MS))
  }

  // Windows is told when the flags moved, or the percentage is not the one it was told.
  ghost function Published(v: View): View {
    var power := PowerOf(v.online.held, v.charging.held, v.lastPct);
    if v.attached && (power != v.power || v.lastPct != v.notifiedPct)
    then v.(power := power, notifiedPct := v.lastPct, told := Some(Report(power, v.lastPct)))
    else v.(power := power)
  }

  ghost function AfterTelemetry(v: View, t: Tick, socRising: bool): View {
    Published(Held(Estimated(v, t), t, socRising))
  }

  ghost function AfterGauge(v: View, raw: u8, nowMs: u64): View {
    v.(lastPct := GaugePercent(raw), source := Gauge, gaugeFails := 0, trend := v.trend.Update(raw, nowMs))
  }

  ghost function AfterQuery(v: View): View {
    var power := PowerOf(v.online.held, v.charging.held, v.lastPct);
    v.(power := power, told := Some(Report(power, v.lastPct)))
  }

  class Miniport {
    var attached: bool
    var lastPct: u32
    var notifiedPct: u32
    var source: SocSource
    var gaugeFails: u32
    var lastVbatUv: u32
    var lastVbusUv: u32
    var lastIinUa: u32
    var online: Hold
    var charging: Hold
    var unplugRun: u32
    var trend: SocTrend
    var power: Flags
    ghost var told: Option<Report>

    ghost function Statics(): View
      reads this
    {
      View(attached, lastPct, notifiedPct, source, gaugeFails, online, charging, unplugRun, trend, power, told)
    }

    constructor ()
      ensures Statics() == BOOT
    {
      attached, lastPct, notifiedPct, source, gaugeFails := false, UNKNOWN_CAPACITY, UNKNOWN_CAPACITY, NoSource, 0;
      lastVbatUv, lastVbusUv, lastIinUa := 0, 0, 0;
      online, charging, unplugRun, trend := FRONT_ARMED, RUN_ARMED, 0, NOTHING_SEEN;
      power, told := NEVER_BUILT, None;
    }

    method Attach()
      modifies this
      ensures Statics() == old(Statics()).(attached := true)
    {
      attached := true;
    }

    method Detach()
      modifies this
      ensures Statics() == old(Statics()).(attached := false)
    {
      attached := false;
    }

    // Recomputes the flags from the held values and the percentage.
    // A rate of None is the unknown one: only floating on AC has a known rate, zero.
    method BuildStatus() returns (report: Report, voltageMv: u32, rate: Option<int>)
      modifies this`power
      ensures report == Report(power, lastPct) && power == PowerOf(online.held, charging.held, lastPct)
      ensures voltageMv == lastVbatUv / 1_000
      ensures rate == if power.ac && !power.charging then Some(0) else None
    {
      var isCharging := charging.held && online.held;
      var mask := NEVER_BUILT;
      if online.held {
        mask := mask.(ac := true);
      }
      if isCharging {
        mask := mask.(charging := true);
      } else if !online.held {
        mask := mask.(discharging := true);
      }
      if lastPct != UNKNOWN_CAPACITY && lastPct <= CRITICAL_PCT {
        mask := mask.(critical := true);
      }
      power := mask;
      report := Report(power, lastPct);
      voltageMv := if lastVbatUv == 0 then 0 else lastVbatUv / 1_000;
      rate := if isCharging then None else if online.held then Some(0) else None;
    }

    method QueryStatus() returns (report: Report, voltageMv: u32, rate: Option<int>)
      modifies this
      ensures Statics() == AfterQuery(old(Statics()))
      ensures Statics().told == Some(report)
      ensures voltageMv == lastVbatUv / 1_000
      ensures rate == if power.ac && !power.charging then Some(0) else None
    {
      report, voltageMv, rate := BuildStatus();
      told := Some(report);
    }

    method SetGaugeRaw(raw: u8, nowMs: u64)
      modifies this
      ensures Statics() == AfterGauge(old(Statics()), raw, nowMs)
    {
      var pct := if raw == 255 then 100 else if raw == 0 then 0 else ((raw - 1) * 98 + 126) / 253 + 1;
      lastPct := pct;
      source := Gauge;
      gaugeFails := 0;
      trend := trend.Update(raw, nowMs);
    }

    method NoteGaugeFailure() returns (fails: u32)
      modifies this
      ensures Statics() == old(Statics()).(gaugeFails := fails) && fails == SatAdd32(old(gaugeFails), 1)
    {
      gaugeFails := SatAdd32(gaugeFails, 1);
      fails := gaugeFails;
    }

    method EstimatePercent(t: Tick)
      modifies this`lastPct, this`source
      ensures Statics() == Estimated(old(Statics()), t)
    {
      if t.vbatUv > 0 && source != Gauge && Verdict(t) == Some(false) {
        lastPct := SocPercent(t.vbatUv);
        source := CellVoltage;
      }
    }

    method UpdateHolds(t: Tick, socRising: bool)
      modifies this`unplugRun, this`online, this`charging
      ensures Statics() == Held(old(Statics()), t, socRising)
    {
      var (hardwareUnplug, run) := UnplugRelease(t.vacUnplug, t.iinUa, unplugRun);
      unplugRun := run;
      if hardwareUnplug {
        online := online.Update(false, t.nowMs, 0);
      } else {
        online := online.UpdateEvidence(Verdict(t), t.nowMs, ONLINE_HOLD_MS);
      }
      charging := charging.Update(
        ChargingRaw(online.held, t.iinUa, t.iinPeakUa, socRising), t.nowMs, CHARGING_HOLD_MS);
    }

    method PublishStatus()
      modifies this`power, this`notifiedPct, this`told
      ensures Statics() == Published(old(Statics()))
    {
      var prevPower := power;
      var report, voltageMv, rate := BuildStatus();
      if power == prevPower && lastPct == notifiedPct {
        return;
      }
      if attached {
        notifiedPct := lastPct;
        told := Some(Report(power, lastPct));
      }
    }

    method UpdateFromTelemetry(t: Tick, socRising: bool)
      modifies this
      ensures Statics() == AfterTelemetry(old(Statics()), t, socRising)
      ensures lastVbatUv == (if t.vbatUv > 0 then t.vbatUv else old(lastVbatUv))
      ensures lastVbusUv == t.vbusUv && lastIinUa == t.iinUa
    {
      if t.vbatUv > 0 {
        lastVbatUv := t.vbatUv;
      }
      lastVbusUv := t.vbusUv;
      lastIinUa := t.iinUa;
      EstimatePercent(t);
      UpdateHolds(t, socRising);
      PublishStatus();
    }
  }

  // ---------------------------------------------------------------- runs

  datatype Op =
    | Telemetry(t: Tick)
    | GaugeSample(raw: u8, nowMs: u64)
    | GaugeFailure
    | Query
    | ClassAttach
    | ClassDetach

  // The telemetry tick passes the module's own SOC direction to update_from_telemetry.
  ghost function Apply(v: View, op: Op): View {
    match op
    case Telemetry(t) => AfterTelemetry(v, t, v.trend.rising)
    case GaugeSample(raw, nowMs) => AfterGauge(v, raw, nowMs)
    case GaugeFailure => v.(gaugeFails := SatAdd32(v.gaugeFails, 1))
    case Query => AfterQuery(v)
    case ClassAttach => v.(attached := true)
    case ClassDetach => v.(attached := false)
  }

  ghost function Run(ops: seq<Op>): View {
    if ops == [] then BOOT else Apply(Run(ops[..|ops| - 1]), ops[|ops| - 1])
  }

  // How many of the latest telemetry calls in a row saw the input unplugged.
  ghost function UnpluggedTail(ops: seq<Op>): nat {
    if ops == [] then 0
    else
      var init, last := ops[..|ops| - 1], ops[|ops| - 1];
      match last
      case Telemetry(t) => if Unplugged(t) then UnpluggedTail(init) + 1 else 0
      case _ => UnpluggedTail(init)
  }

  // What one call does to the AC hold and to the unplug counter; no other entry point touches them.
  lemma OnlineStep(v: View, op: Op)
    ensures op.Telemetry? ==>
      && Apply(v, op).online == NextOnline(v.online, v.unplugRun, op.t)
      && Apply(v, op).unplugRun == (if Unplugged(op.t) then SatAdd32(v.unplugRun, 1) else 0)
    ensures !op.Telemetry? ==>
      Apply(v, op).online == v.online && Apply(v, op).charging == v.charging && Apply(v, op).unplugRun == v.unplugRun
  {
  }

  lemma {:induction false} UnplugRunCountsTail(ops: seq<Op>)
    ensures Run(ops).unplugRun == Min(UnpluggedTail(ops), U32_MAX)
    ensures Run(ops).online.frontRun == HOLD_FRONT_RUN
  {
    if ops != [] {
      var init := ops[..|ops| - 1];
      UnplugRunCountsTail(init);
      OnlineStep(Run(init), ops[|ops| - 1]);
    }
  }

  // A live adapter verdict and a confirmed unplug exclude each other.
  lemma VerdictsExclude(t: Tick)
    ensures Verdict(t) == Some(true) ==> !Unplugged(t)
    ensures Verdict(t) == None ==> !t.vacUnplug
  {
  }

  // Current flows in from something that holds the input up.
  predicate LiveCurrent(t: Tick) {
    t.vbusUv >= 4_200_000 && t.iinUa >= 80_000
  }

  // The input reads twice the cell, give or take 80 mV: the pump mirrors the pack.
  predicate MirrorsPack(t: Tick) {
    t.vbatUv > 0 && t.vbusUv >= 4_600_000
    && t.vbusUv / 2 <= t.vbatUv + 80_000 && t.vbatUv <= t.vbusUv / 2 + 80_000
  }

  // The input hangs on the cell: neither elevated nor 200 mV above it.
  predicate FloatsOnPack(t: Tick) {
    0 < t.vbatUv && 4_200_000 <= t.vbusUv < 6_000_000 && t.vbusUv < t.vbatUv + 200_000
  }

  /** What a tick says about the adapter, by its measurements alone. */
  lemma VerdictByMeasurements(t: Tick)
    ensures !t.inputReadingsUsable ==> Verdict(t) == if t.vacUnplug then Some(false) else None
    ensures t.inputReadingsUsable && LiveCurrent(t) ==> Verdict(t) == Some(true)
    ensures t.inputReadingsUsable && !LiveCurrent(t) && t.vacUnplug ==> Verdict(t) == Some(false)
    ensures t.inputReadingsUsable && !LiveCurrent(t) && !t.vacUnplug ==>
      Verdict(t) == if MirrorsPack(t) then None
                    else if t.vbusUv < 4_200_000 then Some(false)
                    else Some(t.vbusUv >= 6_000_000 || t.vbatUv == 0 || t.vbusUv >= t.vbatUv + 200_000)
  {
  }

  /**
   The exact causes of the AC flag, over every run: a true verdict always leaves it
   up and nothing else raises it; it falls when this and the two previous telemetry
   calls all saw the input unplugged, or on a false verdict that comes the hold time
   or more after the last true one, and never otherwise.
   */
  lemma AcFlagExactCauses(ops: seq<Op>, t: Tick)
    ensures var v, v' := Run(ops), Run(ops + [Telemetry(t)]);
      && (Verdict(t) == Some(true) ==> v'.online.held)
      && (!v.online.held && v'.online.held ==> Verdict(t) == Some(true))
      && (v.online.held ==>
           (!v'.online.held <==>
              || UnpluggedTail(ops + [Telemetry(t)]) >= 3
              || (Verdict(t) == Some(false) && SatSub(t.nowMs, v.online.lastTrueMs) >= 8_000)))
      && (Verdict(t) == None ==> v'.online == v.online)
  {
    var all := ops + [Telemetry(t)];
    assert all[..|all| - 1] == ops;
    UnplugRunCountsTail(ops);
    VerdictsExclude(t);
  }

  // An adapter that any measurement shows: current, an elevated bus, or a 5 V rail above the cell.
  predicate ShowsAdapter(t: Tick) {
    && t.inputReadingsUsable
    && (LiveCurrent(t)
        || (!t.vacUnplug && !MirrorsPack(t) && t.vbusUv >= 4_200_000
            && (t.vbusUv >= 6_000_000 || t.vbatUv == 0 || t.vbusUv >= t.vbatUv + 200_000)))
  }

  /** After any run, one tick that shows an adapter publishes AC, and not discharging. */
  lemma AdapterRaisesAc(ops: seq<Op>, t: Tick)
    requires ShowsAdapter(t)
    ensures var power := Run(ops + [Telemetry(t)]).power;
      power.ac && !power.discharging
  {
    VerdictByMeasurements(t);
    AcFlagExactCauses(ops, t);
    RunSnoc(ops, Telemetry(t));
  }

  // The bus is down at the pack, without the hardware saying so.
  predicate IdleOnPack(t: Tick) {
    && t.inputReadingsUsable && !t.vacUnplug && t.iinUa < 80_000 && !MirrorsPack(t)
    && (t.vbusUv < 4_200_000 || FloatsOnPack(t))
  }

  function Calls(ticks: seq<Tick>): seq<Op> {
    if ticks == [] then [] else Calls(ticks[..|ticks| - 1]) + [Telemetry(ticks[|ticks| - 1])]
  }

  lemma {:induction false} IdleKeepsStamp(ops: seq<Op>, ticks: seq<Tick>)
    requires forall k :: 0 <= k < |ticks| ==> IdleOnPack(ticks[k])
    ensures Run(ops + Calls(ticks)).online.lastTrueMs == Run(ops).online.lastTrueMs
  {
    if ticks == [] {
      assert ops + Calls(ticks) == ops;
    } else {
      var n := |ticks| - 1;
      IdleKeepsStamp(ops, ticks[..n]);
      VerdictByMeasurements(ticks[n]);
      var before := ops + Calls(ticks[..n]);
      assert ops + Calls(ticks) == before + [Telemetry(ticks[n])];
      RunSnoc(before, Telemetry(ticks[n]));
      OnlineStep(Run(before), Telemetry(ticks[n]));
    }
  }

  /** Ticks idling on the pack take AC down once 8 s have passed since the adapter was last proved. */
  lemma IdlingClearsAc(ops: seq<Op>, ticks: seq<Tick>)
    requires ticks != [] && forall k :: 0 <= k < |ticks| ==> IdleOnPack(ticks[k])
    requires ticks[|ticks| - 1].nowMs - Run(ops).online.lastTrueMs >= 8_000
    ensures var power := Run(ops + Calls(ticks)).power;
      !power.ac && power.discharging && !power.charging
  {
    var n := |ticks| - 1;
    IdleKeepsStamp(ops, ticks[..n]);
    VerdictByMeasurements(ticks[n]);
    var before := ops + Calls(ticks[..n]);
    assert ops + Calls(ticks) == before + [Telemetry(ticks[n])];
    RunSnoc(before, Telemetry(ticks[n]));
    AcFlagExactCauses(before, ticks[n]);
  }

  // Telemetry call k carried this verdict.
  ghost predicate VerdictAt(ops: seq<Op>, k: int, verdict: bool) {
    0 <= k < |ops| && ops[k].Telemetry? && Verdict(ops[k].t) == Some(verdict)
  }

  ghost predicate AcProofAt(ops: seq<Op>, k: int) {
    && VerdictAt(ops, k, true)
    && Run(ops).online.lastTrueMs == ops[k].t.nowMs
    && forall j :: k < j && VerdictAt(ops, j, false) ==> SatSub(ops[j].t.nowMs, ops[k].t.nowMs) < 8_000
  }

  /**
   Nothing is invented: whenever AC is published, some telemetry call saw the adapter,
   and no call since has denied it the hold time or more later.
   */
  lemma {:induction false} AcNeedsProof(ops: seq<Op>) returns (k: int)
    requires Run(ops).online.held
    ensures AcProofAt(ops, k)
  {
    var n := |ops| - 1;
    var init := ops[..n];
    var before, after := Run(init).online, Run(ops).online;
    UnplugRunCountsTail(init);
    OnlineStep(Run(init), ops[n]);
    if VerdictAt(ops, n, true) && after.lastTrueMs == ops[n].t.nowMs {
      k := n;
    } else {
      k := AcNeedsProof(init);
      assert forall j, b :: 0 <= j < n ==> (VerdictAt(ops, j, b) <==> VerdictAt(init, j, b));
    }
  }

  // The verdicts of the run; a confirmed unplug is one that no earlier verdict outlasts.
  ghost function OnlineReadings(ops: seq<Op>): seq<Timed> {
    if ops == [] then []
    else
      var init, last := ops[..|ops| - 1], ops[|ops| - 1];
      OnlineReadings(init) +
      if last.Telemetry? && Verdict(last.t) != None
      then [Timed(Verdict(last.t).value, last.t.nowMs, if UnpluggedTail(ops) >= 3 then 0 else 8_000)]
      else []
  }

  lemma {:induction false} OnlineReplays(ops: seq<Op>)
    ensures Run(ops).online == ReplayTimed(FRONT_ARMED, OnlineReadings(ops))
  {
    if ops != [] {
      var init, last := ops[..|ops| - 1], ops[|ops| - 1];
      OnlineReplays(init);
      OnlineStep(Run(init), last);
      UnplugRunCountsTail(init);
      var e := OnlineReadings(ops);
      if last.Telemetry? && Verdict(last.t) != None {
        VerdictsExclude(last.t);
        assert e[..|e| - 1] == OnlineReadings(init);
      } else {
        assert e == OnlineReadings(init);
      }
    }
  }

  /**
   AC equals history: it is up if and only if some verdict armed it - a true one after
   another, or on a cold hold - that no denial since came 8 s or more after, and no
   confirmed unplug at all.
   */
  lemma AcEqualsHistory(ops: seq<Op>)
    requires InOrder(OnlineReadings(ops))
    ensures var e := OnlineReadings(ops);
      Run(ops).online.held <==> exists k :: Arms(e, k) && Lasting(e, k)
  {
    OnlineReplays(ops);
    TimedEqualsHistory(OnlineReadings(ops));
  }

  /**
   No removal is missed: once a call denies the adapter, the hold time or more after
   every call that ever saw it, AC is down.
   */
  lemma RemovalIsNotMissed(ops: seq<Op>, j: int)
    requires VerdictAt(ops, j, false)
    requires forall k :: VerdictAt(ops, k, true) ==> k < j && ops[j].t.nowMs - ops[k].t.nowMs >= 8_000
    ensures !Run(ops).online.held
  {
    if Run(ops).online.held {
      var k := AcNeedsProof(ops);
    }
  }

  /**
   CHARGING is never published without AC, DISCHARGING is published exactly when AC is
   not, and CRITICAL only on a known percentage - in every report Windows ever reads.
   */
  lemma {:induction false} ReportsAreConsistent(ops: seq<Op>)
    ensures var v := Run(ops);
      && (v.power == NEVER_BUILT || ConsistentFlags(v.power))
      && (v.told.Some? ==>
           ConsistentFlags(v.told.value.flags) && (v.told.value.flags.critical <==> v.told.value.pct <= 5))
  {
    if ops != [] {
      var init, last := ops[..|ops| - 1], ops[|ops| - 1];
      ReportsAreConsistent(init);
      PowerStep(Run(init), last);
    }
  }

  ghost predicate ConsistentFlags(f: Flags) {
    f.discharging == !f.ac && (f.charging ==> f.ac)
  }

  // Every entry point either leaves the flags and Windows's report alone or rebuilds them.
  lemma PowerStep(v: View, op: Op)
    ensures var v' := Apply(v, op);
      && (v'.power == v.power || v'.power == PowerOf(v'.online.held, v'.charging.held, v'.lastPct))
      && (v'.told == v.told
          || v'.told == Some(Report(PowerOf(v'.online.held, v'.charging.held, v'.lastPct), v'.lastPct)))
  {
  }

  // ---------------------------------------------------------------- direction and charging

  // The fuel-gauge samples of the run, as the SOC direction witness sees them.
  ghost function GaugeSamples(ops: seq<Op>): seq<SocSample> {
    if ops == [] then []
    else
      var init, last := ops[..|ops| - 1], ops[|ops| - 1];
      GaugeSamples(init) + if last.GaugeSample? then [SocSample(last.raw, last.nowMs)] else []
  }

  lemma {:induction false} TrendFollowsGauge(ops: seq<Op>)
    ensures Run(ops).trend == Track(GaugeSamples(ops))
  {
    if ops != [] {
      var init, last := ops[..|ops| - 1], ops[|ops| - 1];
      TrendFollowsGauge(init);
      if last.GaugeSample? {
        assert GaugeSamples(ops)[..|GaugeSamples(ops)| - 1] == GaugeSamples(init);
      } else {
        assert GaugeSamples(ops) == GaugeSamples(init);
      }
    }
  }

  // What the last call, a telemetry one, says about charging: AC is held, and current flows
  // or flowed, or the gauge has risen lately.
  ghost predicate SawCharging(ops: seq<Op>)
    requires ops != [] && ops[|ops| - 1].Telemetry?
  {
    var n := |ops| - 1;
    var t := ops[n].t;
    && Run(ops).online.held
    && (t.iinUa >= 80_000 || t.iinPeakUa >= 80_000
        || exists k :: RoseRecentlyAt(GaugeSamples(ops[..n]), k))
  }

  ghost function ChargingReadings(ops: seq<Op>): seq<Reading> {
    if ops == [] then []
    else
      var init, last := ops[..|ops| - 1], ops[|ops| - 1];
      ChargingReadings(init) + if last.Telemetry? then [Reading(SawCharging(ops), last.t.nowMs)] else []
  }

  lemma ChargingStep(v: View, t: Tick)
    ensures var v' := Apply(v, Telemetry(t));
      var current := t.iinUa >= IIN_CHARGING_UA || t.iinPeakUa >= IIN_CHARGING_UA;
      v'.charging == v.charging.Update(v'.online.held && (current || v.trend.rising), t.nowMs, CHARGING_HOLD_MS)
  {
  }

  lemma GaugeSamplesGrow(ops: seq<Op>)
    requires ops != [] && InTimeOrder(GaugeSamples(ops))
    ensures InTimeOrder(GaugeSamples(ops[..|ops| - 1]))
  {
    var before := GaugeSamples(ops[..|ops| - 1]);
    assert forall k :: 0 <= k < |before| ==> before[k] == GaugeSamples(ops)[k];
  }

  lemma {:induction false} ChargingReplays(ops: seq<Op>)
    requires InTimeOrder(GaugeSamples(ops))
    ensures Run(ops).charging == Replay(RUN_ARMED, ChargingReadings(ops), CHARGING_HOLD_MS)
  {
    if ops != [] {
      var init, last := ops[..|ops| - 1], ops[|ops| - 1];
      GaugeSamplesGrow(ops);
      ChargingReplays(init);
      var readings := ChargingReadings(ops);
      if last.Telemetry? {
        TrendFollowsGauge(init);
        RisingEqualsHistory(GaugeSamples(init));
        ChargingStep(Run(init), last.t);
        assert readings[..|readings| - 1] == ChargingReadings(init);
      } else {
        OnlineStep(Run(init), last);
        assert readings == ChargingReadings(init);
      }
    }
  }

  /**
   CHARGING equals history: it is held exactly when two telemetry calls in a row saw
   charging, and no call that did not came 20 s or more after the later of them.
   */
  lemma ChargingEqualsHistory(ops: seq<Op>)
    requires InTimeOrder(GaugeSamples(ops)) && Monotonic(ChargingReadings(ops))
    ensures var e := ChargingReadings(ops);
      Run(ops).charging.held <==> exists k :: PairAt(e, k) && FreshSince(e, k, 20_000)
  {
    var e := ChargingReadings(ops);
    ChargingReplays(ops);
    if Run(ops).charging.held {
      var k := HeldHasFreshPair(e, CHARGING_HOLD_MS);
    }
    if k: int :| PairAt(e, k) && FreshSince(e, k, CHARGING_HOLD_MS) {
      PairIsStamped(e, k, CHARGING_HOLD_MS);
    }
  }

  /**
   The mask a telemetry call leaves is a function of history, bit by bit: AC by the arming
   verdicts, CHARGING by AC and the charging readings, DISCHARGING by AC, CRITICAL by the
   percentage.
   */
  lemma FlagsEqualHistory(ops: seq<Op>)
    requires ops != [] && ops[|ops| - 1].Telemetry?
    requires InOrder(OnlineReadings(ops)) && InTimeOrder(GaugeSamples(ops)) && Monotonic(ChargingReadings(ops))
    ensures var power, online, charging := Run(ops).power, OnlineReadings(ops), ChargingReadings(ops);
      && (power.ac <==> exists k :: Arms(online, k) && Lasting(online, k))
      && (power.charging <==> power.ac && exists k :: PairAt(charging, k) && FreshSince(charging, k, 20_000))
      && (power.discharging <==> !power.ac)
      && (power.critical <==> Run(ops).lastPct <= 5)
  {
    AcEqualsHistory(ops);
    ChargingEqualsHistory(ops);
  }

  // Gauge failures since the last sample.
  ghost function FailuresSinceSample(ops: seq<Op>): nat {
    if ops == [] || ops[|ops| - 1].GaugeSample? then 0
    else FailuresSinceSample(ops[..|ops| - 1]) + if ops[|ops| - 1].GaugeFailure? then 1 else 0
  }

  lemma {:induction false} FailuresAreCounted(ops: seq<Op>)
    ensures Run(ops).gaugeFails == Min(FailuresSinceSample(ops), U32_MAX)
  {
    if ops != [] {
      FailuresAreCounted(ops[..|ops| - 1]);
    }
  }

  // ---------------------------------------------------------------- percentage

  // The last fuel-gauge sample of the run.
  ghost function LastGauge(ops: seq<Op>): Option<u8> {
    if ops == [] then None
    else if ops[|ops| - 1].GaugeSample? then Some(ops[|ops| - 1].raw)
    else LastGauge(ops[..|ops| - 1])
  }

  // The cell voltage of the last call that measured a cell and denied the adapter.
  ghost function LastUnpluggedCell(ops: seq<Op>): Option<u32> {
    if ops == [] then None
    else
      var last := ops[|ops| - 1];
      if last.Telemetry? && last.t.vbatUv > 0 && Verdict(last.t) == Some(false) then Some(last.t.vbatUv)
      else LastUnpluggedCell(ops[..|ops| - 1])
  }

  /**
   The published percentage is a function of history: the last gauge sample if there
   ever was one, else the voltage estimate of the last measured cell without an
   adapter, else unknown.
   */
  lemma {:induction false} PercentEqualsHistory(ops: seq<Op>)
    ensures Run(ops).lastPct ==
      match LastGauge(ops)
      case Some(raw) => GaugePercent(raw)
      case None =>
        match LastUnpluggedCell(ops)
        case Some(vbatUv) => SocPercent(vbatUv)
        case None => UNKNOWN_CAPACITY
    ensures Run(ops).source == Gauge <==> LastGauge(ops).Some?
  {
    if ops != [] {
      PercentEqualsHistory(ops[..|ops| - 1]);
    }
  }

  /** Between its codes' ends the gauge conversion is 1 + 98 (raw - 1) / 253, rounded to the nearest percent. */
  lemma GaugePercentRounds(raw: u8)
    requires 0 < raw < 255
    ensures 2 * (98 * (raw - 1)) - 253 <= 2 * 253 * (GaugePercent(raw) - 1) < 2 * (98 * (raw - 1)) + 253
  {
  }

  /** The voltage estimate is 0 % up to 3.4 V, 100 % from 4.35 V, and one percent more for each 9.5 mV between. */
  lemma SocPercentIsLinear(vbatUv: u32)
    ensures SocPercent(vbatUv) <= 100
    ensures vbatUv <= 3_400_000 ==> SocPercent(vbatUv) == 0
    ensures vbatUv >= 4_350_000 ==> SocPercent(vbatUv) == 100
    ensures 3_400_000 < vbatUv < 4_350_000 ==>
      9_500 * SocPercent(vbatUv) <= vbatUv - 3_400_000 < 9_500 * (SocPercent(vbatUv) + 1)
  {
  }

  /** The gauge conversion is monotone and reserves 0 % and 100 % for the end codes. */
  lemma GaugePercentEndsAreReserved(raw: u8, raw': u8)
    ensures raw <= raw' ==> GaugePercent(raw) <= GaugePercent(raw')
    ensures GaugePercent(raw) == 0 <==> raw == 0
    ensures GaugePercent(raw) == 100 <==> raw == 255
  {
  }

  // ---------------------------------------------------------------- notification

  // Windows holds what a fresh build_status would say.
  ghost predicate InSync(v: View) {
    v.told == Some(Report(PowerOf(v.online.held, v.charging.held, v.lastPct), v.lastPct))
  }

  // Gauge samples that arrived after the last telemetry call.
  ghost function GaugesPending(ops: seq<Op>): nat {
    if ops == [] then 0
    else
      var init, last := ops[..|ops| - 1], ops[|ops| - 1];
      if last.Telemetry? then 0 else GaugesPending(init) + if last.GaugeSample? then 1 else 0
  }

  // The telemetry timer polls the gauge at most once per tick.
  ghost predicate OneGaugePerTick(ops: seq<Op>) {
    forall i :: 0 <= i <= |ops| ==> GaugesPending(ops[..i]) <= 1
  }

  ghost predicate NoQuery(ops: seq<Op>) {
    forall i :: 0 <= i < |ops| ==> !ops[i].Query?
  }

  ghost predicate NoDetach(ops: seq<Op>) {
    forall i :: 0 <= i < |ops| ==> !ops[i].ClassDetach?
  }

  // Nothing comes between a gauge sample and the tick that compares it with what was notified.
  ghost predicate Orderly(ops: seq<Op>) {
    NoDetach(ops) && (OneGaugePerTick(ops) || NoQuery(ops))
  }

  lemma OrderlyPrefix(ops: seq<Op>)
    requires ops != [] && Orderly(ops)
    ensures Orderly(ops[..|ops| - 1])
    ensures !ops[|ops| - 1].ClassDetach?
    ensures NoQuery(ops[..|ops| - 1]) && !ops[|ops| - 1].Query? ==> NoQuery(ops)
    ensures ops[|ops| - 1].GaugeSample? && !NoQuery(ops) ==> GaugesPending(ops[..|ops| - 1]) == 0
  {
    var n := |ops| - 1;
    var init := ops[..n];
    assert forall i :: 0 <= i <= n ==> ops[..i] == init[..i];
    if OneGaugePerTick(ops) {
      assert ops[..n + 1] == ops && init[..n] == init;
      assert GaugesPending(ops[..n + 1]) <= 1;
    }
  }

  // The state an attached telemetry call leaves: the flags are built, the percentage notified.
  ghost predicate Settled(v: View) {
    && v.attached && v.lastPct == v.notifiedPct
    && v.power == PowerOf(v.online.held, v.charging.held, v.lastPct)
  }

  lemma EveryAttachedCallSettles(v: View, t: Tick)
    requires v.attached
    ensures Settled(AfterTelemetry(v, t, v.trend.rising))
  {
  }

  ghost function RunFrom(v: View, ops: seq<Op>): View {
    if ops == [] then v else Apply(RunFrom(v, ops[..|ops| - 1]), ops[|ops| - 1])
  }

  // Windows read again at op k: on a query, or on a notification of something new.
  ghost predicate RefreshedAt(v: View, ops: seq<Op>, k: int) {
    && 0 <= k < |ops|
    && (ops[k].Query?
        || (ops[k].Telemetry?
            && var w := RunFrom(v, ops[..k + 1]); w.power != v.power || w.lastPct != v.lastPct))
  }

  ghost predicate Refreshed(v: View, ops: seq<Op>) {
    exists k :: RefreshedAt(v, ops, k)
  }

  lemma RefreshedSnoc(v: View, ops: seq<Op>)
    requires ops != []
    ensures Refreshed(v, ops) <==> Refreshed(v, ops[..|ops| - 1]) || RefreshedAt(v, ops, |ops| - 1)
  {
    var n := |ops| - 1;
    var init := ops[..n];
    forall k | 0 <= k < n
      ensures RefreshedAt(v, ops, k) <==> RefreshedAt(v, init, k)
    {
      assert ops[..k + 1] == init[..k + 1];
    }
    if Refreshed(v, init) {
      var k :| RefreshedAt(v, init, k);
      assert RefreshedAt(v, ops, k);
    }
  }

  // Nothing was read or notified since `v`: only an unreported gauge sample can have moved.
  ghost predicate Quiet(v: View, w: View, pending: nat) {
    && w.attached && w.told == v.told && w.power == v.power && w.notifiedPct == v.lastPct
    && w.power == PowerOf(w.online.held, w.charging.held, v.lastPct)
    && (pending == 0 || w.source != Gauge ==> w.lastPct == v.lastPct)
  }

  // Windows's report is the notified one, or it is a query's on a gauge sample still to be notified.
  ghost predicate Tracking(w: View, pending: nat, queried: bool) {
    && w.attached && w.told.Some?
    && var r := w.told.value;
    && r.flags == w.power == PowerOf(w.online.held, w.charging.held, r.pct)
    && (pending == 0 || w.source != Gauge ==> w.lastPct == w.notifiedPct)
    && if w.lastPct == w.notifiedPct || !queried then r.pct == w.notifiedPct
       else r.pct == w.notifiedPct || r.pct == w.lastPct
  }

  ghost function Pending(op: Op, pending: nat): nat {
    if op.Telemetry? then 0 else pending + if op.GaugeSample? then 1 else 0
  }

  lemma QuietStep(v: View, w: View, op: Op, pending: nat)
    requires Settled(v) && Quiet(v, w, pending) && !op.ClassDetach?
    ensures var w' := Apply(w, op);
      if op.Query? then Tracking(w', pending, true)
      else if op.Telemetry? && (w'.power != v.power || w'.lastPct != v.lastPct) then Tracking(w', 0, false)
      else Quiet(v, w', Pending(op, pending))
  {
  }

  lemma TrackingStep(w: View, op: Op, pending: nat, queried: bool)
    requires Tracking(w, pending, queried) && !op.ClassDetach?
    requires queried && op.GaugeSample? ==> pending == 0
    ensures Tracking(Apply(w, op), Pending(op, pending), queried || op.Query?)
    ensures op.Telemetry? ==> InSync(Apply(w, op))
  {
  }

  lemma {:induction false} FromSettled(v: View, ops: seq<Op>)
    requires Settled(v) && Orderly(ops)
    ensures if Refreshed(v, ops) then Tracking(RunFrom(v, ops), GaugesPending(ops), !NoQuery(ops))
            else Quiet(v, RunFrom(v, ops), GaugesPending(ops))
  {
    if ops != [] {
      var n := |ops| - 1;
      var init, op := ops[..n], ops[n];
      var w, pending := RunFrom(v, init), GaugesPending(init);
      OrderlyPrefix(ops);
      FromSettled(v, init);
      RefreshedSnoc(v, ops);
      assert ops[..n + 1] == ops;
      if Refreshed(v, init) {
        TrackingStep(w, op, pending, !NoQuery(init));
      } else {
        QuietStep(v, w, op, pending);
      }
    }
  }

  lemma {:induction false} RunSplits(before: seq<Op>, ops: seq<Op>)
    ensures Run(before + ops) == RunFrom(Run(before), ops)
  {
    if ops == [] {
      assert before + ops == before;
    } else {
      var n := |ops| - 1;
      assert (before + ops)[..|before| + n] == before + ops[..n];
      RunSplits(before, ops[..n]);
    }
  }

  /**
   Over every orderly continuation of a settled run that ends in a telemetry call, Windows
   is in sync if and only if it was at the start, or has queried since, or some telemetry
   call since has left flags or a percentage other than those of the start.
   */
  lemma SyncExactly(before: seq<Op>, ops: seq<Op>)
    requires Settled(Run(before)) && Orderly(ops)
    requires ops != [] && ops[|ops| - 1].Telemetry?
    ensures InSync(Run(before + ops)) <==> InSync(Run(before)) || Refreshed(Run(before), ops)
  {
    var v := Run(before);
    FromSettled(v, ops);
    RunSplits(before, ops);
  }

  // Some call since has left flags other than the last built, or a percentage other than the
  // last notified.
  ghost predicate RenewedAt(v: View, ops: seq<Op>, k: int) {
    && 0 <= k < |ops| && ops[k].Telemetry?
    && var w := RunFrom(v, ops[..k + 1]); w.power != v.power || w.lastPct != v.notifiedPct
  }

  ghost predicate Renewed(v: View, ops: seq<Op>) {
    exists k :: RenewedAt(v, ops, k)
  }

  lemma RenewedSnoc(v: View, ops: seq<Op>)
    requires ops != []
    ensures Renewed(v, ops) <==> Renewed(v, ops[..|ops| - 1]) || RenewedAt(v, ops, |ops| - 1)
  {
    var n := |ops| - 1;
    var init := ops[..n];
    forall k | 0 <= k < n
      ensures RenewedAt(v, ops, k) <==> RenewedAt(v, init, k)
    {
      assert ops[..k + 1] == init[..k + 1];
    }
    if Renewed(v, init) {
      var k :| RenewedAt(v, init, k);
      assert RenewedAt(v, ops, k);
    }
  }

  lemma {:induction false} FromAttached(v: View, ops: seq<Op>)
    requires v.attached && NoDetach(ops) && NoQuery(ops)
    ensures var w := RunFrom(v, ops);
      && w.attached
      && if Renewed(v, ops) then w.told == Some(Report(w.power, w.notifiedPct))
         else w.told == v.told && w.power == v.power && w.notifiedPct == v.notifiedPct
  {
    if ops != [] {
      var n := |ops| - 1;
      FromAttached(v, ops[..n]);
      RenewedSnoc(v, ops);
      assert ops[..n + 1] == ops;
    }
  }

  /**
   Without queries the same holds from any attached state, settled or not: Windows is in sync
   after a telemetry call if and only if its report was the last one built and notified at the
   start, or some call since has left flags or a percentage other than those.
   */
  lemma SyncWithoutQueriesExactly(before: seq<Op>, ops: seq<Op>)
    requires Run(before).attached && NoDetach(ops) && NoQuery(ops)
    requires ops != [] && ops[|ops| - 1].Telemetry?
    ensures var v := Run(before);
      InSync(Run(before + ops)) <==> v.told == Some(Report(v.power, v.notifiedPct)) || Renewed(v, ops)
  {
    var v := Run(before);
    var n := |ops| - 1;
    FromAttached(v, ops);
    RenewedSnoc(v, ops);
    assert ops[..n + 1] == ops;
    RunSplits(before, ops);
    EveryAttachedCallSettles(RunFrom(v, ops[..n]), ops[n].t);
  }

  ghost predicate AttachedThroughout(ops: seq<Op>) {
    ops != [] && ops[0].ClassAttach? && NoDetach(ops)
  }

  // Attached, and no telemetry call yet: nothing has been built or notified.
  ghost predicate Untold(v: View, pending: nat) {
    && v.attached && v.told.None? && v.power == NEVER_BUILT && v.notifiedPct == UNKNOWN_CAPACITY
    && (pending == 0 || v.source != Gauge ==> v.lastPct == UNKNOWN_CAPACITY)
  }

  lemma UntoldStep(v: View, op: Op, pending: nat)
    requires Untold(v, pending) && !op.ClassDetach?
    ensures if op.Query? || op.Telemetry? then Tracking(Apply(v, op), Pending(op, pending), op.Query?)
            else Untold(Apply(v, op), Pending(op, pending))
    ensures op.Telemetry? ==> InSync(Apply(v, op))
  {
  }

  lemma {:induction false} FromAttach(ops: seq<Op>)
    requires AttachedThroughout(ops) && Orderly(ops)
    ensures var v, pending := Run(ops), GaugesPending(ops);
      && (Tracking(v, pending, !NoQuery(ops)) || (Untold(v, pending) && NoQuery(ops)))
      && (ops[|ops| - 1].Telemetry? ==> InSync(v))
  {
    var n := |ops| - 1;
    var init, op := ops[..n], ops[n];
    if n == 0 {
      assert init == [];
    } else {
      OrderlyPrefix(ops);
      FromAttach(init);
      if Run(init).told.Some? {
        TrackingStep(Run(init), op, GaugesPending(init), !NoQuery(init));
      } else {
        UntoldStep(Run(init), op, GaugesPending(init));
      }
    }
  }

  /**
   With the class attached from the start, what Windows last read equals the current state
   after every telemetry call, however status queries interleave if the gauge is polled at
   most once a tick, and however often it is polled if nobody queries.
   */
  lemma WindowsIsInSync(ops: seq<Op>)
    requires AttachedThroughout(ops) && (OneGaugePerTick(ops) || NoQuery(ops))
    requires ops[|ops| - 1].Telemetry?
    ensures InSync(Run(ops))
  {
    FromAttach(ops);
  }

  const ADAPTER_TICK := Tick(4_000_000, 9_000_000, 0, 0, false, true, 1_000)
  const UNPLUGGED_TICK := Tick(3_800_000, 0, 0, 0, true, false, 1_000)

  lemma RunSnoc(ops: seq<Op>, op: Op)
    ensures Run(ops + [op]) == Apply(Run(ops), op)
  {
    assert (ops + [op])[..|ops|] == ops;
  }

  /**
   A flag change that happens while the class is detached is not repeated after it
   attaches: Windows is left without a report (the percentage is the only thing the
   code compares with what it notified).
   */
  lemma LateAttachLosesFlags()
    ensures var before := [Telemetry(ADAPTER_TICK), ClassAttach];
      && Settled(Run(before)) && Run(before).power.ac
      && Run(before + [Telemetry(ADAPTER_TICK)]).power.ac
      && Run(before + [Telemetry(ADAPTER_TICK)]).told == None
  {
    var before := [Telemetry(ADAPTER_TICK), ClassAttach];
    assert before == [] + [Telemetry(ADAPTER_TICK)] + [ClassAttach];
    RunSnoc([], Telemetry(ADAPTER_TICK));
    RunSnoc([] + [Telemetry(ADAPTER_TICK)], ClassAttach);
    RunSnoc(before, Telemetry(ADAPTER_TICK));
  }

  /** Two gauge samples inside one tick, with a query between them, can go unnoticed. */
  lemma TwoGaugesInOneTickCanBeMissed()
    ensures var v := Apply(Apply(Apply(BOOT, ClassAttach), GaugeSample(128, 0)), Telemetry(UNPLUGGED_TICK));
      var read := Apply(Apply(v, GaugeSample(140, 0)), Query);
      var stale := Apply(Apply(read, GaugeSample(128, 0)), Telemetry(UNPLUGGED_TICK));
      InSync(v) && !InSync(stale) && stale.told.value.pct == GaugePercent(140) && stale.lastPct == GaugePercent(128)
  {
  }
}
