/**
 The pure power-state hysteresis of crates/ln8000/src/battery_policy.rs, and what
 it remembers of the samples it was fed.
 */
module BatteryPolicy {
  import opened Widths
  import opened Outcomes

  const ONLINE_HOLD_MS := 8_000
  const CHARGING_HOLD_MS := 20_000
  const IIN_CHARGING_UA := 80_000
  const SOC_RISE_HOLD_MS := 300_000
  const HOLD_ARM_RUN: u32 := 2
  const HOLD_FRONT_RUN: u32 := 1
  const UNPLUG_RELEASE_RUN: u32 := 3
  const VBUS_ONLINE_UV := 4_600_000
  const VBUS_CHARGING_MIN_UV := 4_200_000
  const VBUS_ABOVE_VBAT_UV: u32 := 200_000
  const VBUS_ELEVATED_UV := 6_000_000
  const VBAT_VIN_HALF_SLACK_UV: u32 := 80_000

  // ---------------------------------------------------------------- hysteresis

  datatype Hold = Hold(held: bool, lastTrueMs: u64, trueRun: u32, frontRun: u32) {

    function Update(raw: bool, nowMs: u64, holdMs: u64): Hold {
      if raw then
        var run := SatAdd32(trueRun, 1);
        if run >= (if held then HOLD_ARM_RUN else frontRun)
        then Hold(true, nowMs, run, frontRun)
        else Hold(held, lastTrueMs, run, frontRun)
      else
        Hold(held && SatSub(nowMs, lastTrueMs) < holdMs, lastTrueMs, 0, frontRun)
    }

    function UpdateEvidence(evidence: Option<bool>, nowMs: u64, holdMs: u64): Hold {
      match evidence
      case Some(raw) => Update(raw, nowMs, holdMs)
      case None => this
    }
  }

  const RUN_ARMED := Hold(false, 0, 0, HOLD_ARM_RUN)
  const FRONT_ARMED := Hold(false, 0, 0, HOLD_FRONT_RUN)

  // One tick: `verdict` is None when the tick measured nothing.
  datatype Sample = Sample(verdict: Option<bool>, nowMs: u64)

  // One tick that did measure.
  datatype Reading = Reading(raw: bool, nowMs: u64)

  function Feed(start: Hold, samples: seq<Sample>, holdMs: u64): Hold {
    if samples == [] then start
    else
      var last := samples[|samples| - 1];
      Feed(start, samples[..|samples| - 1], holdMs).UpdateEvidence(last.verdict, last.nowMs, holdMs)
  }

  function Replay(start: Hold, e: seq<Reading>, holdMs: u64): Hold {
    if e == [] then start
    else Replay(start, e[..|e| - 1], holdMs).Update(e[|e| - 1].raw, e[|e| - 1].nowMs, holdMs)
  }

  // The ticks that carried evidence, in order.
  function Evidence(samples: seq<Sample>): seq<Reading> {
    if samples == [] then []
    else
      var last := samples[|samples| - 1];
      var before := Evidence(samples[..|samples| - 1]);
      if last.verdict.Some? then before + [Reading(last.verdict.value, last.nowMs)] else before
  }

  ghost predicate Monotonic(e: seq<Reading>) {
    forall i, j :: 0 <= i <= j < |e| ==> e[i].nowMs <= e[j].nowMs
  }

  ghost predicate TrueAt(e: seq<Reading>, k: int) {
    0 <= k < |e| && e[k].raw
  }

  // Reading k closes a run: it and the reading before it are both true.
  ghost predicate PairAt(e: seq<Reading>, k: int) {
    TrueAt(e, k) && TrueAt(e, k - 1)
  }

  // Every false reading after k came less than `holdMs` after it.
  ghost predicate FreshSince(e: seq<Reading>, k: int, holdMs: u64)
    requires 0 <= k < |e|
  {
    forall j :: k < j < |e| && !TrueAt(e, j) ==> SatSub(e[j].nowMs, e[k].nowMs) < holdMs
  }

  /** Ticks without evidence can be inserted or deleted anywhere: they change nothing. */
  lemma {:induction false} NoEvidenceIsInvisible(start: Hold, samples: seq<Sample>, holdMs: u64)
    ensures Feed(start, samples, holdMs) == Replay(start, Evidence(samples), holdMs)
  {
    if samples != [] {
      var init, last := samples[..|samples| - 1], samples[|samples| - 1];
      NoEvidenceIsInvisible(start, init, holdMs);
      var before, e := Evidence(init), Evidence(samples);
      if last.verdict.Some? {
        assert e[..|e| - 1] == before;
      }
    }
  }

  // A hold's run counter tells whether the latest readings were true.
  lemma {:induction false} RunCounter(start: Hold, e: seq<Reading>, holdMs: u64)
    requires start.trueRun == 0
    ensures var h := Replay(start, e, holdMs);
      && h.frontRun == start.frontRun
      && (TrueAt(e, |e| - 1) <==> h.trueRun >= 1)
      && (PairAt(e, |e| - 1) <==> h.trueRun >= 2)
  {
    if e != [] {
      var init := e[..|e| - 1];
      RunCounter(start, init, holdMs);
      assert TrueAt(e, |e| - 2) <==> TrueAt(init, |init| - 1);
    }
  }

  // One more reading: what it says about k, and what it does to the run-armed hold.
  lemma RunArmedStep(e: seq<Reading>, k: int, holdMs: u64)
    requires 0 <= k < |e| - 1
    ensures var n, init := |e| - 1, e[..|e| - 1];
      && (PairAt(e, k) <==> PairAt(init, k))
      && (FreshSince(e, k, holdMs) <==>
           FreshSince(init, k, holdMs) && (e[n].raw || SatSub(e[n].nowMs, e[k].nowMs) < holdMs))
  {
    var n, init := |e| - 1, e[..|e| - 1];
    assert forall j :: 0 <= j < n ==> (TrueAt(e, j) <==> TrueAt(init, j));
    assert TrueAt(e, n) <==> e[n].raw;
  }

  lemma RunArmedMoves(e: seq<Reading>, holdMs: u64)
    requires e != []
    ensures var n := |e| - 1;
      var before, after := Replay(RUN_ARMED, e[..n], holdMs), Replay(RUN_ARMED, e, holdMs);
      if PairAt(e, n) then after.held && after.lastTrueMs == e[n].nowMs
      else
        && after.lastTrueMs == before.lastTrueMs
        && (after.held <==> before.held && (e[n].raw || SatSub(e[n].nowMs, before.lastTrueMs) < holdMs))
  {
    RunCounter(RUN_ARMED, e, holdMs);
  }

  lemma {:induction false} PairIsStamped(e: seq<Reading>, k: int, holdMs: u64)
    requires Monotonic(e) && PairAt(e, k)
    ensures e[k].nowMs <= Replay(RUN_ARMED, e, holdMs).lastTrueMs
    ensures FreshSince(e, k, holdMs) ==> Replay(RUN_ARMED, e, holdMs).held
  {
    RunArmedMoves(e, holdMs);
    if k < |e| - 1 {
      RunArmedStep(e, k, holdMs);
      PairIsStamped(e[..|e| - 1], k, holdMs);
    }
  }

  lemma {:induction false} HeldHasFreshPair(e: seq<Reading>, holdMs: u64) returns (k: int)
    requires Replay(RUN_ARMED, e, holdMs).held
    ensures PairAt(e, k) && FreshSince(e, k, holdMs)
    ensures Replay(RUN_ARMED, e, holdMs).lastTrueMs == e[k].nowMs
  {
    RunArmedMoves(e, holdMs);
    var n := |e| - 1;
    if PairAt(e, n) {
      k := n;
    } else {
      k := HeldHasFreshPair(e[..n], holdMs);
      RunArmedStep(e, k, holdMs);
    }
  }

  /**
   The run-armed hold is a function of history: it is up exactly when some two
   consecutive true readings were followed only by false ones that came less than the
   hold time after them.
   */
  lemma RunArmedEqualsHistory(samples: seq<Sample>, holdMs: u64)
    requires Monotonic(Evidence(samples))
    ensures var e := Evidence(samples);
      Feed(RUN_ARMED, samples, holdMs).held <==> exists k :: PairAt(e, k) && FreshSince(e, k, holdMs)
  {
    var e := Evidence(samples);
    NoEvidenceIsInvisible(RUN_ARMED, samples, holdMs);
    if Feed(RUN_ARMED, samples, holdMs).held {
      var k := HeldHasFreshPair(e, holdMs);
    }
    if k: int :| PairAt(e, k) && FreshSince(e, k, holdMs) {
      PairIsStamped(e, k, holdMs);
    }
  }

  // A closed run that ended less than the hold time before the last reading.
  ghost predicate RecentPairAt(e: seq<Reading>, k: int, holdMs: u64) {
    PairAt(e, k) && e[|e| - 1].nowMs - e[k].nowMs < holdMs
  }

  /** In particular, after a false reading: some run ended less than the hold time before it. */
  lemma AfterFalseReading(samples: seq<Sample>, holdMs: u64)
    requires Monotonic(Evidence(samples))
    requires var e := Evidence(samples); e != [] && !e[|e| - 1].raw
    ensures Feed(RUN_ARMED, samples, holdMs).held <==> exists k :: RecentPairAt(Evidence(samples), k, holdMs)
  {
    var e := Evidence(samples);
    RunArmedEqualsHistory(samples, holdMs);
    assert !TrueAt(e, |e| - 1);
    if k: int :| PairAt(e, k) && FreshSince(e, k, holdMs) {
      assert RecentPairAt(e, k, holdMs);
    }
    if k: int :| RecentPairAt(e, k, holdMs) {
      assert FreshSince(e, k, holdMs);
    }
  }

  /** A lone true reading moves neither the flag of a run-armed hold nor its window. */
  lemma LoneTrueChangesNothing(e: seq<Reading>, holdMs: u64)
    requires TrueAt(e, |e| - 1) && !PairAt(e, |e| - 1)
    ensures var h, before := Replay(RUN_ARMED, e, holdMs), Replay(RUN_ARMED, e[..|e| - 1], holdMs);
      h.held == before.held && h.lastTrueMs == before.lastTrueMs
  {
    RunCounter(RUN_ARMED, e, holdMs);
  }

  /**
   On the same readings the front-armed hold dominates the run-armed one: it is up
   whenever the other is, with a stamp no older. The clock need not be monotonic.
   */
  lemma {:induction false} FrontArmedDominates(e: seq<Reading>, holdMs: u64)
    ensures var r, f := Replay(RUN_ARMED, e, holdMs), Replay(FRONT_ARMED, e, holdMs);
      r.held ==> f.held && r.lastTrueMs <= f.lastTrueMs
  {
    if e != [] {
      var init := e[..|e| - 1];
      FrontArmedDominates(init, holdMs);
      RunCounter(RUN_ARMED, init, holdMs);
      RunCounter(FRONT_ARMED, init, holdMs);
      SameRunCounter(init, holdMs);
    }
  }

  lemma {:induction false} SameRunCounter(e: seq<Reading>, holdMs: u64)
    ensures Replay(RUN_ARMED, e, holdMs).trueRun == Replay(FRONT_ARMED, e, holdMs).trueRun
  {
    if e != [] {
      SameRunCounter(e[..|e| - 1], holdMs);
    }
  }

  // A reading with the hold time that applies to it.
  datatype Timed = Timed(raw: bool, nowMs: u64, holdMs: u64)

  function ReplayTimed(start: Hold, e: seq<Timed>): Hold {
    if e == [] then start
    else
      var last := e[|e| - 1];
      ReplayTimed(start, e[..|e| - 1]).Update(last.raw, last.nowMs, last.holdMs)
  }

  ghost predicate InOrder(e: seq<Timed>) {
    forall i, j :: 0 <= i <= j < |e| ==> e[i].nowMs <= e[j].nowMs
  }

  // No false reading after k came its hold time or more later.
  ghost predicate Lasting(e: seq<Timed>, k: int)
    requires 0 <= k < |e|
  {
    forall j :: k < j < |e| && !e[j].raw ==> SatSub(e[j].nowMs, e[k].nowMs) < e[j].holdMs
  }

  /**
   Reading k arms a front-armed hold: it is true, and either so was the one before it, or
   the hold is cold, no earlier arming reading having lasted till then.
   */
  ghost predicate Arms(e: seq<Timed>, k: int)
    decreases k
  {
    && 0 <= k < |e| && e[k].raw
    && ((k > 0 && e[k - 1].raw) || forall j :: 0 <= j < k && Arms(e, j) ==> !Lasting(e[..k], j))
  }

  lemma {:induction false} ArmsEarlier(e: seq<Timed>, n: nat, k: int)
    requires k < n <= |e|
    ensures Arms(e, k) <==> Arms(e[..n], k)
    decreases k
  {
    if k >= 0 {
      assert e[..n][..k] == e[..k];
      forall j | 0 <= j < k
        ensures Arms(e, j) <==> Arms(e[..n], j)
      {
        ArmsEarlier(e, n, j);
      }
    }
  }

  lemma {:induction false} TimedRunCounter(e: seq<Timed>)
    ensures var h := ReplayTimed(FRONT_ARMED, e);
      h.frontRun == HOLD_FRONT_RUN && (h.trueRun >= 1 <==> e != [] && e[|e| - 1].raw)
  {
    if e != [] {
      TimedRunCounter(e[..|e| - 1]);
    }
  }

  // What one reading does to a front-armed hold, by the state before it.
  lemma FrontArmedMoves(e: seq<Timed>)
    requires e != []
    ensures var n := |e| - 1;
      var before, after := ReplayTimed(FRONT_ARMED, e[..n]), ReplayTimed(FRONT_ARMED, e);
      if e[n].raw && (!before.held || (n > 0 && e[n - 1].raw)) then after.held && after.lastTrueMs == e[n].nowMs
      else
        && after.lastTrueMs == before.lastTrueMs
        && (after.held <==> before.held && (e[n].raw || SatSub(e[n].nowMs, before.lastTrueMs) < e[n].holdMs))
  {
    TimedRunCounter(e[..|e| - 1]);
  }

  lemma LastingStep(e: seq<Timed>, k: int)
    requires 0 <= k < |e| - 1
    ensures var n := |e| - 1;
      Lasting(e, k) <==> Lasting(e[..n], k) && (e[n].raw || SatSub(e[n].nowMs, e[k].nowMs) < e[n].holdMs)
  {
    var init := e[..|e| - 1];
    assert forall j :: 0 <= j < |init| ==> init[j] == e[j];
  }

  // A hold that is up was stamped by an arming reading that lasted.
  lemma {:induction false} HeldHasArming(e: seq<Timed>) returns (k: int)
    requires InOrder(e) && ReplayTimed(FRONT_ARMED, e).held
    ensures Arms(e, k) && Lasting(e, k) && ReplayTimed(FRONT_ARMED, e).lastTrueMs == e[k].nowMs
    decreases |e|
  {
    var n := |e| - 1;
    var init := e[..n];
    FrontArmedMoves(e);
    if e[n].raw && (!ReplayTimed(FRONT_ARMED, init).held || (n > 0 && e[n - 1].raw)) {
      k := n;
      if !ReplayTimed(FRONT_ARMED, init).held {
        forall j | 0 <= j < n && Arms(e, j)
          ensures !Lasting(init, j)
        {
          ArmsEarlier(e, n, j);
          ArmingIsHeld(init, j);
        }
      }
    } else {
      k := HeldHasArming(init);
      ArmsEarlier(e, n, k);
      LastingStep(e, k);
    }
  }

  lemma {:induction false} ArmingIsHeld(e: seq<Timed>, k: int)
    requires InOrder(e) && Arms(e, k)
    ensures e[k].nowMs <= ReplayTimed(FRONT_ARMED, e).lastTrueMs
    ensures Lasting(e, k) ==> ReplayTimed(FRONT_ARMED, e).held
    decreases |e|
  {
    var n := |e| - 1;
    var init := e[..n];
    FrontArmedMoves(e);
    if k < n {
      ArmsEarlier(e, n, k);
      LastingStep(e, k);
      ArmingIsHeld(init, k);
    } else if ReplayTimed(FRONT_ARMED, init).held {
      var j := HeldHasArming(init);
      ArmsEarlier(e, n, j);
    }
  }

  /**
   The front-armed hold too is a function of history, whatever hold time each reading
   carries: it is up exactly when some arming reading has lasted.
   */
  lemma TimedEqualsHistory(e: seq<Timed>)
    requires InOrder(e)
    ensures ReplayTimed(FRONT_ARMED, e).held <==> exists k :: Arms(e, k) && Lasting(e, k)
  {
    if ReplayTimed(FRONT_ARMED, e).held {
      var k := HeldHasArming(e);
    }
    if k: int :| Arms(e, k) && Lasting(e, k) {
      ArmingIsHeld(e, k);
    }
  }

  // Readings with one hold time for all.
  function Widen(e: seq<Reading>, holdMs: u64): seq<Timed> {
    if e == [] then []
    else
      var last := e[|e| - 1];
      Widen(e[..|e| - 1], holdMs) + [Timed(last.raw, last.nowMs, holdMs)]
  }

  lemma {:induction false} WidenReplays(start: Hold, e: seq<Reading>, holdMs: u64)
    ensures |Widen(e, holdMs)| == |e|
    ensures forall k :: 0 <= k < |e| ==> Widen(e, holdMs)[k] == Timed(e[k].raw, e[k].nowMs, holdMs)
    ensures ReplayTimed(start, Widen(e, holdMs)) == Replay(start, e, holdMs)
  {
    if e != [] {
      var init, wide := e[..|e| - 1], Widen(e, holdMs);
      WidenReplays(start, init, holdMs);
      assert wide[..|wide| - 1] == Widen(init, holdMs);
    }
  }

  /** With one hold time, and ticks without evidence in between, likewise. */
  lemma FrontArmedEqualsHistory(samples: seq<Sample>, holdMs: u64)
    requires Monotonic(Evidence(samples))
    ensures var e := Widen(Evidence(samples), holdMs);
      Feed(FRONT_ARMED, samples, holdMs).held <==> exists k :: Arms(e, k) && Lasting(e, k)
  {
    NoEvidenceIsInvisible(FRONT_ARMED, samples, holdMs);
    WidenReplays(FRONT_ARMED, Evidence(samples), holdMs);
    TimedEqualsHistory(Widen(Evidence(samples), holdMs));
  }

  /** A front-armed hold is up after a false reading only on the strength of a fresh true one. */
  lemma {:induction false} FrontArmedNeedsFreshTrue(e: seq<Reading>, holdMs: u64)
    ensures var f := Replay(FRONT_ARMED, e, holdMs);
      f.held ==> exists k :: TrueAt(e, k) && f.lastTrueMs == e[k].nowMs && FreshSince(e, k, holdMs)
  {
    if e != [] {
      var n := |e| - 1;
      var init := e[..n];
      FrontArmedNeedsFreshTrue(init, holdMs);
      RunCounter(FRONT_ARMED, init, holdMs);
      var before := Replay(FRONT_ARMED, init, holdMs);
      if before.held {
        var k :| TrueAt(init, k) && before.lastTrueMs == init[k].nowMs && FreshSince(init, k, holdMs);
        assert forall j :: 0 <= j < n ==> (TrueAt(e, j) <==> TrueAt(init, j));
        assert TrueAt(e, k);
        assert TrueAt(e, n) <==> e[n].raw;
      }
      if e[n].raw {
        assert TrueAt(e, n) && FreshSince(e, n, holdMs);
      }
    }
  }

  // ---------------------------------------------------------------- SOC direction

  datatype SocTrend = SocTrend(prevRaw: u8, rising: bool, lastRiseMs: u64) {

    function Update(raw: u8, nowMs: u64): SocTrend {
      if raw > prevRaw then SocTrend(raw, true, nowMs)
      else if raw < prevRaw then SocTrend(raw, false, lastRiseMs)
      else SocTrend(raw, rising && SatSub(nowMs, lastRiseMs) < SOC_RISE_HOLD_MS, lastRiseMs)
    }
  }

  const NOTHING_SEEN := SocTrend(U8_MAX, false, 0)

  datatype SocSample = SocSample(raw: u8, nowMs: u64)

  function Track(samples: seq<SocSample>): SocTrend {
    if samples == [] then NOTHING_SEEN
    else
      var last := samples[|samples| - 1];
      Track(samples[..|samples| - 1]).Update(last.raw, last.nowMs)
  }

  // The sample before index k; before the first one the counter is taken as full.
  ghost function Before(samples: seq<SocSample>, k: nat): u8
    requires k < |samples|
  {
    if k == 0 then U8_MAX else samples[k - 1].raw
  }

  // Sample k rose, and the counter has not moved since.
  ghost predicate LastChangeRoseAt(samples: seq<SocSample>, k: int) {
    && 0 <= k < |samples|
    && samples[k].raw > Before(samples, k)
    && forall j :: k < j < |samples| ==> samples[j].raw == samples[k].raw
  }

  ghost predicate RoseRecentlyAt(samples: seq<SocSample>, k: int) {
    LastChangeRoseAt(samples, k) && samples[|samples| - 1].nowMs - samples[k].nowMs < 300_000
  }

  ghost predicate InTimeOrder(samples: seq<SocSample>) {
    forall i, j :: 0 <= i <= j < |samples| ==> samples[i].nowMs <= samples[j].nowMs
  }

  lemma TrendPrevious(samples: seq<SocSample>)
    ensures Track(samples).prevRaw == (if samples == [] then U8_MAX else samples[|samples| - 1].raw)
  {
  }

  // A rise stays the last change as long as the counter repeats itself.
  lemma LastChangeStep(samples: seq<SocSample>, k: int)
    requires 0 <= k < |samples| - 1
    ensures var init := samples[..|samples| - 1];
      LastChangeRoseAt(samples, k) <==>
        LastChangeRoseAt(init, k) && samples[|samples| - 1].raw == init[|init| - 1].raw
  {
    var init := samples[..|samples| - 1];
    assert Before(samples, k) == Before(init, k);
  }

  lemma {:induction false} RiseIsStamped(samples: seq<SocSample>, k: int)
    requires InTimeOrder(samples) && LastChangeRoseAt(samples, k)
    ensures Track(samples).lastRiseMs == samples[k].nowMs
    ensures RoseRecentlyAt(samples, k) ==> Track(samples).rising
  {
    var n := |samples| - 1;
    TrendPrevious(samples[..n]);
    if k < n {
      LastChangeStep(samples, k);
      RiseIsStamped(samples[..n], k);
    }
  }

  lemma {:induction false} RisingHasARise(samples: seq<SocSample>) returns (k: int)
    requires InTimeOrder(samples) && Track(samples).rising
    ensures RoseRecentlyAt(samples, k)
  {
    var n := |samples| - 1;
    var init := samples[..n];
    TrendPrevious(init);
    if samples[n].raw > Before(samples, n) {
      k := n;
    } else {
      k := RisingHasARise(init);
      LastChangeStep(samples, k);
      RiseIsStamped(init, k);
    }
  }

  /**
   The trend says "rising" exactly when the counter's last strict change was a rise
   less than 300 s before the last sample.
   */
  lemma RisingEqualsHistory(samples: seq<SocSample>)
    requires InTimeOrder(samples)
    ensures Track(samples).rising <==> exists k :: RoseRecentlyAt(samples, k)
  {
    if Track(samples).rising {
      var k := RisingHasARise(samples);
    }
    if k: int :| RoseRecentlyAt(samples, k) {
      RiseIsStamped(samples, k);
    }
  }

  // ---------------------------------------------------------------- raw predicates

  // crates/ln8000/src/encoding.rs: the input node is reading twice the cell.
  predicate VinIsDoubledVbat(vbatUv: u32, vinUv: u32) {
    && vbatUv != 0
    && SatSub(vinUv / 2, VBAT_VIN_HALF_SLACK_UV) <= vbatUv <= SatAdd32(vinUv / 2, VBAT_VIN_HALF_SLACK_UV)
  }

  predicate IsReflectionTick(vbusUv: u32, vbatUv: u32, iinUa: u32, vacUnplug: bool) {
    if vbusUv >= VBUS_CHARGING_MIN_UV && iinUa >= IIN_CHARGING_UA then false
    else if vacUnplug then false
    else vbusUv >= VBUS_ONLINE_UV && VinIsDoubledVbat(vbatUv, vbusUv)
  }

  predicate OnlineRaw(vbusUv: u32, vbatUv: u32, iinUa: u32, vacUnplug: bool) {
    if vbusUv >= VBUS_CHARGING_MIN_UV && iinUa >= IIN_CHARGING_UA then true
    else if vacUnplug then false
    else if IsReflectionTick(vbusUv, vbatUv, iinUa, vacUnplug) then false
    else if vbusUv >= VBUS_ELEVATED_UV then true
    else if vbusUv < VBUS_CHARGING_MIN_UV then false
    else if vbatUv > 0 && vbusUv < SatAdd32(vbatUv, VBUS_ABOVE_VBAT_UV) then false
    else true
  }

  function OnlineRawWithEvidence(
    vbusUv: u32, vbatUv: u32, iinUa: u32, vacUnplug: bool, inputReadingsUsable: bool): Option<bool>
  {
    if inputReadingsUsable then
      if IsReflectionTick(vbusUv, vbatUv, iinUa, vacUnplug) then None
      else Some(OnlineRaw(vbusUv, vbatUv, iinUa, vacUnplug))
    else if vacUnplug then Some(false)
    else None
  }

  // (the window ends now, the new length of the run of unplug ticks)
  function UnplugRelease(vacUnplug: bool, iinUa: u32, run: u32): (bool, u32) {
    if !vacUnplug || iinUa >= IIN_CHARGING_UA then (false, 0)
    else (SatAdd32(run, 1) >= UNPLUG_RELEASE_RUN, SatAdd32(run, 1))
  }

  predicate ChargingRaw(onlineHeld: bool, iinUa: u32, iinPeakUa: u32, socRising: bool) {
    onlineHeld && (iinUa >= IIN_CHARGING_UA || iinPeakUa >= IIN_CHARGING_UA || socRising)
  }
}
