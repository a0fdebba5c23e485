/**
 The 2:1 transfer band of crates/ln8000/src/encoding.rs and the pulse arithmetic of
 crates/ln8000-kmdf/src/hvdcp.rs that steers the bus into it, one QC3 step at a time.
 */
module HvdcpBand {
  import opened Widths

  const STEP_UV := 200_000
  const MICRO_5V_UV: u32 := 5_000_000
  const MAX_PULSE_CNT := 23
  const MAX_TRIM_DEC := 20
  const MAX_BOOST_INC := 23
  const PUMP_VIN_TRIM_UV := 10_500_000
  const PUMP_VIN_TARGET_MIN_UV := 9_500_000
  const PUMP_VIN_TARGET_ABS_MIN_UV := 6_000_000
  const PUMP_VIN_TARGET_CEIL_UV := 9_600_000
  const I32_MAX := 0x7FFF_FFFF

  function Above2Vbat(vbatUv: u32, offset: u32): u32 {
    SatAdd32(SatMul32(vbatUv, 2), offset)
  }

  function BandTop(vbatUv: u32): u32 {
    Above2Vbat(vbatUv, 400_000)
  }

  function BandFloor(vbatUv: u32): u32 {
    Above2Vbat(vbatUv, 200_000)
  }

  predicate InBand(vinUv: int, vbatUv: u32) {
    vinUv > 0 && vbatUv != 0 && BandFloor(vbatUv) <= vinUv <= BandTop(vbatUv)
  }

  function TargetVbus(vbatUv: u32): u32 {
    if vbatUv == 0 then PUMP_VIN_TARGET_MIN_UV
    else Min(Max(Above2Vbat(vbatUv, 300_000), PUMP_VIN_TARGET_ABS_MIN_UV), PUMP_VIN_TARGET_CEIL_UV)
  }

  function TrimTarget(vbatUv: u32): int {
    if vbatUv == 0 then PUMP_VIN_TARGET_MIN_UV
    else if BandTop(vbatUv) > PUMP_VIN_TRIM_UV then PUMP_VIN_TRIM_UV
    else BandTop(vbatUv)
  }

  function WindowFloor(vbatUv: u32): int {
    if vbatUv == 0 then PUMP_VIN_TARGET_MIN_UV
    else if BandFloor(vbatUv) < PUMP_VIN_TARGET_ABS_MIN_UV then PUMP_VIN_TARGET_ABS_MIN_UV
    else AsI32(BandFloor(vbatUv))
  }

  function PulsesTowardTarget(vbatUv: u32): (want: nat)
    ensures want <= MAX_PULSE_CNT
  {
    var target := TargetVbus(vbatUv);
    if target <= MICRO_5V_UV then 0
    else Min((target - MICRO_5V_UV + STEP_UV - 1) / STEP_UV, MAX_PULSE_CNT)
  }

  // DEC pulses of one trim whose estimate starts at vin.
  function TrimCount(vin: int, stop: int, floor: int, budget: nat): nat
    decreases budget
  {
    if vin > stop && vin > floor && budget > 0
    then 1 + TrimCount(vin - STEP_UV, stop, floor, budget - 1)
    else 0
  }

  // INC pulses of one boost whose estimate starts at vin.
  function BoostCount(vin: int, stop: int, top: int, budget: nat): nat
    decreases budget
  {
    if vin < stop && budget > 0
    then 1 + if vin + STEP_UV > top then 0 else BoostCount(vin + STEP_UV, stop, top, budget - 1)
    else 0
  }

  function Trim(vin: int, vbatUv: u32): nat {
    TrimCount(vin, TargetVbus(vbatUv), WindowFloor(vbatUv), MAX_TRIM_DEC)
  }

  function Boost(vin: int, vbatUv: u32): nat {
    BoostCount(vin, TargetVbus(vbatUv), TrimTarget(vbatUv), MAX_BOOST_INC)
  }

  // The signed pulses of one nudge_vin_into_window call on an unlatched bus.
  function NudgePulses(vin: int, vbatUv: u32, deadCurrent: bool): int {
    if vin <= 0 || vbatUv == 0 then 0
    else if vin > TrimTarget(vbatUv) then 0 - Trim(vin, vbatUv)
    else if vin < TargetVbus(vbatUv) && (deadCurrent || vin < WindowFloor(vbatUv)) then Boost(vin, vbatUv)
    else if deadCurrent && vin > WindowFloor(vbatUv) then -1
    else 0
  }

  // One correction with live current, on a brick moving one step a pulse.
  function Correction(vbatUv: u32): int -> int {
    (vin: int) => vin + STEP_UV * NudgePulses(vin, vbatUv, false)
  }

  function Iterate(f: int -> int, x: int, n: nat): int {
    if n == 0 then x else f(Iterate(f, x, n - 1))
  }

  // The bus after n corrections.
  function Nudged(vin: int, vbatUv: u32, n: nat): int {
    Iterate(Correction(vbatUv), vin, n)
  }

  lemma NudgedOnce(vin: int, vbatUv: u32)
    ensures Nudged(vin, vbatUv, 1) == vin + STEP_UV * NudgePulses(vin, vbatUv, false)
  {
    assert Iterate(Correction(vbatUv), vin, 0) == vin;
  }

  lemma {:induction false} IterateAdds(f: int -> int, x: int, m: nat, n: nat)
    ensures Iterate(f, x, m + n) == Iterate(f, Iterate(f, x, m), n)
  {
    if n > 0 {
      IterateAdds(f, x, m, n - 1);
    }
  }

  lemma {:induction false} IterateFixed(f: int -> int, x: int, n: nat)
    requires f(x) == x
    ensures Iterate(f, x, n) == x
  {
    if n > 0 {
      IterateFixed(f, x, n - 1);
    }
  }

  lemma IterateStays(f: int -> int, x: int, n: nat, m: nat)
    requires f(Iterate(f, x, n)) == Iterate(f, x, n) && n <= m
    ensures Iterate(f, x, m) == Iterate(f, x, n)
  {
    IterateAdds(f, x, n, m - n);
    IterateFixed(f, Iterate(f, x, n), m - n);
  }

  lemma {:induction false} IterateSwaps(f: int -> int, x: int, y: int, n: nat)
    requires f(x) == y && f(y) == x
    ensures Iterate(f, x, n) == x || Iterate(f, x, n) == y
  {
    if n > 0 {
      IterateSwaps(f, x, y, n - 1);
    }
  }

  // ---------------------------------------------------------------- where pulses land

  lemma {:induction false} TrimLands(vin: int, stop: int, floor: int, budget: nat)
    requires floor <= stop
    ensures var k := TrimCount(vin, stop, floor, budget);
      && k <= budget
      && (k > 0 ==> vin - STEP_UV * (k - 1) > stop)
      && (k < budget ==> vin - STEP_UV * k <= stop)
    decreases budget
  {
    if vin > stop && budget > 0 {
      TrimLands(vin - STEP_UV, stop, floor, budget - 1);
    }
  }

  lemma {:induction false} BoostLands(vin: int, stop: int, top: int, budget: nat)
    requires stop <= top
    ensures var k := BoostCount(vin, stop, top, budget);
      && k <= budget
      && (k > 0 ==> vin + STEP_UV * (k - 1) < stop)
      && (k < budget ==> vin + STEP_UV * k >= stop)
    decreases budget
  {
    if vin < stop && budget > 0 && vin + STEP_UV <= top {
      BoostLands(vin + STEP_UV, stop, top, budget - 1);
    }
  }

  /**
   Where a trim stops, for any stop and floor: every pulse starts above both, and it stops at the
   first estimate that is not, unless the budget ran out.
   */
  lemma {:induction false} TrimStopsExactly(vin: int, stop: int, floor: int, budget: nat)
    ensures var k := TrimCount(vin, stop, floor, budget);
      && k <= budget
      && (k > 0 ==> vin - STEP_UV * (k - 1) > stop && vin - STEP_UV * (k - 1) > floor)
      && (k < budget ==> vin - STEP_UV * k <= stop || vin - STEP_UV * k <= floor)
    decreases budget
  {
    if vin > stop && vin > floor && budget > 0 {
      TrimStopsExactly(vin - STEP_UV, stop, floor, budget - 1);
    }
  }

  /** And a boost: every pulse starts below the stop and, but for the first, not above the top. */
  lemma {:induction false} BoostStopsExactly(vin: int, stop: int, top: int, budget: nat)
    ensures var k := BoostCount(vin, stop, top, budget);
      && k <= budget
      && (k > 0 ==> vin + STEP_UV * (k - 1) < stop)
      && (k > 1 ==> vin + STEP_UV * (k - 1) <= top)
      && (k < budget ==> vin + STEP_UV * k >= stop || (k > 0 && vin + STEP_UV * k > top))
    decreases budget
  {
    if vin < stop && budget > 0 && vin + STEP_UV <= top {
      BoostStopsExactly(vin + STEP_UV, stop, top, budget - 1);
    }
  }

  // Cells whose target, floor and top are all inside the reach of the pulses.
  predicate SteerableCell(vbatUv: u32) {
    2_900_000 <= vbatUv <= 4_700_000
  }

  // In the band a live bus is left alone.
  lemma InBandIsQuiet(vin: int, vbatUv: u32)
    requires SteerableCell(vbatUv) && InBand(vin, vbatUv)
    ensures NudgePulses(vin, vbatUv, false) == 0
  {
  }

  // One correction from above: inside the trim budget it lands at most one step below the target.
  lemma NudgeFromAbove(vin: int, vbatUv: u32)
    requires SteerableCell(vbatUv) && vin > BandTop(vbatUv)
    ensures var T, v' := TargetVbus(vbatUv), Nudged(vin, vbatUv, 1);
      && (vin - T <= MAX_TRIM_DEC * STEP_UV ==> T - STEP_UV < v' <= T)
      && (vin - T > MAX_TRIM_DEC * STEP_UV ==> v' == vin - MAX_TRIM_DEC * STEP_UV > T)
  {
    TrimLands(vin, TargetVbus(vbatUv), WindowFloor(vbatUv), MAX_TRIM_DEC);
    NudgedOnce(vin, vbatUv);
  }

  // One correction from below: inside the boost budget it lands less than one step above the target.
  lemma NudgeFromBelow(vin: int, vbatUv: u32)
    requires SteerableCell(vbatUv) && 0 < vin < BandFloor(vbatUv)
    ensures var T, v' := TargetVbus(vbatUv), Nudged(vin, vbatUv, 1);
      && (T - vin <= MAX_BOOST_INC * STEP_UV ==> T <= v' < T + STEP_UV)
      && (T - vin > MAX_BOOST_INC * STEP_UV ==> v' == vin + MAX_BOOST_INC * STEP_UV < T)
  {
    BoostLands(vin, TargetVbus(vbatUv), TrimTarget(vbatUv), MAX_BOOST_INC);
    NudgedOnce(vin, vbatUv);
  }

  // Settled after n corrections: in the band, and every later correction sends nothing.
  ghost predicate SettledAfter(vin: int, vbatUv: u32, n: nat) {
    && InBand(Nudged(vin, vbatUv, n), vbatUv)
    && forall m: nat :: m >= n ==> QuietAfter(vin, vbatUv, m)
  }

  // Correction m + 1 sends no pulse.
  ghost predicate QuietAfter(vin: int, vbatUv: u32, m: nat) {
    NudgePulses(Nudged(vin, vbatUv, m), vbatUv, false) == 0
  }

  ghost predicate EventuallySettles(vin: int, vbatUv: u32) {
    exists n: nat :: SettledAfter(vin, vbatUv, n)
  }

  lemma QuietPersists(vin: int, vbatUv: u32, n: nat, m: nat)
    requires QuietAfter(vin, vbatUv, n) && n <= m
    ensures Nudged(vin, vbatUv, m) == Nudged(vin, vbatUv, n)
  {
    IterateStays(Correction(vbatUv), vin, n, m);
  }

  lemma ReachedMeansSettled(vin: int, vbatUv: u32, n: nat, later: nat)
    requires SteerableCell(vbatUv) && InBand(Nudged(vin, vbatUv, n), vbatUv) && n <= later
    ensures SettledAfter(vin, vbatUv, later)
  {
    InBandIsQuiet(Nudged(vin, vbatUv, n), vbatUv);
    QuietPersists(vin, vbatUv, n, later);
    forall m: nat | m >= n ensures QuietAfter(vin, vbatUv, m) {
      QuietPersists(vin, vbatUv, n, m);
    }
  }

  /**
   Two corrections suffice: from any bus at most 4.0 V above or 4.6 V below the
   target, two corrections put Vin inside the transfer band, and every later one
   sends no pulse.
   */
  lemma TwoCorrectionsSettle(vin: int, vbatUv: u32)
    requires SteerableCell(vbatUv) && vin > 0
    requires TargetVbus(vbatUv) - MAX_BOOST_INC * STEP_UV <= vin <= TargetVbus(vbatUv) + MAX_TRIM_DEC * STEP_UV
    ensures SettledAfter(vin, vbatUv, 2)
  {
    if InBand(vin, vbatUv) {
      ReachedMeansSettled(vin, vbatUv, 0, 2);
    } else {
      var once := CorrectOnce(vin, vbatUv);
      if InBand(once, vbatUv) {
        ReachedMeansSettled(vin, vbatUv, 1, 2);
      } else {
        SecondCorrectionLands(once, vbatUv);
        IterateAdds(Correction(vbatUv), vin, 1, 1);
        ReachedMeansSettled(vin, vbatUv, 2, 2);
      }
    }
  }

  // The band is one step wide, so what misses it by less than half a step is one pulse away.
  lemma SecondCorrectionLands(vin: int, vbatUv: u32)
    requires SteerableCell(vbatUv) && !InBand(vin, vbatUv)
    requires TargetVbus(vbatUv) - STEP_UV < vin < TargetVbus(vbatUv) + STEP_UV
    ensures InBand(Nudged(vin, vbatUv, 1), vbatUv)
  {
    NudgedOnce(vin, vbatUv);
    if vin > BandTop(vbatUv) {
      assert vin - STEP_UV <= TargetVbus(vbatUv);
      assert TrimCount(vin, TargetVbus(vbatUv), WindowFloor(vbatUv), MAX_TRIM_DEC) == 1;
    } else {
      assert vin + STEP_UV >= TargetVbus(vbatUv);
      assert BoostCount(vin, TargetVbus(vbatUv), TrimTarget(vbatUv), MAX_BOOST_INC) == 1;
    }
  }

  // One correction inside the budgets misses the band by less than half a step, if at all.
  lemma CorrectOnce(vin: int, vbatUv: u32) returns (once: int)
    requires SteerableCell(vbatUv) && vin > 0 && !InBand(vin, vbatUv)
    requires TargetVbus(vbatUv) - MAX_BOOST_INC * STEP_UV <= vin <= TargetVbus(vbatUv) + MAX_TRIM_DEC * STEP_UV
    ensures once == Nudged(vin, vbatUv, 1)
    ensures vin > BandTop(vbatUv) ==> TargetVbus(vbatUv) - STEP_UV < once <= TargetVbus(vbatUv)
    ensures vin < BandFloor(vbatUv) ==> TargetVbus(vbatUv) <= once < TargetVbus(vbatUv) + STEP_UV
    ensures InBand(once, vbatUv) <==> BandFloor(vbatUv) <= once <= BandTop(vbatUv)
  {
    once := Nudged(vin, vbatUv, 1);
    if vin > BandTop(vbatUv) {
      NudgeFromAbove(vin, vbatUv);
    } else {
      NudgeFromBelow(vin, vbatUv);
    }
  }

  // One correction per full budget of distance, and two more.
  function CorrectionsNeeded(vin: int, vbatUv: u32): nat {
    var T := TargetVbus(vbatUv);
    2 + if vin > T then (vin - T) / (MAX_TRIM_DEC * STEP_UV) else (T - vin) / (MAX_BOOST_INC * STEP_UV)
  }

  // Out of the budgets' reach one correction uses up a whole one.
  lemma FarCorrectionCounts(vin: int, vbatUv: u32)
    requires SteerableCell(vbatUv) && vin > 0
    requires !(TargetVbus(vbatUv) - MAX_BOOST_INC * STEP_UV <= vin <= TargetVbus(vbatUv) + MAX_TRIM_DEC * STEP_UV)
    ensures Nudged(vin, vbatUv, 1) > 0
    ensures CorrectionsNeeded(Nudged(vin, vbatUv, 1), vbatUv) == CorrectionsNeeded(vin, vbatUv) - 1
  {
    if vin > TargetVbus(vbatUv) {
      NudgeFromAbove(vin, vbatUv);
    } else {
      NudgeFromBelow(vin, vbatUv);
    }
  }

  lemma SettledLater(vin: int, vbatUv: u32, n: nat)
    requires SteerableCell(vbatUv) && SettledAfter(Nudged(vin, vbatUv, 1), vbatUv, n)
    ensures SettledAfter(vin, vbatUv, n + 1)
  {
    IterateAdds(Correction(vbatUv), vin, 1, n);
    ReachedMeansSettled(vin, vbatUv, n + 1, n + 1);
  }

  /** From any positive bus voltage at all, the corrections settle, within a stated number of calls. */
  lemma {:induction false} AnyBusSettles(vin: int, vbatUv: u32)
    requires SteerableCell(vbatUv) && vin > 0
    ensures SettledAfter(vin, vbatUv, CorrectionsNeeded(vin, vbatUv))
    decreases CorrectionsNeeded(vin, vbatUv)
  {
    var T := TargetVbus(vbatUv);
    if T - MAX_BOOST_INC * STEP_UV <= vin <= T + MAX_TRIM_DEC * STEP_UV {
      TwoCorrectionsSettle(vin, vbatUv);
      ReachedMeansSettled(vin, vbatUv, 2, CorrectionsNeeded(vin, vbatUv));
    } else {
      FarCorrectionCounts(vin, vbatUv);
      AnyBusSettles(Nudged(vin, vbatUv, 1), vbatUv);
      SettledLater(vin, vbatUv, CorrectionsNeeded(vin, vbatUv) - 1);
    }
  }

  // ---------------------------------------------------------------- the band in numbers

  /** For a steerable cell target, top and floor are 300, 400 and 200 mV above twice the cell. */
  lemma BandInNumbers(vbatUv: u32, vin: int)
    requires SteerableCell(vbatUv)
    ensures TargetVbus(vbatUv) == Min(2 * vbatUv + 300_000, 9_600_000)
    ensures TrimTarget(vbatUv) == 2 * vbatUv + 400_000 && WindowFloor(vbatUv) == 2 * vbatUv + 200_000
    ensures InBand(vin, vbatUv) <==> 2 * vbatUv + 200_000 <= vin <= 2 * vbatUv + 400_000
  {
  }

  /** For any cell that is known and below 1 kV the three are clamped: target, top and floor. */
  lemma AnyBandInNumbers(vbatUv: u32)
    requires 0 < vbatUv <= 1_000_000_000
    ensures TargetVbus(vbatUv) == Min(Max(2 * vbatUv + 300_000, 6_000_000), 9_600_000)
    ensures TrimTarget(vbatUv) == Min(2 * vbatUv + 400_000, 10_500_000)
    ensures WindowFloor(vbatUv) == Max(2 * vbatUv + 200_000, 6_000_000)
    ensures MAX_TRIM_DEC == 20 && MAX_BOOST_INC == 23 && STEP_UV == 200_000
  {
  }

  /** For every other cell the target stays within 6.0 and 9.6 V; an unknown one is taken for 9.5 V and not corrected. */
  lemma TargetIsClamped(vbatUv: u32, vin: int, deadCurrent: bool)
    ensures 6_000_000 <= TargetVbus(vbatUv) <= 9_600_000 && TrimTarget(vbatUv) <= 10_500_000
    ensures TargetVbus(0) == TrimTarget(0) == WindowFloor(0) == 9_500_000
    ensures vbatUv == 0 || vin <= 0 ==> NudgePulses(vin, vbatUv, deadCurrent) == 0
  {
  }

  // ---------------------------------------------------------------- a dead current

  // The bus after one correction of a pump that carries nothing.
  function DeadCorrected(vin: int, vbatUv: u32): int {
    vin + 200_000 * NudgePulses(vin, vbatUv, true)
  }

  // The target of a steerable cell, in numbers.
  function Target(vbatUv: u32): int {
    Min(2 * vbatUv + 300_000, 9_600_000)
  }

  /**
   One correction under a dead current, on a steerable cell: from the target to the top of the
   band exactly one pulse down, but for the one cell whose floor is its target; above the band
   as with a live current; below the target it boosts, in reach to the target or less than one
   step past it. It raises the bus only from below the target.
   */
  lemma DeadCorrectionLands(vin: int, vbatUv: u32)
    requires SteerableCell(vbatUv) && vin > 0
    ensures var target, top, v' := Target(vbatUv), 2 * vbatUv + 400_000, DeadCorrected(vin, vbatUv);
      && (target <= vin <= top ==>
           NudgePulses(vin, vbatUv, true) == if vbatUv == 4_700_000 && vin == 9_600_000 then 0 else -1)
      && (vin > top ==>
           NudgePulses(vin, vbatUv, true) == NudgePulses(vin, vbatUv, false) < 0
           && (vin - target <= 4_000_000 ==> target - 200_000 < v' <= target)
           && (vin - target > 4_000_000 ==> v' == vin - 4_000_000))
      && (vin < target ==>
           (target - vin <= 4_600_000 ==> target <= v' < target + 200_000)
           && (target - vin > 4_600_000 ==> v' == vin + 4_600_000))
      && (v' > vin <==> vin < target)
  {
    DeadAgreesAbove(vin, vbatUv);
    TrimLands(vin, TargetVbus(vbatUv), WindowFloor(vbatUv), MAX_TRIM_DEC);
    BoostLands(vin, TargetVbus(vbatUv), TrimTarget(vbatUv), MAX_BOOST_INC);
  }

  // Above the band, the current does not matter.
  lemma DeadAgreesAbove(vin: int, vbatUv: u32)
    ensures vin > TrimTarget(vbatUv) ==> NudgePulses(vin, vbatUv, true) == NudgePulses(vin, vbatUv, false)
  {
  }

  function DeadNudged(vin: int, vbatUv: u32, n: nat): int {
    if n == 0 then vin else DeadCorrected(DeadNudged(vin, vbatUv, n - 1), vbatUv)
  }

  lemma DeadStep(vin: int, vbatUv: u32)
    requires SteerableCell(vbatUv) && vbatUv < 4_700_000
    requires Target(vbatUv) - 200_000 <= vin < Target(vbatUv) + 200_000
    ensures NudgePulses(vin, vbatUv, true) == if vin >= Target(vbatUv) then -1 else 1
    ensures Target(vbatUv) - 200_000 <= DeadCorrected(vin, vbatUv) < Target(vbatUv) + 200_000
  {
    DeadCorrectionLands(vin, vbatUv);
    BandInNumbers(vbatUv, vin);
  }

  /**
   Any number of corrections under a dead current, from within a step of the target: the bus
   stays there, moving by exactly one pulse each, down from the target or above and up from
   below it.
   */
  lemma {:induction false} DeadCurrentSeesaws(vin: int, vbatUv: u32, n: nat)
    requires SteerableCell(vbatUv) && vbatUv < 4_700_000
    requires Target(vbatUv) - 200_000 <= vin < Target(vbatUv) + 200_000
    ensures var v := DeadNudged(vin, vbatUv, n);
      && Target(vbatUv) - 200_000 <= v < Target(vbatUv) + 200_000
      && NudgePulses(v, vbatUv, true) == if v >= Target(vbatUv) then -1 else 1
  {
    if n > 0 {
      DeadCurrentSeesaws(vin, vbatUv, n - 1);
      DeadStep(DeadNudged(vin, vbatUv, n - 1), vbatUv);
    }
    DeadStep(DeadNudged(vin, vbatUv, n), vbatUv);
  }

  /** As long as it is at the target or above, every further dead correction lowers the bus. */
  lemma {:induction false} DeadCurrentOnlyLowers(vin: int, vbatUv: u32, n: nat)
    requires SteerableCell(vbatUv) && vbatUv < 4_700_000 && vin > 0
    requires forall k: nat :: k <= n ==> DeadNudged(vin, vbatUv, k) >= Target(vbatUv)
    ensures DeadNudged(vin, vbatUv, n + 1) < DeadNudged(vin, vbatUv, n) <= vin
  {
    if n > 0 {
      DeadCurrentOnlyLowers(vin, vbatUv, n - 1);
    }
    DeadCorrectionLands(DeadNudged(vin, vbatUv, n), vbatUv);
  }

  // ---------------------------------------------------------------- cells that cannot be steered

  lemma StuckOutsideNeverSettles(vin: int, vbatUv: u32)
    requires NudgePulses(vin, vbatUv, false) == 0 && !InBand(vin, vbatUv)
    ensures !EventuallySettles(vin, vbatUv)
  {
    forall n: nat ensures !SettledAfter(vin, vbatUv, n) {
      IterateFixed(Correction(vbatUv), vin, n);
    }
  }

  // Two bus voltages one step apart that keep exchanging pulses.
  lemma SeesawNeverSettles(vin: int, vbatUv: u32)
    requires NudgePulses(vin, vbatUv, false) == 1 && NudgePulses(vin + STEP_UV, vbatUv, false) == -1
    ensures !EventuallySettles(vin, vbatUv)
  {
    forall n: nat ensures !SettledAfter(vin, vbatUv, n) {
      IterateSwaps(Correction(vbatUv), vin, vin + STEP_UV, n);
      assert !QuietAfter(vin, vbatUv, n);
    }
  }

  // A bus voltage that defeats the corrections, for a cell outside the steerable range.
  function Trap(vbatUv: u32): int {
    if vbatUv < 2_800_000 then PUMP_VIN_TARGET_ABS_MIN_UV
    else if vbatUv < 2_900_000 then PUMP_VIN_TARGET_ABS_MIN_UV - 1
    else PUMP_VIN_TARGET_CEIL_UV
  }

  lemma TrapHolds(vbatUv: u32)
    requires !SteerableCell(vbatUv)
    ensures !EventuallySettles(Trap(vbatUv), vbatUv)
  {
    var vin := Trap(vbatUv);
    if 2_800_000 <= vbatUv < 2_900_000 {
      assert BoostCount(vin, TargetVbus(vbatUv), TrimTarget(vbatUv), MAX_BOOST_INC) == 1;
      assert TrimCount(vin, TargetVbus(vbatUv), WindowFloor(vbatUv), MAX_TRIM_DEC - 1) == 0;
      SeesawNeverSettles(vin, vbatUv);
    } else {
      StuckOutsideNeverSettles(vin, vbatUv);
    }
  }

  /**
   The exact cells the corrections can serve: every positive bus voltage settles in
   the band if and only if the cell is within 2.9 V and 4.7 V. Below, the absolute
   6.0 V floor (and above, the 9.6 V ceiling) overrides the band.
   */
  lemma SettlesExactly(vbatUv: u32)
    ensures (forall vin :: 0 < vin <= I32_MAX ==> EventuallySettles(vin, vbatUv)) <==> SteerableCell(vbatUv)
  {
    if SteerableCell(vbatUv) {
      forall vin | 0 < vin <= I32_MAX ensures EventuallySettles(vin, vbatUv) {
        AnyBusSettles(vin, vbatUv);
      }
    } else {
      TrapHolds(vbatUv);
      assert 0 < Trap(vbatUv) <= I32_MAX;
    }
  }
}
