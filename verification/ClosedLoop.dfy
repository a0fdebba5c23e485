/**
 The telemetry tick's correction budget (crates/ln8000-kmdf/src/lib.rs) driving the bus
 corrections (crates/ln8000-kmdf/src/hvdcp.rs) on an adapter that moves one step a pulse,
 under a live current and a constant cell.
 */
module ClosedLoop {
  import opened Widths
  import opened HvdcpBand
  import opened WindowCorrection

  const ELEVATED_MIN_VIN_UV := 6_000_000

  // What the surroundings contribute to one tick.
  datatype Beat = Beat(nowMs: u64, inBypass: bool, transferring: bool)

  datatype Loop = Loop(budget: Budget, vin: int, corrections: nat)

  // A bus the corrections deal with at all: below it the input is a five-volt one.
  predicate Elevated(vin: int) {
    vin >= ELEVATED_MIN_VIN_UV
  }

  // A live transfer is not pulsed down, only up from below its band.
  predicate MayWalk(vin: int, vbatUv: u32, transferring: bool) {
    !transferring || vin < BandFloor(vbatUv)
  }

  // The tick looks for a correction.
  predicate OffTarget(vin: int, vbatUv: u32) {
    Elevated(vin) && !InBand(vin, vbatUv)
  }

  function Seen(l: Loop, vbatUv: u32, b: Beat): OutOfBandTick
    requires 0 < l.vin <= I32_MAX && vbatUv > 0
  {
    Tick(l.vin, vbatUv, b.nowMs, b.inBypass, MayWalk(l.vin, vbatUv, b.transferring))
  }

  function Corrects(l: Loop, vbatUv: u32, b: Beat): Speed
    requires 0 < l.vin <= I32_MAX && vbatUv > 0
  {
    if OffTarget(l.vin, vbatUv) then Decide(l.budget, Seen(l, vbatUv, b)) else Hold
  }

  function Corrected(vin: int, vbatUv: u32): int {
    vin + STEP_UV * NudgePulses(vin, vbatUv, false)
  }

  function Next(l: Loop, vbatUv: u32, b: Beat): Loop
    requires 0 < l.vin <= I32_MAX && vbatUv > 0
  {
    if !OffTarget(l.vin, vbatUv) then l.(budget := Cleared(l.budget))
    else
      var budget := After(l.budget, Seen(l, vbatUv, b));
      if Corrects(l, vbatUv, b) == Hold then l.(budget := budget)
      else Loop(budget, Corrected(l.vin, vbatUv), l.corrections + 1)
  }

  // ---------------------------------------------------------------- the range of the bus

  lemma {:induction false} TrimStaysAbove(vin: int, stop: int, floor: int, budget: nat)
    ensures var k := TrimCount(vin, stop, floor, budget);
      k > 0 ==> vin - STEP_UV * k > stop - STEP_UV
    decreases budget
  {
    if vin > stop && vin > floor && budget > 0 {
      TrimStaysAbove(vin - STEP_UV, stop, floor, budget - 1);
    }
  }

  lemma {:induction false} BoostStaysBelow(vin: int, stop: int, top: int, budget: nat)
    ensures var k := BoostCount(vin, stop, top, budget);
      k > 0 ==> vin + STEP_UV * k < stop + STEP_UV
    decreases budget
  {
    if vin < stop && budget > 0 && vin + STEP_UV <= top {
      BoostStaysBelow(vin + STEP_UV, stop, top, budget - 1);
    }
  }

  lemma CorrectedInRange(vin: int, vbatUv: u32)
    requires 0 < vin <= I32_MAX && vbatUv > 0
    ensures 0 < Corrected(vin, vbatUv) <= I32_MAX
  {
    TrimStaysAbove(vin, TargetVbus(vbatUv), WindowFloor(vbatUv), MAX_TRIM_DEC);
    BoostStaysBelow(vin, TargetVbus(vbatUv), TrimTarget(vbatUv), MAX_BOOST_INC);
  }

  // The ticks from a start on.
  ghost function Drive(start: Loop, vbatUv: u32, beats: seq<Beat>): (l: Loop)
    requires 0 < start.vin <= I32_MAX && vbatUv > 0
    ensures 0 < l.vin <= I32_MAX
  {
    if beats == [] then start
    else
      var before := Drive(start, vbatUv, beats[..|beats| - 1]);
      CorrectedInRange(before.vin, vbatUv);
      Next(before, vbatUv, beats[|beats| - 1])
  }

  // A budget just cleared.
  ghost predicate Fresh(l: Loop) {
    0 < l.vin <= I32_MAX && l.corrections == 0 && l.budget == Cleared(l.budget)
  }

  // ---------------------------------------------------------------- no stall

  // Distance to the target, as the budget measures it.
  function Distance(vin: int, vbatUv: u32): nat {
    if vin < TargetVbus(vbatUv) then TargetVbus(vbatUv) - vin else vin - TargetVbus(vbatUv)
  }

  // One correction has landed within a step of the target.
  predicate Near(vin: int, vbatUv: u32) {
    Distance(vin, vbatUv) < STEP_UV
  }

  /**
   How the stall count is kept low: on the way every correction is progress still to be
   credited; within a step of the target one more lands in the band.
   */
  ghost predicate OnCourse(l: Loop, vbatUv: u32) {
    var d := Distance(l.vin, vbatUv);
    || (l.budget.bestErrUv >= d
        && (l.budget.stallN == 0 || (l.budget.stallN == 1 && d + WINDOW_PROGRESS_UV < l.budget.bestErrUv)))
    || (Near(l.vin, vbatUv) && l.budget.stallN <= 1)
    || (InBand(l.vin, vbatUv) && l.budget.stallN <= 2)
  }

  ghost predicate Steered(l: Loop, vbatUv: u32, vin0: int) {
    && 0 < l.vin <= I32_MAX
    && l.vin == Nudged(vin0, vbatUv, l.corrections)
    && l.corrections <= CorrectionsNeeded(vin0, vbatUv)
    && OnCourse(l, vbatUv)
  }

  // Where one correction leaves the bus: much nearer, or near, or in the band.
  lemma CorrectionLands(vin: int, vbatUv: u32)
    requires SteerableCell(vbatUv) && 0 < vin <= I32_MAX && !InBand(vin, vbatUv)
    ensures var v' := Corrected(vin, vbatUv);
      && (Distance(v', vbatUv) + MAX_TRIM_DEC * STEP_UV <= Distance(vin, vbatUv) || Near(v', vbatUv))
      && (Near(vin, vbatUv) ==> InBand(v', vbatUv))
  {
    NudgedOnce(vin, vbatUv);
    if vin > BandTop(vbatUv) {
      NudgeFromAbove(vin, vbatUv);
    } else {
      NudgeFromBelow(vin, vbatUv);
    }
    if Near(vin, vbatUv) {
      SecondCorrectionLands(vin, vbatUv);
    }
  }

  // Out of the band the corrections are not used up.
  lemma NotYetSettled(vin0: int, vbatUv: u32, n: nat)
    requires SteerableCell(vbatUv) && vin0 > 0 && n <= CorrectionsNeeded(vin0, vbatUv)
    requires !InBand(Nudged(vin0, vbatUv, n), vbatUv)
    ensures n < CorrectionsNeeded(vin0, vbatUv)
  {
    AnyBusSettles(vin0, vbatUv);
  }

  lemma StepIsSteered(l: Loop, vbatUv: u32, vin0: int, b: Beat)
    requires SteerableCell(vbatUv) && vin0 > 0 && Steered(l, vbatUv, vin0)
    ensures Steered(Next(l, vbatUv, b), vbatUv, vin0)
    ensures Corrects(l, vbatUv, b) != Slow
    ensures OffTarget(l.vin, vbatUv) && MayWalk(l.vin, vbatUv, b.transferring)
            && SatSub(b.nowMs, l.budget.lastNudgeMs) >= WINDOW_NUDGE_MS ==>
      Corrects(l, vbatUv, b) != Hold
  {
    if OffTarget(l.vin, vbatUv) {
      CorrectedInRange(l.vin, vbatUv);
      CorrectionLands(l.vin, vbatUv);
      NotYetSettled(vin0, vbatUv, l.corrections);
      assert Error(Seen(l, vbatUv, b)) == Distance(l.vin, vbatUv);
      assert Nudged(vin0, vbatUv, l.corrections + 1) == Corrected(l.vin, vbatUv);
    }
  }

  lemma {:induction false} DriveIsSteered(start: Loop, vbatUv: u32, beats: seq<Beat>)
    requires SteerableCell(vbatUv) && Fresh(start)
    ensures Steered(Drive(start, vbatUv, beats), vbatUv, start.vin)
  {
    if beats != [] {
      DriveIsSteered(start, vbatUv, beats[..|beats| - 1]);
      StepIsSteered(Drive(start, vbatUv, beats[..|beats| - 1]), vbatUv, start.vin, beats[|beats| - 1]);
    }
  }

  /**
   On an ideal adapter and a cell of 2.9 to 4.7 V, whatever the ticks bring: the loop never
   slows to the stall interval, it makes no more corrections than the band arithmetic needs,
   a bus in the band or below 6.0 V is left alone, and any other is corrected by a tick 10 s
   after the last correction that finds no transfer to spare.
   */
  lemma TheLoopNeverStalls(start: Loop, vbatUv: u32, beats: seq<Beat>, b: Beat)
    requires SteerableCell(vbatUv) && Fresh(start)
    ensures var l := Drive(start, vbatUv, beats);
      && l.corrections <= CorrectionsNeeded(start.vin, vbatUv)
      && l.vin == Nudged(start.vin, vbatUv, l.corrections)
      && (l.corrections == CorrectionsNeeded(start.vin, vbatUv) ==> InBand(l.vin, vbatUv))
      && Corrects(l, vbatUv, b) != Slow
      && (!OffTarget(l.vin, vbatUv) ==> Corrects(l, vbatUv, b) == Hold && Next(l, vbatUv, b).vin == l.vin)
      && (OffTarget(l.vin, vbatUv) && MayWalk(l.vin, vbatUv, b.transferring)
          && SatSub(b.nowMs, l.budget.lastNudgeMs) >= WINDOW_NUDGE_MS ==>
           Next(l, vbatUv, b).corrections == l.corrections + 1)
  {
    DriveIsSteered(start, vbatUv, beats);
    StepIsSteered(Drive(start, vbatUv, beats), vbatUv, start.vin, b);
    AnyBusSettles(start.vin, vbatUv);
  }

  // ---------------------------------------------------------------- who gets lost

  // Out of the band, and either too low for the loop or answered with no pulse.
  predicate Lost(vin: int, vbatUv: u32) {
    !InBand(vin, vbatUv) && (!Elevated(vin) || NudgePulses(vin, vbatUv, false) == 0)
  }

  /** A lost bus stays where it is, and out of the band, on every continuation. */
  lemma {:induction false} LostForGood(start: Loop, vbatUv: u32, beats: seq<Beat>)
    requires 0 < start.vin <= I32_MAX && vbatUv > 0 && Lost(start.vin, vbatUv)
    ensures Drive(start, vbatUv, beats).vin == start.vin
  {
    if beats != [] {
      LostForGood(start, vbatUv, beats[..|beats| - 1]);
    }
  }

  // Cells whose target is a whole step above 6.0 V and below the ceiling; and the one cell
  // whose band ends at 6.0 V exactly.
  predicate LedCell(vbatUv: u32) {
    2_950_000 <= vbatUv <= 4_700_000 || vbatUv == 2_800_000
  }

  lemma LedStep(vin: int, vbatUv: u32)
    requires LedCell(vbatUv) && OffTarget(vin, vbatUv)
    ensures NudgePulses(vin, vbatUv, false) != 0
    ensures Elevated(Corrected(vin, vbatUv)) || InBand(Corrected(vin, vbatUv), vbatUv)
  {
    TrimStaysAbove(vin, TargetVbus(vbatUv), WindowFloor(vbatUv), MAX_TRIM_DEC);
    TrimLands(vin, TargetVbus(vbatUv), WindowFloor(vbatUv), MAX_TRIM_DEC);
    BoostLands(vin, TargetVbus(vbatUv), TrimTarget(vbatUv), MAX_BOOST_INC);
  }

  lemma {:induction false} LedCellsAreNotLost(start: Loop, vbatUv: u32, beats: seq<Beat>)
    requires LedCell(vbatUv) && 0 < start.vin <= I32_MAX && Elevated(start.vin)
    ensures var l := Drive(start, vbatUv, beats);
      (Elevated(l.vin) || InBand(l.vin, vbatUv)) && !Lost(l.vin, vbatUv)
  {
    if beats != [] {
      LedCellsAreNotLost(start, vbatUv, beats[..|beats| - 1]);
      var before := Drive(start, vbatUv, beats[..|beats| - 1]);
      if OffTarget(before.vin, vbatUv) {
        LedStep(before.vin, vbatUv);
      }
    }
    var l := Drive(start, vbatUv, beats);
    if OffTarget(l.vin, vbatUv) {
      LedStep(l.vin, vbatUv);
    }
  }

  // An elevated bus that gets lost at once, or by its first correction.
  function Decoy(vbatUv: u32): int {
    if vbatUv < 2_800_000 then ELEVATED_MIN_VIN_UV
    else if vbatUv < 2_950_000 then TargetVbus(vbatUv) + STEP_UV + 1
    else PUMP_VIN_TARGET_CEIL_UV
  }

  const FIRST_BEAT := Beat(WINDOW_NUDGE_MS, false, false)

  lemma DecoyGetsLost(vbatUv: u32)
    requires vbatUv > 0 && !LedCell(vbatUv)
    ensures 0 < Decoy(vbatUv) <= I32_MAX && Elevated(Decoy(vbatUv))
    ensures Lost(Decoy(vbatUv), vbatUv)
            || (OffTarget(Decoy(vbatUv), vbatUv) && Lost(Corrected(Decoy(vbatUv), vbatUv), vbatUv))
  {
    var vin, target, floor := Decoy(vbatUv), TargetVbus(vbatUv), WindowFloor(vbatUv);
    if 2_800_000 <= vbatUv < 2_950_000 {
      assert TrimCount(vin - 2 * STEP_UV, target, floor, MAX_TRIM_DEC - 2) == 0;
      assert TrimCount(vin - STEP_UV, target, floor, MAX_TRIM_DEC - 1) == 1;
      assert Trim(vin, vbatUv) == 2;
    }
  }

  ghost predicate GetsLost(vbatUv: u32, start: Loop, beats: seq<Beat>)
    requires vbatUv > 0
  {
    Fresh(start) && Elevated(start.vin) && Lost(Drive(start, vbatUv, beats).vin, vbatUv)
  }

  /**
   The exact cells the whole loop can serve: some elevated bus is lost on the way, under some
   ticks, if and only if the cell is neither within 2.95 V and 4.7 V nor exactly 2.8 V. From
   2.9 V to 2.95 V the corrections alone would settle, but one of them can land below 6.0 V,
   where the loop no longer looks.
   */
  lemma LostExactly(vbatUv: u32)
    requires vbatUv > 0
    ensures (exists start, beats :: GetsLost(vbatUv, start, beats)) <==> !LedCell(vbatUv)
  {
    if LedCell(vbatUv) {
      forall start, beats
        ensures !GetsLost(vbatUv, start, beats)
      {
        if Fresh(start) && Elevated(start.vin) {
          LedCellsAreNotLost(start, vbatUv, beats);
        }
      }
    } else {
      DecoyGetsLost(vbatUv);
      var start := Loop(Budget(0, U32_MAX, 0), Decoy(vbatUv), 0);
      assert Drive(start, vbatUv, []) == start;
      if Lost(start.vin, vbatUv) {
        assert GetsLost(vbatUv, start, []);
      } else {
        assert [FIRST_BEAT][..0] == [];
        assert Drive(start, vbatUv, [FIRST_BEAT]) == Next(start, vbatUv, FIRST_BEAT);
        assert Corrects(start, vbatUv, FIRST_BEAT) != Hold;
        assert GetsLost(vbatUv, start, [FIRST_BEAT]);
      }
    }
  }
}
