/**
 The budget of the bus corrections in the telemetry tick of
 crates/ln8000-kmdf/src/lib.rs: progress buys fast corrections, a stall slows them.
 */
module WindowCorrection {
  import opened Widths
  import opened HvdcpBand

  const WINDOW_NUDGE_MS := 10_000
  const WINDOW_STALL_MS := 60_000
  const WINDOW_STALL_MAX := 4
  const WINDOW_PROGRESS_UV: u32 := 50_000

  // What an out-of-band tick decides on. The adapter voltage comes from a signed 32-bit
  // sample; `cellUv` is not zero.
  datatype Tick = Tick(vbusUv: int, cellUv: u32, nowMs: u64, inBypass: bool, walkAllowed: bool)

  type OutOfBandTick = t: Tick | 0 <= t.vbusUv <= I32_MAX && t.cellUv > 0
    witness Tick(0, 1, 0, false, false)

  // vbus_uv.abs_diff(target)
  function Error(t: OutOfBandTick): (e: u32)
    ensures e <= I32_MAX
  {
    var target := TargetVbus(t.cellUv);
    if t.vbusUv < target then target - t.vbusUv else t.vbusUv - target
  }

  datatype Budget = Budget(lastNudgeMs: u64, bestErrUv: u32, stallN: u32)

  datatype Speed = Hold | Fast | Urgent | Slow

  // Progress resets the stall count.
  function Credited(b: Budget, t: OutOfBandTick): Budget {
    if SatAdd32(Error(t), WINDOW_PROGRESS_UV) < b.bestErrUv then b.(bestErrUv := Error(t), stallN := 0) else b
  }

  function Decide(b: Budget, t: OutOfBandTick): Speed {
    var c := Credited(b, t);
    var cooldown := if c.stallN < WINDOW_STALL_MAX then WINDOW_NUDGE_MS else WINDOW_STALL_MS;
    var urgent := t.inBypass && c.stallN == 0;
    var cooled := SatSub(t.nowMs, c.lastNudgeMs) >= cooldown;
    if !t.walkAllowed || !(urgent || cooled) then Hold
    else if c.stallN >= WINDOW_STALL_MAX then Slow
    else if cooled then Fast
    else Urgent
  }

  function After(b: Budget, t: OutOfBandTick): Budget {
    var c := Credited(b, t);
    if Decide(b, t) == Hold then c else c.(lastNudgeMs := t.nowMs, stallN := SatAdd32(c.stallN, 1))
  }

  // Back in the band (or no elevated input): the episode is over.
  function Cleared(b: Budget): Budget {
    b.(bestErrUv := U32_MAX, stallN := 0)
  }

  class Corrector {
    var lastWindowNudgeMs: u64
    var windowBestErrUv: u32
    var windowStallN: u32

    function Statics(): Budget
      reads this
    {
      Budget(lastWindowNudgeMs, windowBestErrUv, windowStallN)
    }

    constructor ()
      ensures Statics() == Budget(0, U32_MAX, 0)
    {
      lastWindowNudgeMs, windowBestErrUv, windowStallN := 0, U32_MAX, 0;
    }

    method OutOfBand(t: OutOfBandTick) returns (correct: bool)
      modifies this
      ensures Statics() == After(old(Statics()), t)
      ensures correct <==> Decide(old(Statics()), t) != Hold
    {
      var err := Error(t);
      if SatAdd32(err, WINDOW_PROGRESS_UV) < windowBestErrUv {
        windowBestErrUv := err;
        windowStallN := 0;
      }
      var cooldown := if windowStallN < WINDOW_STALL_MAX then WINDOW_NUDGE_MS else WINDOW_STALL_MS;
      var urgent := t.inBypass && windowStallN == 0;
      correct := t.walkAllowed && (urgent || SatSub(t.nowMs, lastWindowNudgeMs) >= cooldown);
      if correct {
        lastWindowNudgeMs := t.nowMs;
        windowStallN := SatAdd32(windowStallN, 1);
      }
    }

    method BackInBand()
      modifies this
      ensures Statics() == Cleared(old(Statics()))
    {
      if windowBestErrUv != U32_MAX || windowStallN != 0 {
        windowBestErrUv := U32_MAX;
        windowStallN := 0;
      }
    }
  }

  // ---------------------------------------------------------------- one episode

  // The budget after the ticks of one episode, and how many corrections of each speed they made.
  ghost function Episode(b: Budget, ticks: seq<OutOfBandTick>): Budget {
    if ticks == [] then b else After(Episode(b, ticks[..|ticks| - 1]), ticks[|ticks| - 1])
  }

  ghost function SpeedAt(b: Budget, ticks: seq<OutOfBandTick>, k: nat): Speed
    requires k < |ticks|
  {
    Decide(Episode(b, ticks[..k]), ticks[k])
  }

  ghost function Corrections(b: Budget, ticks: seq<OutOfBandTick>, speeds: set<Speed>): nat {
    if ticks == [] then 0
    else
      var n := |ticks| - 1;
      Corrections(b, ticks[..n], speeds) + if Decide(Episode(b, ticks[..n]), ticks[n]) in speeds then 1 else 0
  }

  // Progress still to be made, in whole progress steps.
  function StepsLeft(b: Budget): nat {
    b.bestErrUv / WINDOW_PROGRESS_UV
  }

  // Corrections below the stall limit the budget still admits.
  ghost function FastLeft(b: Budget): nat {
    WINDOW_STALL_MAX * StepsLeft(b) + Max(WINDOW_STALL_MAX - b.stallN, 0)
  }

  // Urgent corrections the budget still admits.
  ghost function UrgentLeft(b: Budget): nat {
    StepsLeft(b) + if b.stallN == 0 then 1 else 0
  }

  // A tick spends what it uses: fast corrections are paid from a potential that never grows.
  lemma BudgetIsSpent(b: Budget, t: OutOfBandTick)
    ensures var speed := Decide(b, t);
      && FastLeft(After(b, t)) + (if speed in {Fast, Urgent} then 1 else 0) <= FastLeft(b)
      && UrgentLeft(After(b, t)) + (if speed == Urgent then 1 else 0) <= UrgentLeft(b)
  {
    var c := Credited(b, t);
    if c.bestErrUv != b.bestErrUv {
      assert c.bestErrUv + WINDOW_PROGRESS_UV < b.bestErrUv;
      assert StepsLeft(c) + 1 <= StepsLeft(b);
    }
  }

  lemma {:induction false} EpisodeSpends(b: Budget, ticks: seq<OutOfBandTick>)
    ensures Corrections(b, ticks, {Fast, Urgent}) + FastLeft(Episode(b, ticks)) <= FastLeft(b)
    ensures Corrections(b, ticks, {Urgent}) + UrgentLeft(Episode(b, ticks)) <= UrgentLeft(b)
  {
    if ticks != [] {
      var n := |ticks| - 1;
      EpisodeSpends(b, ticks[..n]);
      BudgetIsSpent(Episode(b, ticks[..n]), ticks[n]);
    }
  }

  lemma {:induction false} EpisodeSplits(b: Budget, ticks: seq<OutOfBandTick>, speeds: set<Speed>)
    requires ticks != []
    ensures Episode(b, ticks) == Episode(After(b, ticks[0]), ticks[1..])
    ensures Corrections(b, ticks, speeds) ==
      (if Decide(b, ticks[0]) in speeds then 1 else 0) + Corrections(After(b, ticks[0]), ticks[1..], speeds)
  {
    var n := |ticks| - 1;
    assert Episode(b, []) == b;
    if n > 0 {
      EpisodeSplits(b, ticks[..n], speeds);
      assert ticks[..n][1..] == ticks[1..][..n - 1];
    } else {
      assert ticks[..0] == [];
      assert ticks[1..] == [];
    }
  }

  /**
   In one out-of-band episode whose first error is e, whatever errors follow, the
   corrections made below the stall limit number at most 4 * (1 + e / 50 000), and of
   those at most 1 + e / 50 000 are urgent.
   */
  lemma FastCorrectionsAreBounded(b: Budget, ticks: seq<OutOfBandTick>)
    requires ticks != [] && b == Cleared(b)
    ensures var steps := 1 + Error(ticks[0]) / WINDOW_PROGRESS_UV;
      && Corrections(b, ticks, {Fast, Urgent}) <= WINDOW_STALL_MAX * steps
      && Corrections(b, ticks, {Urgent}) <= steps
  {
    var t := ticks[0];
    var credited := Credited(b, t);
    assert credited == b.(bestErrUv := Error(t), stallN := 0);
    assert Credited(credited, t) == credited;
    EpisodeSplits(b, ticks, {Fast, Urgent});
    EpisodeSplits(b, ticks, {Urgent});
    EpisodeSpends(After(b, t), ticks[1..]);
    BudgetIsSpent(credited, t);
    assert After(credited, t) == After(b, t) && Decide(credited, t) == Decide(b, t);
  }

  /** Each speed keeps its distance from the correction before it; only the urgent one may be near. */
  lemma CorrectionsKeepTheirDistance(b: Budget, ticks: seq<OutOfBandTick>, j: nat, k: nat)
    requires j < k < |ticks|
    requires forall i, i' :: 0 <= i <= i' < |ticks| ==> ticks[i].nowMs <= ticks[i'].nowMs
    requires SpeedAt(b, ticks, j) != Hold
    ensures SpeedAt(b, ticks, k) == Fast ==> ticks[k].nowMs - ticks[j].nowMs >= WINDOW_NUDGE_MS
    ensures SpeedAt(b, ticks, k) == Slow ==> ticks[k].nowMs - ticks[j].nowMs >= WINDOW_STALL_MS
  {
    assert ticks[..k][..j] == ticks[..j];
    LastNudgeIsNoOlder(b, ticks[..k], j);
  }

  lemma {:induction false} LastNudgeIsNoOlder(b: Budget, ticks: seq<OutOfBandTick>, j: nat)
    requires j < |ticks| && SpeedAt(b, ticks, j) != Hold
    requires forall i, i' :: 0 <= i <= i' < |ticks| ==> ticks[i].nowMs <= ticks[i'].nowMs
    ensures Episode(b, ticks).lastNudgeMs >= ticks[j].nowMs
  {
    var n := |ticks| - 1;
    if j < n {
      assert ticks[..n][..j] == ticks[..j];
      LastNudgeIsNoOlder(b, ticks[..n], j);
    }
  }

  // ---------------------------------------------------------------- the budget as history

  // Tick n of an episode shows progress: it is the first, or more than 50 mV nearer to the
  // target than the last tick that did.
  ghost predicate Progress(ticks: seq<OutOfBandTick>, n: nat)
    requires n < |ticks|
    decreases n, 1
  {
    n == 0 || Error(ticks[n]) + 50_000 < Error(ticks[LastProgress(ticks, n - 1)])
  }

  // The last tick up to n that showed progress.
  ghost function LastProgress(ticks: seq<OutOfBandTick>, n: nat): (k: nat)
    requires n < |ticks|
    ensures k <= n
    decreases n, 2
  {
    if Progress(ticks, n) then n else LastProgress(ticks, n - 1)
  }

  ghost function CorrectionsSince(b: Budget, ticks: seq<OutOfBandTick>, from: nat, to: nat): nat
    requires from <= to <= |ticks|
  {
    if from == to then 0
    else CorrectionsSince(b, ticks, from, to - 1) + if SpeedAt(b, ticks, to - 1) != Hold then 1 else 0
  }

  // The time of the last correction before tick n, in the episode or before it.
  ghost function LastCorrectionMs(b: Budget, ticks: seq<OutOfBandTick>, n: nat): u64
    requires n <= |ticks|
  {
    if n == 0 then b.lastNudgeMs
    else if SpeedAt(b, ticks, n - 1) != Hold then ticks[n - 1].nowMs
    else LastCorrectionMs(b, ticks, n - 1)
  }

  lemma EpisodeSnoc(b: Budget, ticks: seq<OutOfBandTick>, n: nat)
    requires n < |ticks|
    ensures Episode(b, ticks[..n + 1]) == After(Episode(b, ticks[..n]), ticks[n])
  {
    assert ticks[..n + 1][..n] == ticks[..n];
  }

  // What one tick does to the budget.
  lemma AfterExactly(b: Budget, t: OutOfBandTick)
    ensures var progress, corrects := Error(t) + 50_000 < b.bestErrUv, Decide(b, t) != Hold;
      var stallN := if progress then 0 else b.stallN;
      && After(b, t).bestErrUv == (if progress then Error(t) else b.bestErrUv)
      && After(b, t).stallN == (if corrects then SatAdd32(stallN, 1) else stallN)
      && After(b, t).lastNudgeMs == (if corrects then t.nowMs else b.lastNudgeMs)
  {
  }

  lemma DecideExactly(b: Budget, t: OutOfBandTick)
    ensures var stallN := if Error(t) + 50_000 < b.bestErrUv then 0 else b.stallN;
      var since := SatSub(t.nowMs, b.lastNudgeMs);
      Decide(b, t) != Hold <==>
        t.walkAllowed && ((stallN < 4 && since >= 10_000) || since >= 60_000 || (t.inBypass && stallN == 0))
  {
  }

  // The three fields are what history says they are.
  ghost predicate TellsHistory(e: Budget, b: Budget, ticks: seq<OutOfBandTick>, n: nat)
    requires 0 < n <= |ticks|
  {
    var k := LastProgress(ticks, n - 1);
    && e.bestErrUv == Error(ticks[k])
    && e.stallN == CorrectionsSince(b, ticks, k, n) <= n
    && e.lastNudgeMs == LastCorrectionMs(b, ticks, n)
  }

  lemma {:induction false} BudgetEqualsHistory(b: Budget, ticks: seq<OutOfBandTick>, n: nat)
    requires b == Cleared(b) && 0 < n <= |ticks| <= U32_MAX
    ensures TellsHistory(Episode(b, ticks[..n]), b, ticks, n)
  {
    var m := n - 1;
    EpisodeSnoc(b, ticks, m);
    AfterExactly(Episode(b, ticks[..m]), ticks[m]);
    if m > 0 {
      BudgetEqualsHistory(b, ticks, m);
    } else {
      assert ticks[..0] == [];
      assert Progress(ticks, 0);
    }
    if Progress(ticks, m) {
      assert CorrectionsSince(b, ticks, m, m) == 0;
    }
  }

  /**
   When a tick corrects, by history alone: it is allowed to walk, and the last correction is
   10 s past with fewer than four corrections since the last progress, or 60 s past in any
   case, or else the chip is in an elevated bypass not corrected since the last progress.
   */
  lemma CorrectsExactly(b: Budget, ticks: seq<OutOfBandTick>, n: nat)
    requires b == Cleared(b) && n < |ticks| <= U32_MAX
    ensures var since := SatSub(ticks[n].nowMs, LastCorrectionMs(b, ticks, n));
      var made := CorrectionsSince(b, ticks, LastProgress(ticks, n), n);
      SpeedAt(b, ticks, n) != Hold <==>
        ticks[n].walkAllowed &&
        ((made < 4 && since >= 10_000) || since >= 60_000 || (ticks[n].inBypass && made == 0))
  {
    DecideExactly(Episode(b, ticks[..n]), ticks[n]);
    if n == 0 {
      assert ticks[..0] == [];
    } else {
      BudgetEqualsHistory(b, ticks, n);
    }
  }
}
