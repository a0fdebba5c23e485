/**
 The backoff of the HVDCP re-elevation in the telemetry tick of
 crates/ln8000-kmdf/src/lib.rs.
 */
module ReElevation {
  import opened Widths

  const RE_ELEVATE_FIRST_MS: u64 := 60_000
  const RE_ELEVATE_BACKOFF_MAX_MS: u64 := 300_000

  // `owns` is the five-volt state without a transfer in which re-elevation owns negotiation.
  datatype Tick = Tick(owns: bool, nowMs: Millis)

  datatype Backoff = Backoff(attempts: u32, nextMs: u64, backoffMs: u64)

  const IDLE := Backoff(0, 0, 0)

  function NextBackoff(backoffMs: u64): u64 {
    if backoffMs == 0 then RE_ELEVATE_FIRST_MS
    else Min(Min(backoffMs * 2, U64_MAX), RE_ELEVATE_BACKOFF_MAX_MS)
  }

  predicate Fires(b: Backoff, t: Tick) {
    t.owns && b.nextMs != 0 && t.nowMs >= b.nextMs
  }

  function After(b: Backoff, t: Tick): Backoff {
    if Fires(b, t) then
      var backoff := NextBackoff(b.backoffMs);
      Backoff(SatAdd32(b.attempts, 1), SatAdd64(t.nowMs, backoff), backoff)
    else if t.owns then
      if b.nextMs == 0 then b.(nextMs := SatAdd64(t.nowMs, RE_ELEVATE_FIRST_MS)) else b
    else if b.nextMs != 0 || b.attempts != 0 then IDLE
    else b
  }

  class Scheduler {
    var attempts: u32
    var nextMs: u64
    var backoffMs: u64

    function Statics(): Backoff
      reads this
    {
      Backoff(attempts, nextMs, backoffMs)
    }

    constructor ()
      ensures Statics() == IDLE
    {
      attempts, nextMs, backoffMs := 0, 0, 0;
    }

    method Tick(t: Tick) returns (wantReelevate: bool)
      modifies this
      ensures Statics() == After(old(Statics()), t)
      ensures wantReelevate <==> Fires(old(Statics()), t)
    {
      wantReelevate := false;
      if t.owns {
        if nextMs == 0 {
          nextMs := SatAdd64(t.nowMs, RE_ELEVATE_FIRST_MS);
        } else if t.nowMs >= nextMs {
          attempts := SatAdd32(attempts, 1);
          backoffMs := if backoffMs == 0 then RE_ELEVATE_FIRST_MS
                       else Min(Min(backoffMs * 2, U64_MAX), RE_ELEVATE_BACKOFF_MAX_MS);
          nextMs := SatAdd64(t.nowMs, backoffMs);
          wantReelevate := true;
        }
      } else if nextMs != 0 || attempts != 0 {
        nextMs, attempts, backoffMs := 0, 0, 0;
      }
    }
  }

  // ---------------------------------------------------------------- runs

  ghost function Run(ticks: seq<Tick>): Backoff {
    if ticks == [] then IDLE else After(Run(ticks[..|ticks| - 1]), ticks[|ticks| - 1])
  }

  // Tick k schedules a re-elevation.
  ghost predicate FiresAt(ticks: seq<Tick>, k: int) {
    0 <= k < |ticks| && Fires(Run(ticks[..k]), ticks[k])
  }

  ghost predicate OwnedThroughout(ticks: seq<Tick>, from: int, to: int) {
    0 <= from <= to <= |ticks| && forall i :: from <= i < to ==> ticks[i].owns
  }

  ghost predicate InOrder(ticks: seq<Tick>) {
    forall i, j :: 0 <= i <= j < |ticks| ==> ticks[i].nowMs <= ticks[j].nowMs
  }

  // 60 s, 120 s, 240 s, and then 300 s for good.
  function Wait(attempt: nat): nat {
    if attempt == 0 then 0 else if attempt == 1 then 60_000 else if attempt == 2 then 120_000
    else if attempt == 3 then 240_000 else 300_000
  }

  lemma WaitIsCappedDoubling(attempt: nat)
    requires attempt > 0
    ensures Wait(attempt) == Min(RE_ELEVATE_BACKOFF_MAX_MS, RE_ELEVATE_FIRST_MS * Pow2(attempt - 1))
  {
    if attempt > 3 {
      Pow2AtLeast(attempt - 1);
    }
    assert Pow2(0) == 1 && Pow2(1) == 2 && Pow2(2) == 4;
  }

  function Pow2(n: nat): nat {
    if n == 0 then 1 else 2 * Pow2(n - 1)
  }

  lemma {:induction false} Pow2AtLeast(n: nat)
    requires n >= 3
    ensures Pow2(n) >= 8
  {
    if n > 3 {
      Pow2AtLeast(n - 1);
    } else {
      assert Pow2(0) == 1 && Pow2(1) == 2 && Pow2(2) == 4;
    }
  }

  // Firings of the episode that is still running.
  ghost function FiredInEpisode(ticks: seq<Tick>): nat {
    if ticks == [] then 0
    else
      var n := |ticks| - 1;
      if !ticks[n].owns then 0 else FiredInEpisode(ticks[..n]) + if FiresAt(ticks, n) then 1 else 0
  }

  // The state always remembers the episode: how often it fired, and from when it may fire again.
  lemma {:induction false} EpisodeMemory(ticks: seq<Tick>) returns (armed: int)
    ensures var b := Run(ticks);
      && b.attempts == Min(FiredInEpisode(ticks), U32_MAX)
      && b.backoffMs == Wait(FiredInEpisode(ticks))
      && (b.nextMs == 0 ==> FiredInEpisode(ticks) == 0)
      && (b.nextMs != 0 ==>
           && OwnedThroughout(ticks, armed, |ticks|) && armed < |ticks|
           && b.nextMs == ticks[armed].nowMs + Max(b.backoffMs, RE_ELEVATE_FIRST_MS)
           && (FiredInEpisode(ticks) > 0 ==> FiresAt(ticks, armed))
           && forall j :: armed < j < |ticks| ==> !FiresAt(ticks, j))
  {
    armed := 0;
    if ticks != [] {
      var n := |ticks| - 1;
      var init := ticks[..n];
      armed := EpisodeMemory(init);
      assert forall j :: 0 <= j < n ==> ticks[..j] == init[..j];
      assert forall j :: 0 <= j < n ==> (FiresAt(ticks, j) <==> FiresAt(init, j));
      if FiresAt(ticks, n) || (ticks[n].owns && Run(init).nextMs == 0) {
        armed := n;
      }
    }
  }

  /** Every re-elevation is scheduled after at least 60 s of uninterrupted ownership. */
  lemma EachFollowsAMinuteOfOwnership(ticks: seq<Tick>, k: int) returns (since: int)
    requires FiresAt(ticks, k)
    ensures OwnedThroughout(ticks, since, k + 1) && since < k
    ensures ticks[k].nowMs - ticks[since].nowMs >= RE_ELEVATE_FIRST_MS
  {
    since := EpisodeMemory(ticks[..k]);
  }

  /**
   Inside one episode the wait after the n-th re-elevation is at least Wait(n): a
   minute, doubled each time up to five.
   */
  lemma BackoffInsideAnEpisode(ticks: seq<Tick>, j: int, k: int)
    requires InOrder(ticks)
    requires j < k && FiresAt(ticks, j) && FiresAt(ticks, k) && OwnedThroughout(ticks, j, k + 1)
    ensures ticks[k].nowMs - ticks[j].nowMs >= Wait(FiredInEpisode(ticks[..j + 1]))
  {
    var armed := EpisodeMemory(ticks[..k]);
    FiringsOnlyGrow(ticks, j + 1, k);
    assert FiresAt(ticks[..k], j) by {
      assert ticks[..k][..j] == ticks[..j];
    }
    assert armed >= j;
  }

  lemma {:induction false} FiringsOnlyGrow(ticks: seq<Tick>, i: int, k: int)
    requires 0 <= i <= k <= |ticks| && OwnedThroughout(ticks, i, k)
    ensures FiredInEpisode(ticks[..i]) <= FiredInEpisode(ticks[..k])
    ensures Wait(FiredInEpisode(ticks[..i])) <= Wait(FiredInEpisode(ticks[..k]))
  {
    if i < k {
      FiringsOnlyGrow(ticks, i, k - 1);
      assert ticks[..k][..k - 1] == ticks[..k - 1];
    }
  }

  /** Across episodes too, two re-elevations are at least 60 s apart. */
  lemma AtLeastAMinuteApart(ticks: seq<Tick>, j: int, k: int)
    requires InOrder(ticks)
    requires j < k && FiresAt(ticks, j) && FiresAt(ticks, k)
    ensures ticks[k].nowMs - ticks[j].nowMs >= RE_ELEVATE_FIRST_MS
  {
    var armed := EpisodeMemory(ticks[..k]);
    assert ticks[..k][..j] == ticks[..j];
    assert FiresAt(ticks[..k], j);
  }

  ghost function Firings(ticks: seq<Tick>): nat {
    if ticks == [] then 0
    else
      var n := |ticks| - 1;
      Firings(ticks[..n]) + if FiresAt(ticks, n) then 1 else 0
  }

  /** A run of any length schedules at most one re-elevation per minute of its duration. */
  lemma {:induction false} AttemptsAreBounded(ticks: seq<Tick>) returns (last: int)
    requires InOrder(ticks) && ticks != []
    ensures Firings(ticks) > 0 ==> FiresAt(ticks, last)
    ensures Firings(ticks) > 0 ==> ticks[last].nowMs - ticks[0].nowMs >= RE_ELEVATE_FIRST_MS * Firings(ticks)
    ensures RE_ELEVATE_FIRST_MS * Firings(ticks) <= ticks[|ticks| - 1].nowMs - ticks[0].nowMs
  {
    last := 0;
    var n := |ticks| - 1;
    if n > 0 {
      var init := ticks[..n];
      last := AttemptsAreBounded(init);
      assert forall j :: 0 <= j < n ==> ticks[..j] == init[..j];
      if FiresAt(ticks, n) {
        if Firings(init) > 0 {
          AtLeastAMinuteApart(ticks, last, n);
        } else {
          var since := EachFollowsAMinuteOfOwnership(ticks, n);
        }
        last := n;
      }
    }
  }

  // ---------------------------------------------------------------- what must happen

  // Where the current wait began: the last re-elevation of the episode still running, or the
  // episode's first tick. No episode is running after a tick that does not own negotiation.
  ghost function WaitingSince(ticks: seq<Tick>): (since: int)
    ensures -1 <= since < |ticks|
  {
    if ticks == [] || !ticks[|ticks| - 1].owns then -1
    else
      var n := |ticks| - 1;
      var before := WaitingSince(ticks[..n]);
      if before < 0 || FiresAt(ticks, n) then n else before
  }

  lemma {:induction false} WaitIsRemembered(ticks: seq<Tick>)
    ensures var b, since := Run(ticks), WaitingSince(ticks);
      && b.attempts == Min(FiredInEpisode(ticks), U32_MAX)
      && b.backoffMs == Wait(FiredInEpisode(ticks))
      && (since < 0 ==> b.nextMs == 0 && FiredInEpisode(ticks) == 0)
      && (since >= 0 ==> b.nextMs == ticks[since].nowMs + Max(Wait(FiredInEpisode(ticks)), 60_000))
  {
    if ticks != [] {
      WaitIsRemembered(ticks[..|ticks| - 1]);
    }
  }

  /**
   Exactly when a re-elevation is scheduled: the tick owns negotiation in a running episode, and
   the wait since the last one in it, or since its first tick, is a minute for the first and
   then the backoff of the number made so far. So an owned wait always ends in one.
   */
  lemma FiresExactly(ticks: seq<Tick>, k: nat)
    requires k < |ticks|
    ensures var since := WaitingSince(ticks[..k]);
      FiresAt(ticks, k) <==>
        ticks[k].owns && since >= 0
        && ticks[k].nowMs - ticks[since].nowMs >= Max(60_000, Wait(FiredInEpisode(ticks[..k])))
  {
    WaitIsRemembered(ticks[..k]);
  }

  /** In particular five minutes of ownership never pass without one. */
  lemma OwnershipIsServed(ticks: seq<Tick>, a: nat, k: nat) returns (j: nat)
    requires InOrder(ticks) && a < k && OwnedThroughout(ticks, a, k + 1) && k < |ticks|
    requires ticks[k].nowMs - ticks[a].nowMs >= 300_000
    ensures a < j <= k && FiresAt(ticks, j)
  {
    FiresExactly(ticks, k);
    var since := WaitingOrServed(ticks, a, k);
    if since > a {
      j := since;
    } else {
      j := k;
    }
  }

  // Owned since tick a, the wait began at a or before, or at a re-elevation after it.
  lemma {:induction false} WaitingOrServed(ticks: seq<Tick>, a: nat, k: nat) returns (since: int)
    requires a < k < |ticks| && OwnedThroughout(ticks, a, k + 1)
    ensures since == WaitingSince(ticks[..k]) && 0 <= since < k
    ensures since > a ==> FiresAt(ticks, since)
  {
    since := WaitingSince(ticks[..k]);
    var init := ticks[..k];
    assert init[..k - 1] == ticks[..k - 1];
    if k - 1 > a {
      var before := WaitingOrServed(ticks, a, k - 1);
    } else {
      WaitIsRemembered(ticks[..a]);
    }
  }
}
