/**
 The lock-free gate of read_gauge_if_due (crates/ln8000-kmdf/src/lib.rs): any number of
 telemetry ticks race, in any interleaving of their three atomic steps, for the right to
 poll the fuel gauge.
 */
module GaugeGate {
  import opened Widths

  const GAUGE_POLL_MS := 30_000

  // How far a tick has come; a tick that has loaded found itself due by what it loaded.
  datatype Progress = Stamped | Loaded(lastMs: u64) | Done

  // `lastMs` is the shared atomic; `winners` are the ticks that polled, oldest first.
  datatype Gate = Gate(lastMs: u64, ticks: map<nat, Progress>, winners: seq<nat>)

  const CLOSED := Gate(0, map[], [])

  // One atomic step of one tick.
  datatype Action = TakeStamp(id: nat) | LoadLast(id: nat) | CompareExchange(id: nat)

  predicate Due(nowMs: u64, lastMs: u64) {
    lastMs == 0 || SatSub(nowMs, lastMs) >= GAUGE_POLL_MS
  }

  // Tick `id` takes the stamp stamps[id].
  function Step(stamps: seq<u64>, g: Gate, a: Action): Gate {
    if a.id >= |stamps| then g
    else
      var id, nowMs := a.id, stamps[a.id];
      match a
      case TakeStamp(_) => if id in g.ticks then g else g.(ticks := g.ticks[id := Stamped])
      case LoadLast(_) =>
        if id in g.ticks && g.ticks[id] == Stamped
        then g.(ticks := g.ticks[id := if Due(nowMs, g.lastMs) then Loaded(g.lastMs) else Done])
        else g
      case CompareExchange(_) =>
        if id in g.ticks && g.ticks[id].Loaded? then
          var done := g.(ticks := g.ticks[id := Done]);
          if g.lastMs == g.ticks[id].lastMs then done.(lastMs := nowMs, winners := g.winners + [id]) else done
        else g
  }

  function Run(stamps: seq<u64>, actions: seq<Action>): Gate {
    if actions == [] then CLOSED
    else Step(stamps, Run(stamps, actions[..|actions| - 1]), actions[|actions| - 1])
  }

  // The stamp of a tick that takes part.
  function StampOf(stamps: seq<u64>, id: nat): u64 {
    if id < |stamps| then stamps[id] else 0
  }

  ghost predicate BookedApart(stamps: seq<u64>, earlier: nat, later: nat) {
    StampOf(stamps, earlier) == 0 || StampOf(stamps, later) - StampOf(stamps, earlier) >= GAUGE_POLL_MS
  }

  /**
   Winners are different ticks that are through; the shared word is the last winner's stamp;
   whoever holds a loaded word is due by it; and each winner is a polling window after the one
   before, unless that one's stamp is zero.
   */
  ghost predicate Consistent(stamps: seq<u64>, g: Gate) {
    && (forall k :: 0 <= k < |g.winners| ==>
         g.winners[k] < |stamps| && g.winners[k] in g.ticks && g.ticks[g.winners[k]] == Done)
    && (forall i, j :: 0 <= i < j < |g.winners| ==> g.winners[i] != g.winners[j])
    && g.lastMs == (if g.winners == [] then 0 else StampOf(stamps, g.winners[|g.winners| - 1]))
    && (forall id :: id in g.ticks && g.ticks[id].Loaded? ==> id < |stamps| && Due(stamps[id], g.ticks[id].lastMs))
    && (forall k :: 0 < k < |g.winners| ==> BookedApart(stamps, g.winners[k - 1], g.winners[k]))
  }

  // A successful exchange: the new winner was not through yet, and is due by the shared word.
  lemma WinIsConsistent(stamps: seq<u64>, g: Gate, id: nat)
    requires Consistent(stamps, g)
    requires id in g.ticks && g.ticks[id].Loaded? && g.ticks[id].lastMs == g.lastMs
    ensures Consistent(stamps, Gate(StampOf(stamps, id), g.ticks[id := Done], g.winners + [id]))
  {
    var winners := g.winners + [id];
    assert forall k :: 0 <= k < |g.winners| ==> winners[k] == g.winners[k] && g.winners[k] != id;
    forall k | 0 < k < |winners|
      ensures BookedApart(stamps, winners[k - 1], winners[k])
    {
      if k < |g.winners| {
        assert BookedApart(stamps, g.winners[k - 1], g.winners[k]);
      }
    }
  }

  lemma StepIsConsistent(stamps: seq<u64>, g: Gate, a: Action)
    requires Consistent(stamps, g)
    ensures Consistent(stamps, Step(stamps, g, a))
  {
    var id := a.id;
    if a.CompareExchange? && id in g.ticks && g.ticks[id].Loaded? && g.ticks[id].lastMs == g.lastMs {
      WinIsConsistent(stamps, g, id);
    } else {
      assert Step(stamps, g, a).winners == g.winners;
    }
  }

  lemma {:induction false} EveryInterleavingIsConsistent(stamps: seq<u64>, actions: seq<Action>)
    ensures Consistent(stamps, Run(stamps, actions))
  {
    if actions != [] {
      var init := actions[..|actions| - 1];
      EveryInterleavingIsConsistent(stamps, init);
      StepIsConsistent(stamps, Run(stamps, init), actions[|actions| - 1]);
    }
  }

  /**
   After a poll with a non-zero stamp, over every interleaving, each later poll is a whole
   polling window further away.
   */
  lemma {:induction false} WindowsAreOwnedOnce(stamps: seq<u64>, actions: seq<Action>, i: nat, j: nat)
    requires i < j < |Run(stamps, actions).winners|
    requires StampOf(stamps, Run(stamps, actions).winners[i]) != 0
    ensures var w := Run(stamps, actions).winners;
      StampOf(stamps, w[j]) - StampOf(stamps, w[i]) >= 30_000 * (j - i)
    decreases j
  {
    EveryInterleavingIsConsistent(stamps, actions);
    var w := Run(stamps, actions).winners;
    assert BookedApart(stamps, w[j - 1], w[j]);
    if i < j - 1 {
      WindowsAreOwnedOnce(stamps, actions, i, j - 1);
    }
  }

  // Two polls of the run fall into one window.
  ghost predicate WindowShared(stamps: seq<u64>, actions: seq<Action>) {
    var w := Run(stamps, actions).winners;
    exists i, j :: 0 <= i < j < |w| && StampOf(stamps, w[j]) - StampOf(stamps, w[i]) < 30_000
  }

  // The clock is read in order: a stamp is never below one taken before it.
  ghost predicate InClockOrder(stamps: seq<u64>, actions: seq<Action>) {
    forall i, j :: 0 <= i < j < |actions| && actions[i].TakeStamp? && actions[j].TakeStamp?
                   && actions[i].id < |stamps| && actions[j].id < |stamps| ==>
      stamps[actions[i].id] <= stamps[actions[j].id]
  }

  // One tick is stamped zero, and another within the first window.
  ghost predicate ZeroAndEarly(stamps: seq<u64>, zero: nat, early: nat) {
    zero < |stamps| && early < |stamps| && zero != early && stamps[zero] == 0 && stamps[early] < 30_000
  }

  /** In any interleaving at all, a shared window names such a pair of ticks. */
  lemma SharingNeedsZero(stamps: seq<u64>, actions: seq<Action>) returns (zero: nat, early: nat)
    requires WindowShared(stamps, actions)
    ensures ZeroAndEarly(stamps, zero, early)
  {
    EveryInterleavingIsConsistent(stamps, actions);
    var w := Run(stamps, actions).winners;
    var i, j :| 0 <= i < j < |w| && StampOf(stamps, w[j]) - StampOf(stamps, w[i]) < 30_000;
    if StampOf(stamps, w[i]) != 0 {
      WindowsAreOwnedOnce(stamps, actions, i, j);
      assert false;
    }
    zero, early := w[i], w[j];
  }

  // The tick stamped zero goes through, and then the early one.
  function OneAfterTheOther(zero: nat, early: nat): seq<Action> {
    [TakeStamp(zero), LoadLast(zero), CompareExchange(zero), TakeStamp(early), LoadLast(early), CompareExchange(early)]
  }

  // The three steps of one tick.
  function Alone(id: nat): seq<Action> {
    [TakeStamp(id), LoadLast(id), CompareExchange(id)]
  }

  lemma RunSnoc(stamps: seq<u64>, actions: seq<Action>, a: Action)
    ensures Run(stamps, actions + [a]) == Step(stamps, Run(stamps, actions), a)
  {
    assert (actions + [a])[..|actions|] == actions;
  }

  lemma ZeroLetsShare(stamps: seq<u64>, zero: nat, early: nat)
    requires ZeroAndEarly(stamps, zero, early)
    ensures InClockOrder(stamps, OneAfterTheOther(zero, early))
    ensures Run(stamps, OneAfterTheOther(zero, early)).winners == [zero, early]
  {
    var first := [] + Alone(zero);
    UndisturbedPollsExactly(stamps, [], zero);
    UndisturbedPollsExactly(stamps, first, early);
    assert OneAfterTheOther(zero, early) == first + Alone(early);
  }

  /**
   Exactly when the gate can fail, by the stamps its ticks bring: on a clock read in order,
   some interleaving lets two polls share a window if and only if one tick is stamped zero
   and another within the first window.
   */
  lemma SharedExactly(stamps: seq<u64>)
    ensures (exists actions :: InClockOrder(stamps, actions) && WindowShared(stamps, actions)) <==>
            (exists zero: nat, early: nat :: ZeroAndEarly(stamps, zero, early))
  {
    if actions :| InClockOrder(stamps, actions) && WindowShared(stamps, actions) {
      var zero, early := SharingNeedsZero(stamps, actions);
    }
    if zero: nat, early: nat :| ZeroAndEarly(stamps, zero, early) {
      var actions := OneAfterTheOther(zero, early);
      ZeroLetsShare(stamps, zero, early);
      assert [zero, early][0] == zero && [zero, early][1] == early;
      assert WindowShared(stamps, actions);
    }
  }

  // The three steps of one tick, with no other in between.
  lemma Undisturbed(stamps: seq<u64>, g: Gate, id: nat)
    requires id < |stamps| && id !in g.ticks
    ensures var taken := Step(stamps, g, TakeStamp(id));
      var loaded := Step(stamps, taken, LoadLast(id));
      Step(stamps, loaded, CompareExchange(id)).winners
        == if g.lastMs == 0 || stamps[id] - g.lastMs >= 30_000 then g.winners + [id] else g.winners
    ensures Step(stamps, Step(stamps, Step(stamps, g, TakeStamp(id)), LoadLast(id)), CompareExchange(id)).ticks
         == g.ticks[id := Done]
  {
    var taken := Step(stamps, g, TakeStamp(id));
    assert taken.ticks[id] == Stamped && taken.lastMs == g.lastMs && taken.winners == g.winners;
    var loaded := Step(stamps, taken, LoadLast(id));
    assert loaded.ticks[id] == if Due(stamps[id], g.lastMs) then Loaded(g.lastMs) else Done;
    assert loaded.lastMs == g.lastMs && loaded.winners == g.winners;
  }

  /**
   Exactly when an undisturbed tick polls, after any interleaving: nobody has polled yet, or the
   last poll was stamped zero, or it is 30 s or more past. So due ticks go on polling.
   */
  lemma UndisturbedPollsExactly(stamps: seq<u64>, actions: seq<Action>, id: nat)
    requires id < |stamps| && id !in Run(stamps, actions).ticks
    ensures var w := Run(stamps, actions).winners;
      var due := w == [] || StampOf(stamps, w[|w| - 1]) == 0 || stamps[id] - StampOf(stamps, w[|w| - 1]) >= 30_000;
      Run(stamps, actions + Alone(id)).winners == if due then w + [id] else w
    ensures Run(stamps, actions + Alone(id)).ticks == Run(stamps, actions).ticks[id := Done]
  {
    EveryInterleavingIsConsistent(stamps, actions);
    assert actions + Alone(id) == actions + [TakeStamp(id)] + [LoadLast(id)] + [CompareExchange(id)];
    RunSnoc(stamps, actions, TakeStamp(id));
    RunSnoc(stamps, actions + [TakeStamp(id)], LoadLast(id));
    RunSnoc(stamps, actions + [TakeStamp(id)] + [LoadLast(id)], CompareExchange(id));
    Undisturbed(stamps, Run(stamps, actions), id);
  }
}
