/**
 The operation journal (crates/core/src/journal.rs) and what can be read back from it. The
 timestamp, request id, severity and duration of a record are left out.
 */
module Journal {
  import opened Widths
  import opened Outcomes
  import opened SmbPolicy

  datatype State = Closed | Idle | Detecting | Ready | Faulted

  datatype RetriedOp = ReadOp | WriteOp | RerunOp

  datatype EventKind =
    | Open(ok: bool)
    | Close(ok: bool)
    | Read(addr: u16, value: bv8)
    | Write(addr: u16, value: bv8)
    | Detect(adapter: AdapterType, rawStatus: bv8, rawResult: bv8, waitedMs: nat)
    | Policy(adapter: AdapterType, iclUa: u32, iclRaw: bv8, qc2: Option<Qc2Voltage>, pumpEligible: bool)
    | Retry(retried: RetriedOp, attempt: u8)
    | Reset(ok: bool)
    | StateChange(from: State, to: State)
    | Error(failedOp: string, error: ChargerError)

  datatype Event = Event(number: u64, kind: EventKind)

  // What one pass over the journal, oldest record first, accumulates.
  datatype Ledger = Ledger(
    readEvents: nat,
    writeEvents: nat,
    retryEvents: nat,
    resetEvents: nat,
    closeEvents: nat,
    state: State,
    chained: bool,
    // Detection reruns, and writes to the detection command, since the last return to idle.
    reruns: nat,
    restarts: nat,
    replayed: map<u16, bv8>,
    // The last value read from each address.
    seen: map<u16, bv8>)

  const BLANK := Ledger(0, 0, 0, 0, 0, Closed, true, 0, 0, map[], map[])

  function Note(l: Ledger, k: EventKind): Ledger {
    match k
    case Read(addr, value) => l.(readEvents := l.readEvents + 1, seen := l.seen[addr := value])
    case Write(addr, value) =>
      l.(writeEvents := l.writeEvents + 1, replayed := l.replayed[addr := value],
         restarts := l.restarts + (if addr == CMD_APSD then 1 else 0))
    case Retry(RerunOp, _) => l.(reruns := l.reruns + 1)
    case Retry(_, _) => l.(retryEvents := l.retryEvents + 1)
    case Reset(_) => l.(resetEvents := l.resetEvents + 1)
    case Close(_) => l.(closeEvents := l.closeEvents + 1)
    case StateChange(from, to) =>
      l.(state := to, chained := l.chained && from == l.state && from != to,
         reruns := if to == Idle then 0 else l.reruns,
         restarts := if to == Idle then 0 else l.restarts)
    case Open(_) => l
    case Detect(_, _, _, _) => l
    case Policy(_, _, _, _, _) => l
    case Error(_, _) => l
  }

  function Digest(events: seq<Event>): Ledger {
    if events == [] then BLANK
    else Note(Digest(events[..|events| - 1]), events[|events| - 1].kind)
  }

  // --- the same facts stated without the pass ---

  function Count(p: EventKind -> bool, events: seq<Event>): nat {
    if events == [] then 0 else (if p(events[0].kind) then 1 else 0) + Count(p, events[1..])
  }

  // The last state change leads to the current state.
  ghost predicate EndsIn(events: seq<Event>, state: State) {
    (exists k :: 0 <= k < |events| && LastChange(events, k) && events[k].kind.to == state)
    || (state == Closed && forall k :: 0 <= k < |events| ==> !events[k].kind.StateChange?)
  }

  ghost predicate LastChange(events: seq<Event>, k: nat)
    requires k < |events|
  {
    events[k].kind.StateChange? && forall i :: k < i < |events| ==> !events[i].kind.StateChange?
  }

  // Each state change starts where the journal before it ends, and moves.
  ghost predicate Chained(events: seq<Event>) {
    forall k :: 0 <= k < |events| && events[k].kind.StateChange? ==>
      EndsIn(events[..k], events[k].kind.from) && events[k].kind.from != events[k].kind.to
  }

  datatype Access = ReadAccess | WriteAccess

  // The value a record carries for an address, in one kind of access.
  function Carried(e: Event, how: Access, addr: u16): Option<bv8> {
    match e.kind
    case Read(a, value) => if how == ReadAccess && a == addr then Some(value) else None
    case Write(a, value) => if how == WriteAccess && a == addr then Some(value) else None
    case _ => None
  }

  // The last such access of an address carried this value.
  ghost predicate LastCarried(events: seq<Event>, how: Access, addr: u16, value: bv8) {
    exists k :: 0 <= k < |events| && Carried(events[k], how, addr) == Some(value)
                && forall i :: k < i < |events| ==> Carried(events[i], how, addr) == None
  }

  function Collected(l: Ledger, how: Access): map<u16, bv8> {
    if how == ReadAccess then l.seen else l.replayed
  }

  lemma {:induction false} CountSnoc(p: EventKind -> bool, events: seq<Event>, e: Event)
    ensures Count(p, events + [e]) == Count(p, events) + (if p(e.kind) then 1 else 0)
  {
    if events == [] {
      assert events + [e] == [e];
    } else {
      assert (events + [e])[1..] == events[1..] + [e];
      CountSnoc(p, events[1..], e);
    }
  }

  lemma {:induction false} DigestCounts(events: seq<Event>)
    ensures var l := Digest(events);
      && l.readEvents == Count((k: EventKind) => k.Read?, events)
      && l.writeEvents == Count((k: EventKind) => k.Write?, events)
      && l.resetEvents == Count((k: EventKind) => k.Reset?, events)
      && l.closeEvents == Count((k: EventKind) => k.Close?, events)
      && l.retryEvents == Count((k: EventKind) => k.Retry? && k.retried != RerunOp, events)
  {
    if events != [] {
      var n := |events| - 1;
      DigestCounts(events[..n]);
      assert events == events[..n] + [events[n]];
      CountSnoc((k: EventKind) => k.Read?, events[..n], events[n]);
      CountSnoc((k: EventKind) => k.Write?, events[..n], events[n]);
      CountSnoc((k: EventKind) => k.Reset?, events[..n], events[n]);
      CountSnoc((k: EventKind) => k.Close?, events[..n], events[n]);
      CountSnoc((k: EventKind) => k.Retry? && k.retried != RerunOp, events[..n], events[n]);
    }
  }

  lemma {:induction false} DigestState(events: seq<Event>)
    ensures EndsIn(events, Digest(events).state)
  {
    if events != [] {
      var n := |events| - 1;
      DigestState(events[..n]);
      if events[n].kind.StateChange? {
        assert LastChange(events, n);
      } else if k: nat :| k < n && LastChange(events[..n], k) && events[k].kind.to == Digest(events[..n]).state {
        assert LastChange(events, k);
      }
    }
  }

  // A journal ends in one state only.
  lemma EndIsUnique(events: seq<Event>, a: State, b: State)
    requires EndsIn(events, a) && EndsIn(events, b)
    ensures a == b
  {
  }

  // A record extends a chained journal exactly when it continues it.
  lemma ChainSnoc(init: seq<Event>, e: Event)
    ensures Chained(init + [e]) <==>
      Chained(init) && (e.kind.StateChange? ==> EndsIn(init, e.kind.from) && e.kind.from != e.kind.to)
  {
    var events := init + [e];
    assert events[..|init|] == init;
    assert forall k :: 0 <= k < |init| ==> init[..k] == events[..k] && events[k] == init[k];
  }

  lemma {:induction false} DigestChain(events: seq<Event>)
    ensures Digest(events).chained <==> Chained(events)
  {
    if events != [] {
      var n := |events| - 1;
      var init, e := events[..n], events[n];
      assert events == init + [e];
      DigestChain(init);
      DigestState(init);
      ChainSnoc(init, e);
      if e.kind.StateChange? && EndsIn(init, e.kind.from) {
        EndIsUnique(init, e.kind.from, Digest(init).state);
      }
    }
  }

  lemma NoteCollects(l: Ledger, e: Event, how: Access, addr: u16)
    ensures var was, now := Collected(l, how), Collected(Note(l, e.kind), how);
      match Carried(e, how, addr)
      case Some(value) => addr in now && now[addr] == value
      case None => (addr in now <==> addr in was) && (addr in now ==> now[addr] == was[addr])
  {
  }

  lemma LastCarriedStays(init: seq<Event>, e: Event, how: Access, addr: u16, value: bv8)
    requires LastCarried(init, how, addr, value) && Carried(e, how, addr) == None
    ensures LastCarried(init + [e], how, addr, value)
  {
    var k :| 0 <= k < |init| && Carried(init[k], how, addr) == Some(value)
             && forall i :: k < i < |init| ==> Carried(init[i], how, addr) == None;
    assert (init + [e])[k] == init[k];
  }

  lemma {:induction false} DigestCollects(events: seq<Event>, how: Access, addr: u16)
    ensures var found := Collected(Digest(events), how);
      if addr in found then LastCarried(events, how, addr, found[addr])
      else forall k :: 0 <= k < |events| ==> Carried(events[k], how, addr) == None
  {
    if events != [] {
      var n := |events| - 1;
      var init, e := events[..n], events[n];
      DigestCollects(init, how, addr);
      NoteCollects(Digest(init), e, how, addr);
      assert Digest(events) == Note(Digest(init), e.kind);
      assert events == init + [e];
      var was := Collected(Digest(init), how);
      match Carried(e, how, addr) {
        case Some(value) =>
          assert LastCarried(events, how, addr, value);
        case None =>
          if addr in was {
            LastCarriedStays(init, e, how, addr, was[addr]);
          }
      }
    }
  }
}
