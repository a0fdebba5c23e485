/**
 The charger session of crates/core/src/driver.rs over a register file that may fail at any
 access. The clock is a parameter of the operations that read it.
 */
module Charger {
  import opened Widths
  import opened Outcomes
  import opened Icl
  import opened SmbPolicy
  import opened SmbBus
  import opened Journal

  datatype Config = Config(
    detectTimeoutMs: nat,
    maxDetectReruns: u8,
    maxTransportRetries: u8,
    safeIclUa: u32,
    maxIclUa: u32,
    verifyWrites: bool,
    qc35: Qc35Support,
    icl: Grid)

  datatype Stats = Stats(readCount: u64, writes: u64, retries: u64, resets: u64, errors: u64, detections: u64)

  datatype Detection = Pending(elapsedMs: nat, attempts: u8) | Recognized(adapter: AdapterType)

  datatype Monitored = Unchanged(adapter: AdapterType) | Changed(adapter: AdapterType) | Detached

  datatype ChargePlan = ChargePlan(adapter: AdapterType, policy: ChargePolicy, iclRaw: u8, appliedIclUa: u32)

  // --- what a session may send ---

  // No commanded current exceeds this: the larger configured limit, or the grid's own minimum.
  function Ceiling(c: Config): u32 {
    Max(c.icl.minUa, Max(c.maxIclUa, c.safeIclUa))
  }

  ghost predicate Permitted(c: Config, command: Command) {
    && command.addr in CONTROL_REGS
    && (command.addr == USBIN_CURRENT_LIMIT_CFG ==> c.icl.Decode(command.value as int) <= Ceiling(c))
  }

  // The masked bits of a byte replaced.
  function Merge(current: bv8, mask: bv8, value: bv8): bv8 {
    (current & !mask) | (value & mask)
  }

  // The register file a plan calls for.
  function Programmed(regs: map<u16, bv8>, plan: ChargePlan): map<u16, bv8>
    requires CONTROL_REGS <= regs.Keys
  {
    var limited := regs[USBIN_CURRENT_LIMIT_CFG := Byte(plan.iclRaw)];
    var enabled := limited[CMD_ICL_OVERRIDE := regs[CMD_ICL_OVERRIDE] | OVERRIDE_BITS];
    match plan.policy.qc2
    case None => enabled
    case Some(volts) =>
      enabled[HVDCP_PULSE_COUNT_MAX := (regs[HVDCP_PULSE_COUNT_MAX] & 0x3F) | volts.Raw()]
  }

  // What a plan promises about the current: a grid value, the greatest one allowed.
  ghost predicate Faithful(c: Config, plan: ChargePlan) {
    var bounded := Min(PolicyFor(plan.adapter, c.qc35).iclUa, c.maxIclUa);
    && plan.policy == PolicyFor(plan.adapter, c.qc35)
    && plan.iclRaw <= c.icl.rawMax
    && c.icl.Decode(plan.iclRaw) == plan.appliedIclUa == c.icl.QuantizeDown(bounded)
    && plan.appliedIclUa <= Max(bounded, c.icl.minUa)
    && forall code: u8 :: code <= c.icl.rawMax && c.icl.Exact(code) <= bounded ==> c.icl.Exact(code) <= plan.appliedIclUa
  }

  lemma QuantizedEncodes(g: Grid, requested: u32)
    requires g.stepUa > 0
    ensures var code := g.Encode(g.QuantizeDown(requested));
      && code.Ok? && code.value <= g.rawMax
      && g.Decode(code.value) == g.QuantizeDown(requested) <= Max(requested, g.minUa)
  {
    QuantizeRoundTrip(g, requested);
    QuantizeIsACode(g, requested);
  }

  // The command that carries a quantized request is within the ceiling.
  lemma QuantizedIsPermitted(c: Config, requested: u32)
    requires c.icl.stepUa > 0
    requires requested <= Max(c.maxIclUa, c.safeIclUa)
    ensures var code := c.icl.Encode(c.icl.QuantizeDown(requested));
      code.Ok? && Permitted(c, Command(USBIN_CURRENT_LIMIT_CFG, Byte(code.value)))
  {
    QuantizedEncodes(c.icl, requested);
    var code := c.icl.Encode(c.icl.QuantizeDown(requested)).value;
    var command := Command(USBIN_CURRENT_LIMIT_CFG, Byte(code));
    assert command.value as int == code;
  }

  function PlanFor(c: Config, adapter: AdapterType): Result<ChargePlan> {
    var policy := PolicyFor(adapter, c.qc35);
    var target := c.icl.QuantizeDown(Min(policy.iclUa, c.maxIclUa));
    match c.icl.Encode(target)
    case Err(error) => Err(error)
    case Ok(code) => Ok(ChargePlan(adapter, policy, code, target))
  }

  function PolicyRecord(plan: ChargePlan): EventKind {
    Policy(plan.adapter, plan.appliedIclUa, Byte(plan.iclRaw), plan.policy.qc2, plan.policy.pumpEligible)
  }

  /** A plan exists exactly on a grid with a step; it is faithful, and may be sent. */
  lemma PlansAreFaithful(c: Config, adapter: AdapterType)
    ensures var r := PlanFor(c, adapter);
      if c.icl.stepUa == 0 then r.Err? && r.error.CurrentOutOfRange?
      else r.Ok? && r.value.adapter == adapter && Faithful(c, r.value)
           && Permitted(c, Command(USBIN_CURRENT_LIMIT_CFG, Byte(r.value.iclRaw)))
  {
    var bounded := Min(PolicyFor(adapter, c.qc35).iclUa, c.maxIclUa);
    if c.icl.stepUa > 0 {
      QuantizedEncodes(c.icl, bounded);
      QuantizedIsPermitted(c, bounded);
      forall code: u8 | code <= c.icl.rawMax && c.icl.Exact(code) <= bounded
        ensures c.icl.Exact(code) <= c.icl.QuantizeDown(bounded)
      {
        QuantizeIsGreatest(c.icl, bounded, code);
      }
    }
  }

  // The code a close writes.
  function SafeCode(c: Config): Result<u8> {
    c.icl.Encode(c.icl.QuantizeDown(c.safeIclUa))
  }

  // The register holds a request, rounded down to the grid.
  ghost predicate LimitIs(c: Config, value: bv8, requested: u32) {
    c.icl.Decode(value as int) == c.icl.QuantizeDown(requested)
  }

  lemma SafeCodeIsPermitted(c: Config)
    ensures SafeCode(c).Ok? <==> c.icl.stepUa > 0
    ensures SafeCode(c).Ok? ==>
      var value := Byte(SafeCode(c).value);
      Permitted(c, Command(USBIN_CURRENT_LIMIT_CFG, value)) && LimitIs(c, value, c.safeIclUa)
  {
    if c.icl.stepUa > 0 {
      QuantizedEncodes(c.icl, c.safeIclUa);
      QuantizedIsPermitted(c, c.safeIclUa);
    }
  }

  // What was sent since is this command, and nothing else.
  ghost predicate SentOnly(before: seq<Command>, after: seq<Command>, command: Command) {
    before <= after && forall k :: |before| <= k < |after| ==> after[k] == command
  }

  // The journal after `n` retries, each announced and followed by a reset of the link.
  ghost function Retried(l: Ledger, n: nat): Ledger {
    l.(retryEvents := l.retryEvents + n, resetEvents := l.resetEvents + n)
  }

  // --- the retry counter ---

  // The attempt number after `failures` failed accesses.
  function AttemptAfter(failures: nat): u8 {
    if failures == 0 then 0 else SatAdd8(AttemptAfter(failures - 1), 1)
  }

  lemma {:induction false} AttemptSaturates(failures: nat)
    ensures AttemptAfter(failures) == Min(failures, U8_MAX)
  {
    if failures > 0 {
      AttemptSaturates(failures - 1);
    }
  }

  /** A link that keeps failing is given up on exactly when the retry limit is below 255. */
  lemma RetriesEndExactly(limit: u8)
    ensures (exists failures: nat :: AttemptAfter(failures) > limit) <==> limit <= 254
  {
    AttemptSaturates(limit + 1);
    if failures: nat :| AttemptAfter(failures) > limit {
      AttemptSaturates(failures);
    }
  }

  // --- the detection budget ---

  // How many further Pending answers the timeout and the rerun limit leave room for.
  ghost function Budget(c: Config, started: Option<nat>, reruns: u8, nowMs: nat): nat {
    var elapsed := if started.None? then 0 else SatSub(nowMs, started.value);
    SatSub(c.detectTimeoutMs, elapsed) + SatSub(c.maxDetectReruns, reruns)
  }

  // The moments at which detection answered Pending so far fit in the whole budget.
  ghost predicate PendingsFit(c: Config, started: Option<nat>, reruns: u8, clockMs: nat, pendingAt: set<nat>) {
    && reruns <= c.maxDetectReruns
    && (started.None? ==> reruns == 0 && pendingAt == {})
    && (started.Some? ==> started.value <= clockMs)
    && (forall t :: t in pendingAt ==> t <= clockMs)
    && |pendingAt| + Budget(c, started, reruns, if clockMs in pendingAt then clockMs + 1 else clockMs)
       <= c.detectTimeoutMs + c.maxDetectReruns
  }

  lemma TimePasses(c: Config, started: Option<nat>, reruns: u8, clockMs: nat, nowMs: nat, pendingAt: set<nat>)
    requires PendingsFit(c, started, reruns, clockMs, pendingAt) && clockMs <= nowMs
    ensures PendingsFit(c, Some(if started.None? then nowMs else started.value), reruns, nowMs, pendingAt)
  {
  }

  lemma RerunsFit(c: Config, started: nat, before: u8, after: u8, nowMs: nat, pendingAt: set<nat>)
    requires PendingsFit(c, Some(started), before, nowMs, pendingAt)
    requires before <= after <= c.maxDetectReruns
    ensures PendingsFit(c, Some(started), after, nowMs, pendingAt)
  {
  }

  // A Pending answer is paid for by time within the timeout, or else by a rerun.
  lemma PendingSpends(c: Config, started: nat, before: u8, after: u8, nowMs: nat, pendingAt: set<nat>)
    requires PendingsFit(c, Some(started), before, nowMs, pendingAt)
    requires after == before + 1 <= c.maxDetectReruns
             || (after == before && SatSub(nowMs, started) < c.detectTimeoutMs)
    ensures Budget(c, Some(started), after, nowMs + 1) < Budget(c, Some(started), before, nowMs)
    ensures PendingsFit(c, Some(started), after, nowMs, pendingAt + {nowMs})
  {
    if nowMs in pendingAt {
      assert pendingAt + {nowMs} == pendingAt;
    }
  }

  // --- the session ---

  class Session {
    const bus: Bus
    const config: Config
    var state: State
    var adapter: Option<AdapterType>
    var detectStarted: Option<nat>
    var reruns: u8
    var attempts: u8
    var seqNo: u64
    var stats: Stats
    // The records the journal sink has received, and their ledger.
    var events: seq<Event>
    ghost var ledger: Ledger
    // The latest clock reading, and the readings at which detection answered Pending
    // since it was last restarted.
    ghost var clockMs: nat
    ghost var pendingAt: set<nat>
    // A rerun since then could not be commanded.
    ghost var rerunFailed: bool

    ghost predicate Numbered()
      reads this
    {
      && ledger == Digest(events)
      && seqNo == Sat64(|events|)
      && forall k :: 0 <= k < |events| ==> events[k].number == Sat64(k + 1)
    }

    // The journal accounts for the counters, the state and (on an exact link) the registers.
    ghost predicate Accounted()
      reads this, bus
    {
      && Numbered()
      && ledger.chained && ledger.state == state
      && stats.readCount == Sat64(ledger.readEvents)
      && stats.writes == Sat64(ledger.writeEvents)
      && stats.retries == Sat64(ledger.retryEvents)
      && ledger.resetEvents == bus.resets > 0
      && stats.resets == Sat64(ledger.resetEvents - 1)
      && (bus.exact ==> bus.regs == bus.initial + ledger.replayed)
    }

    // The attempt number can pass the limit, or else the link is known to answer in the end.
    ghost predicate RetriesEnd() {
      config.maxTransportRetries <= 254 || bus.patience.Some?
    }

    // The most accesses one register operation makes.
    ghost function AccessLimit(): nat
      requires RetriesEnd()
    {
      if config.maxTransportRetries <= 254 then config.maxTransportRetries + 1 else bus.patience.value + 1
    }

    // The link never fails more often in a row than is retried, nor beyond repair.
    ghost predicate Persistent() {
      && bus.gentle && bus.patience.Some?
      && (bus.patience.value <= config.maxTransportRetries || config.maxTransportRetries == 255)
    }

    // And what is written, and verified, is there.
    ghost predicate Reliable() {
      Persistent() && (bus.honest || !config.verifyWrites)
    }

    ghost predicate Intact()
      reads this, bus
    {
      && bus.Valid()
      && RetriesEnd()
      && Accounted()
      && forall k :: 0 <= k < |bus.sent| ==> Permitted(config, bus.sent[k])
    }

    ghost function PendingBudget(nowMs: nat): nat
      reads this
    {
      Budget(config, detectStarted, reruns, nowMs)
    }

    ghost predicate DetectionBounded()
      reads this
    {
      && reruns == ledger.reruns
      && ledger.restarts <= ledger.reruns
      && (!rerunFailed ==> ledger.restarts == ledger.reruns)
      && (state == Idle ==> detectStarted == None)
      && PendingsFit(config, detectStarted, reruns, clockMs, pendingAt)
    }

    // What every public operation keeps.
    ghost predicate Valid()
      reads this, bus
    {
      && Intact()
      && DetectionBounded()
      && ledger.closeEvents <= 1
      && (ledger.closeEvents == 1 ==> state == Closed)
      && (state == Closed && ledger.closeEvents == 0 ==> bus.sent == [])
    }

    // The last record is this error.
    ghost predicate FailedWith(error: ChargerError)
      reads this`events
    {
      events != [] && events[|events| - 1].kind.Error? && events[|events| - 1].kind.error == error
    }

    // The last record is the detection of this adapter.
    ghost predicate Announced(found: AdapterType)
      reads this`events
    {
      events != [] && events[|events| - 1].kind.Detect? && events[|events| - 1].kind.adapter == found
    }

    // The last record is a failed reset of the link.
    // A Pending answer comes with a rerun exactly when the check timed out or the time is up.
    ghost predicate RerunWhenDue(elapsedMs: nat, before: u8, after: u8, seen: map<u16, bv8>) {
      && before <= after <= before + 1 && APSD_STATUS in seen
      && (after == before + 1 <==>
           (seen[APSD_STATUS] & 0x01 != 0 && seen[APSD_STATUS] & 0x40 != 0) || elapsedMs >= config.detectTimeoutMs)
    }

    ghost predicate LinkDown()
      reads this`events
    {
      events != [] && events[|events| - 1].kind == Reset(false)
    }

    // An acknowledged write can be relied on.
    predicate Trusted()
    {
      config.verifyWrites || bus.honest
    }

    constructor (bus: Bus, config: Config)
      ensures this.bus == bus && this.config == config
      ensures state == Closed && events == [] && Numbered() && stats == Stats(0, 0, 0, 0, 0, 0)
      ensures adapter == None && detectStarted == None && reruns == 0 && attempts == 0
      ensures clockMs == 0 && pendingAt == {} && !rerunFailed
    {
      this.bus, this.config := bus, config;
      state, adapter, detectStarted, reruns, attempts, seqNo := Closed, None, None, 0, 0, 0;
      stats, events, ledger := Stats(0, 0, 0, 0, 0, 0), [], BLANK;
      clockMs, pendingAt, rerunFailed := 0, {}, false;
    }

    // --- journal ---

    method Log(kind: EventKind)
      requires Numbered()
      modifies this`seqNo, this`events, this`ledger
      ensures Numbered()
      ensures ledger == Note(old(ledger), kind)
      ensures |events| > 0 && events[|events| - 1].kind == kind && events[..|events| - 1] == old(events)
    {
      seqNo := SatAdd64(seqNo, 1);
      events := events + [Event(seqNo, kind)];
      ledger := Note(ledger, kind);
      assert events[..|events| - 1] == old(events);
    }

    // Records of what happened that change no account.
    method Announce(kind: EventKind)
      requires Intact() && (kind.Open? || kind.Detect? || kind.Policy? || kind.Error?)
      modifies this`seqNo, this`events, this`ledger
      ensures Intact() && ledger == old(ledger)
      ensures |events| > 0 && events[|events| - 1].kind == kind
    {
      Log(kind);
    }

    method Transition(to: State)
      requires Intact()
      modifies this`state, this`seqNo, this`events, this`ledger
      ensures Intact() && state == to
      ensures ledger == if old(state) == to then old(ledger) else Note(old(ledger), StateChange(old(state), to))
    {
      if state == to {
        return;
      }
      var from := state;
      state := to;
      Log(StateChange(from, to));
    }

    method CountError()
      modifies this`stats
      ensures stats == old(stats).(errors := SatAdd64(old(stats).errors, 1))
    {
      stats := stats.(errors := SatAdd64(stats.errors, 1));
    }

    method Fail(op: string, error: ChargerError)
      requires Intact()
      modifies this`state, this`stats, this`seqNo, this`events, this`ledger
      ensures Intact() && state == Faulted
      ensures ledger == if old(state) == Faulted then old(ledger) else Note(old(ledger), StateChange(old(state), Faulted))
      ensures FailedWith(error)
      ensures stats == old(stats).(errors := SatAdd64(old(stats).errors, 1))
    {
      CountError();
      Transition(Faulted);
      Announce(Error(op, error));
    }

    // --- register operations ---

    method ResetLink() returns (ok: bool)
      requires Intact()
      modifies this`stats, this`seqNo, this`events, this`ledger, bus`resets
      ensures Intact()
      ensures bus.resets == old(bus.resets) + 1
      ensures LinkDown() <==> !ok
      ensures bus.gentle ==> ok
      ensures ledger == old(ledger).(resetEvents := old(ledger).resetEvents + 1)
    {
      ok := bus.Reset();
      stats := stats.(resets := SatAdd64(stats.resets, 1));
      Log(Reset(ok));
    }

    method Recover(op: RetriedOp, attempt: u8) returns (ok: bool)
      requires Intact() && op != RerunOp
      modifies this`stats, this`seqNo, this`events, this`ledger, bus`resets
      ensures Intact()
      ensures bus.resets == old(bus.resets) + 1
      ensures LinkDown() <==> !ok
      ensures bus.gentle ==> ok
      ensures ledger == Retried(old(ledger), 1)
    {
      stats := stats.(retries := SatAdd64(stats.retries, 1));
      Log(Retry(op, attempt));
      ok := ResetLink();
      if !ok {
        CountError();
      }
    }

    // After a failed access: reset the link and try again, or give up.
    method GiveUp(op: RetriedOp, attempt: u8, error: ChargerError) returns (stop: bool)
      requires Intact() && op != RerunOp
      modifies this`stats, this`seqNo, this`events, this`ledger, bus`resets
      ensures Intact()
      ensures stop ==> !Recoverable(error) || attempt > config.maxTransportRetries || LinkDown()
      ensures stop ==> old(bus.resets) <= bus.resets <= old(bus.resets) + (if attempt > config.maxTransportRetries then 0 else 1)
      ensures !stop ==> attempt <= config.maxTransportRetries && bus.resets == old(bus.resets) + 1
      ensures bus.gentle && Recoverable(error) && attempt <= config.maxTransportRetries ==> !stop
      ensures bus.resets >= old(bus.resets) && ledger == Retried(old(ledger), bus.resets - old(bus.resets))
    {
      if !Recoverable(error) || attempt > config.maxTransportRetries {
        CountError();
        return true;
      }
      var ok := Recover(op, attempt);
      return !ok;
    }

    // One attempt of a read: done, or to be tried again, or given up.
    method ReadStep(addr: u16, attempt: u8) returns (r: Result<bv8>, stop: bool)
      requires Intact()
      modifies this`stats, this`seqNo, this`events, this`ledger, bus`accesses, bus`streak, bus`resets
      ensures Intact()
      ensures bus.accesses == old(bus.accesses) + 1 && bus.resets >= old(bus.resets)
      ensures r.Ok? ==> stop && bus.resets == old(bus.resets) && ledger == Note(old(ledger), Read(addr, r.value))
      ensures r.Ok? && addr in bus.regs ==> r.value == bus.regs[addr]
      ensures r.Err? ==> r.error.Transport? && bus.streak == old(bus.streak) + 1
      ensures r.Err? ==> ledger == Retried(old(ledger), bus.resets - old(bus.resets))
      ensures r.Err? && stop ==> !Recoverable(r.error) || attempt > config.maxTransportRetries || LinkDown()
      ensures stop ==> bus.resets <= old(bus.resets) + (if attempt > config.maxTransportRetries then 0 else 1)
      ensures !stop ==> r.Err? && attempt <= config.maxTransportRetries && bus.resets == old(bus.resets) + 1
      ensures bus.gentle && attempt <= config.maxTransportRetries && r.Err? ==> !stop
    {
      r := bus.Read(addr);
      stop := true;
      if r.Ok? {
        stats := stats.(readCount := SatAdd64(stats.readCount, 1));
        Log(Read(addr, r.value));
      } else {
        stop := GiveUp(ReadOp, attempt, r.error);
      }
    }

    method ReadReg(addr: u16) returns (r: Result<bv8>)
      requires Intact()
      modifies this`stats, this`seqNo, this`events, this`ledger, bus`accesses, bus`streak, bus`resets
      ensures Intact()
      ensures r.Ok? && addr in bus.regs ==> r.value == bus.regs[addr]
      ensures r.Err? ==> r.error.Transport?
      ensures bus.resets >= old(bus.resets)
      ensures 0 <= bus.accesses - old(bus.accesses) <= AccessLimit()
      ensures bus.resets - old(bus.resets) < AccessLimit()
      ensures OnlyTraffic(old(ledger), ledger) && ledger.restarts == old(ledger.restarts)
      ensures ledger.seen == if r.Ok? then old(ledger.seen)[addr := r.value] else old(ledger.seen)
      ensures r.Err? && Recoverable(r.error) ==>
        LinkDown() || bus.accesses - old(bus.accesses) == config.maxTransportRetries + 1 <= 255
      ensures Persistent() ==> r.Ok?
      ensures var tried := Retried(old(ledger), bus.resets - old(bus.resets));
        ledger == if r.Ok? then Note(tried, Read(addr, r.value)) else tried
    {
      var attempt: u8 := 0;
      ghost var failures: nat := 0;
      while true
        invariant Intact()
        invariant failures < AccessLimit()
        invariant attempt == AttemptAfter(failures) <= config.maxTransportRetries
        invariant bus.accesses == old(bus.accesses) + failures && bus.resets == old(bus.resets) + failures
        invariant bus.streak == old(bus.streak) + failures
        invariant ledger == Retried(old(ledger), failures)
        decreases AccessLimit() - failures
      {
        AttemptSaturates(failures + 1);
        var stop;
        r, stop := ReadStep(addr, SatAdd8(attempt, 1));
        if stop {
          return;
        }
        attempt := SatAdd8(attempt, 1);
        failures := failures + 1;
      }
    }

    method TryWrite(addr: u16, value: bv8) returns (r: Result<()>)
      requires Intact() && Permitted(config, Command(addr, value))
      modifies this`stats, this`seqNo, this`events, this`ledger, bus`accesses, bus`streak, bus`sent, bus`regs
      ensures Intact()
      ensures bus.regs - {addr} == old(bus.regs) - {addr}
      ensures r.Ok? && bus.honest ==> bus.regs[addr] == value
      ensures r.Err? ==> r.error.Transport? && ledger == old(ledger) && stats == old(stats)
      ensures r.Ok? ==> ledger == Note(old(ledger), Write(addr, value))
      ensures bus.accesses == old(bus.accesses) + 1
      ensures bus.streak == if r.Err? then old(bus.streak) + 1 else 0
      ensures r.Err? && bus.gentle ==> Recoverable(r.error)
      ensures bus.sent == old(bus.sent) + [Command(addr, value)]
    {
      r := bus.Write(addr, value);
      if r.Ok? {
        stats := stats.(writes := SatAdd64(stats.writes, 1));
        Log(Write(addr, value));
      }
    }

    // One attempt of a write: done, or to be tried again, or given up.
    method WriteStep(addr: u16, value: bv8, attempt: u8, ghost start: seq<Command>) returns (r: Result<()>, stop: bool)
      requires Intact() && Permitted(config, Command(addr, value))
      requires SentOnly(start, bus.sent, Command(addr, value))
      modifies this`stats, this`seqNo, this`events, this`ledger, bus`accesses, bus`streak, bus`resets, bus`sent, bus`regs
      ensures Intact()
      ensures bus.regs - {addr} == old(bus.regs) - {addr}
      ensures SentOnly(start, bus.sent, Command(addr, value)) && |bus.sent| > |start|
      ensures bus.accesses == old(bus.accesses) + 1 && bus.resets >= old(bus.resets)
      ensures r.Ok? ==> stop && bus.resets == old(bus.resets) && ledger == Note(old(ledger), Write(addr, value))
      ensures r.Ok? && bus.honest ==> bus.regs[addr] == value
      ensures r.Err? ==> r.error.Transport? && bus.streak == old(bus.streak) + 1
      ensures r.Err? ==> ledger == Retried(old(ledger), bus.resets - old(bus.resets))
      ensures r.Err? && stop ==> !Recoverable(r.error) || attempt > config.maxTransportRetries || LinkDown()
      ensures stop ==> bus.resets <= old(bus.resets) + (if attempt > config.maxTransportRetries then 0 else 1)
      ensures !stop ==> r.Err? && attempt <= config.maxTransportRetries && bus.resets == old(bus.resets) + 1
      ensures bus.gentle && attempt <= config.maxTransportRetries && r.Err? ==> !stop
    {
      r := TryWrite(addr, value);
      stop := true;
      if r.Err? {
        stop := GiveUp(WriteOp, attempt, r.error);
      }
    }

    // The retried write itself, before verification.
    method WriteOnce(addr: u16, value: bv8) returns (r: Result<()>)
      requires Intact() && Permitted(config, Command(addr, value))
      modifies this`stats, this`seqNo, this`events, this`ledger, bus`accesses, bus`streak, bus`resets, bus`sent, bus`regs
      ensures Intact()
      ensures bus.regs - {addr} == old(bus.regs) - {addr}
      ensures r.Ok? && bus.honest ==> bus.regs[addr] == value
      ensures r.Err? ==> r.error.Transport?
      ensures 0 <= bus.accesses - old(bus.accesses) <= AccessLimit()
      ensures bus.resets - old(bus.resets) < AccessLimit()
      ensures OnlyTraffic(old(ledger), ledger)
      ensures ledger.restarts == old(ledger.restarts) + (if r.Ok? && addr == CMD_APSD then 1 else 0)
      ensures ledger.seen == old(ledger.seen)
      ensures r.Err? && Recoverable(r.error) ==>
        LinkDown() || bus.accesses - old(bus.accesses) == config.maxTransportRetries + 1 <= 255
      ensures Persistent() ==> r.Ok?
      ensures SentOnly(old(bus.sent), bus.sent, Command(addr, value))
      ensures r.Ok? ==> |bus.sent| > |old(bus.sent)|
      ensures bus.resets >= old(bus.resets)
      ensures var tried := Retried(old(ledger), bus.resets - old(bus.resets));
        ledger == if r.Ok? then Note(tried, Write(addr, value)) else tried
    {
      var attempt: u8 := 0;
      ghost var failures: nat := 0;
      while true
        invariant Intact()
        invariant failures < AccessLimit()
        invariant SentOnly(old(bus.sent), bus.sent, Command(addr, value))
        invariant attempt == AttemptAfter(failures) <= config.maxTransportRetries
        invariant bus.accesses == old(bus.accesses) + failures && bus.resets == old(bus.resets) + failures
        invariant bus.streak == old(bus.streak) + failures
        invariant bus.regs - {addr} == old(bus.regs) - {addr}
        invariant ledger == Retried(old(ledger), failures)
        decreases AccessLimit() - failures
      {
        AttemptSaturates(failures + 1);
        var stop;
        r, stop := WriteStep(addr, value, SatAdd8(attempt, 1), old(bus.sent));
        if stop {
          return;
        }
        attempt := SatAdd8(attempt, 1);
        failures := failures + 1;
      }
    }

    method Verify(addr: u16, wrote: bv8) returns (r: Result<()>)
      requires Intact() && addr in bus.regs
      modifies this`stats, this`seqNo, this`events, this`ledger, bus`accesses, bus`streak, bus`resets
      ensures Intact()
      ensures r.Ok? && config.verifyWrites ==> bus.regs[addr] == wrote
      ensures r.Err? ==> config.verifyWrites && (r.error.Transport?
                         || (r.error == VerifyFailed(addr, wrote, bus.regs[addr]) && bus.regs[addr] != wrote))
      ensures 0 <= bus.accesses - old(bus.accesses) <= AccessLimit()
      ensures bus.resets - old(bus.resets) < AccessLimit()
      ensures OnlyTraffic(old(ledger), ledger) && ledger.restarts == old(ledger.restarts)
      ensures ledger.seen - {addr} == old(ledger.seen) - {addr}
      ensures Persistent() && bus.regs[addr] == wrote ==> r.Ok?
      ensures r.Err? && Recoverable(r.error) ==> LinkDown() || bus.accesses - old(bus.accesses) > config.maxTransportRetries
      ensures r.Err? && r.error.VerifyFailed? ==> FailedWith(r.error)
    {
      if !config.verifyWrites {
        return Ok(());
      }
      var got := ReadReg(addr);
      if got.Err? {
        return Err(got.error);
      }
      if got.value != wrote {
        var error := VerifyFailed(addr, wrote, got.value);
        CountError();
        Announce(Error("verify", error));
        return Err(error);
      }
      return Ok(());
    }

    method WriteReg(addr: u16, value: bv8) returns (r: Result<()>)
      requires Intact() && Permitted(config, Command(addr, value))
      modifies this`stats, this`seqNo, this`events, this`ledger, bus`accesses, bus`streak, bus`resets, bus`sent, bus`regs
      ensures Intact()
      ensures bus.regs - {addr} == old(bus.regs) - {addr}
      ensures r.Ok? && Trusted() ==> bus.regs[addr] == value
      ensures r.Err? ==> r.error.Transport?
                         || (r.error == VerifyFailed(addr, value, bus.regs[addr]) && bus.regs[addr] != value)
      ensures bus.accesses - old(bus.accesses) <= 2 * AccessLimit()
      ensures bus.resets - old(bus.resets) <= 2 * (AccessLimit() - 1)
      ensures OnlyTraffic(old(ledger), ledger)
      ensures ledger.restarts <= old(ledger.restarts) + (if addr == CMD_APSD then 1 else 0)
      ensures ledger.seen - {addr} == old(ledger.seen) - {addr}
      ensures r.Err? && Recoverable(r.error) ==> LinkDown() || bus.accesses - old(bus.accesses) > config.maxTransportRetries
      ensures Reliable() ==> r.Ok?
      ensures SentOnly(old(bus.sent), bus.sent, Command(addr, value))
      ensures r.Ok? ==> |bus.sent| > |old(bus.sent)|
      ensures r.Ok? && addr == CMD_APSD ==> ledger.restarts == old(ledger.restarts) + 1
      ensures addr != CMD_APSD ==> ledger.restarts == old(ledger.restarts)
      ensures r.Err? && r.error.VerifyFailed? ==> FailedWith(r.error)
    {
      r := WriteOnce(addr, value);
      if r.Ok? {
        r := Verify(addr, value);
      }
    }

    method UpdateReg(addr: u16, mask: bv8, value: bv8) returns (r: Result<()>)
      requires Intact() && addr in CONTROL_REGS && addr != USBIN_CURRENT_LIMIT_CFG
      modifies this`stats, this`seqNo, this`events, this`ledger, bus`accesses, bus`streak, bus`resets, bus`sent, bus`regs
      ensures Intact()
      ensures bus.regs - {addr} == old(bus.regs) - {addr}
      ensures r.Ok? && Trusted() ==> bus.regs[addr] == Merge(old(bus.regs[addr]), mask, value)
      ensures r.Err? ==> r.error.Transport? || r.error.VerifyFailed?
      ensures bus.accesses - old(bus.accesses) <= 3 * AccessLimit()
      ensures OnlyTraffic(old(ledger), ledger)
      ensures ledger.restarts <= old(ledger.restarts) + (if addr == CMD_APSD then 1 else 0)
      ensures ledger.seen - {addr} == old(ledger.seen) - {addr}
      ensures Reliable() ==> r.Ok?
      ensures r.Ok? && addr == CMD_APSD ==> ledger.restarts == old(ledger.restarts) + 1
      ensures addr != CMD_APSD ==> ledger.restarts == old(ledger.restarts)
      ensures SentOnly(old(bus.sent), bus.sent, Command(addr, Merge(old(bus.regs[addr]), mask, value)))
      ensures r.Ok? ==> |bus.sent| > |old(bus.sent)|
    {
      var current := ReadReg(addr);
      if current.Err? {
        return Err(current.error);
      }
      r := WriteReg(addr, Merge(current.value, mask, value));
    }

    method Probe() returns (r: Result<()>)
      requires Intact()
      modifies this`stats, this`seqNo, this`events, this`ledger, bus`accesses, bus`streak, bus`resets
      ensures Intact()
      ensures r.Err? ==> r.error.Transport? || r.error == DeviceFault(0xFF)
      ensures 0 <= bus.accesses - old(bus.accesses) <= AccessLimit()
      ensures OnlyTraffic(old(ledger), ledger) && ledger.restarts == old(ledger.restarts)
      ensures r.Ok? ==> Alive(ledger.seen)
      ensures r == Err(DeviceFault(0xFF)) ==> Dead(ledger.seen)
      ensures Persistent() && r.Err? ==> r.error.DeviceFault?
      ensures bus.resets >= old(bus.resets)
    {
      var status := ReadReg(APSD_STATUS);
      match status
      case Err(error) => return Err(error);
      case Ok(value) => return if value == 0xFF then Err(DeviceFault(0xFF)) else Ok(());
    }

    // --- the public operations ---

    ghost predicate Unopened()
      reads this, bus
    {
      && state == Closed && events == [] && Numbered() && stats == Stats(0, 0, 0, 0, 0, 0)
      && detectStarted == None && reruns == 0 && pendingAt == {}
      && bus.Untouched() && RetriesEnd()
    }

    method FirstReset()
      requires Unopened()
      modifies this`seqNo, this`events, this`ledger, bus`resets
      ensures Intact()
      ensures OnlyTraffic(BLANK, ledger) && ledger.restarts == 0
    {
      var ok := bus.Reset();
      Log(Reset(ok));
    }

    method AcceptOpen()
      requires Intact() && state == Closed && ledger.reruns == ledger.restarts == 0
      modifies this`state, this`seqNo, this`events, this`ledger
      ensures Intact() && state == Idle
      ensures ledger.closeEvents == old(ledger.closeEvents) && ledger.seen == old(ledger.seen)
      ensures ledger.reruns == ledger.restarts == 0
      ensures |events| > 0 && events[|events| - 1].kind == EventKind.Open(true)
    {
      Transition(Idle);
      Announce(EventKind.Open(true));
    }

    method RejectOpen(error: ChargerError)
      requires Intact()
      modifies this`stats, this`seqNo, this`events, this`ledger
      ensures Intact() && ledger == old(ledger)
      ensures |events| > 0 && events[|events| - 1].kind == EventKind.Open(false)
    {
      CountError();
      Announce(Error("open", error));
      Announce(EventKind.Open(false));
    }

    /** A session opens without writing anything; a failed open leaves it closed for good. */
    method Open() returns (r: Result<()>)
      requires Unopened()
      modifies this`state, this`stats, this`seqNo, this`events, this`ledger, bus`accesses, bus`streak, bus`resets
      ensures Valid()
      ensures r.Ok? ==> state == Idle
      ensures r.Err? ==> state == Closed && (r.error.Transport? || r.error == DeviceFault(0xFF))
      ensures bus.sent == [] && ledger.closeEvents == 0
      ensures bus.accesses <= AccessLimit()
      ensures |events| > 0 && events[|events| - 1].kind == EventKind.Open(r.Ok?)
      ensures r.Ok? ==> Alive(ledger.seen)
      ensures r == Err(DeviceFault(0xFF)) ==> Dead(ledger.seen)
      ensures Persistent() && r.Err? ==> r.error.DeviceFault?
    {
      FirstReset();
      r := Probe();
      if r.Ok? {
        AcceptOpen();
      } else {
        RejectOpen(r.error);
      }
    }

    // A register update that faults the session when it fails.
    method UpdateOrFail(op: string, addr: u16, mask: bv8, value: bv8) returns (r: Result<()>)
      requires Intact() && addr in CONTROL_REGS && addr != USBIN_CURRENT_LIMIT_CFG
      modifies this`state, this`stats, this`seqNo, this`events, this`ledger, bus
      ensures Intact()
      ensures bus.regs - {addr} == old(bus.regs) - {addr}
      ensures r.Ok? && Trusted() ==> bus.regs[addr] == Merge(old(bus.regs[addr]), mask, value)
      ensures r.Ok? ==> state == old(state) && OnlyTraffic(old(ledger), ledger)
      ensures r.Err? ==> state == Faulted && (r.error.Transport? || r.error.VerifyFailed?)
      ensures OnlyMoved(old(ledger), ledger)
      ensures ledger.restarts <= old(ledger.restarts) + (if addr == CMD_APSD then 1 else 0)
      ensures ledger.seen - {addr} == old(ledger.seen) - {addr}
      ensures Reliable() ==> r.Ok?
      ensures r.Ok? && addr == CMD_APSD ==> ledger.restarts == old(ledger.restarts) + 1
      ensures addr != CMD_APSD ==> ledger.restarts == old(ledger.restarts)
      ensures SentOnly(old(bus.sent), bus.sent, Command(addr, Merge(old(bus.regs[addr]), mask, value)))
      ensures r.Ok? ==> |bus.sent| > |old(bus.sent)|
      ensures r.Err? ==> FailedWith(r.error)
    {
      r := UpdateReg(addr, mask, value);
      if r.Err? {
        Fail(op, r.error);
      }
    }

    // The three writes of a plan.
    method WritePlan(plan: ChargePlan) returns (r: Result<()>)
      requires Intact() && Permitted(config, Command(USBIN_CURRENT_LIMIT_CFG, Byte(plan.iclRaw)))
      modifies this`state, this`stats, this`seqNo, this`events, this`ledger, bus
      ensures Intact()
      ensures r.Ok? ==> state == old(state) && OnlyTraffic(old(ledger), ledger)
      ensures r.Ok? && Trusted() ==> bus.regs == Programmed(old(bus.regs), plan)
      ensures r.Err? ==> state == Faulted && bus.regs - PLAN_REGS == old(bus.regs) - PLAN_REGS
      ensures r.Err? ==> ledger.closeEvents == old(ledger.closeEvents) && ledger.reruns == old(ledger.reruns)
      ensures r.Err? ==> r.error.Transport? || r.error.VerifyFailed?
      ensures ledger.restarts == old(ledger.restarts)
      ensures Reliable() ==> r.Ok?
      ensures r.Err? ==> FailedWith(r.error)
    {
      r := WriteReg(USBIN_CURRENT_LIMIT_CFG, Byte(plan.iclRaw));
      ghost var limited := bus.regs;
      WithoutMore(old(bus.regs), limited, {USBIN_CURRENT_LIMIT_CFG}, PLAN_REGS);
      if r.Err? {
        Fail("apply.write_icl", r.error);
        return;
      }
      r := UpdateOrFail("apply.write_override", CMD_ICL_OVERRIDE, OVERRIDE_BITS, OVERRIDE_BITS);
      ghost var enabled := bus.regs;
      WithoutMore(limited, enabled, {CMD_ICL_OVERRIDE}, PLAN_REGS);
      if r.Err? {
        return;
      }
      if plan.policy.qc2.Some? {
        r := UpdateOrFail("apply.write_qc2", HVDCP_PULSE_COUNT_MAX, QC2_VOLTAGE_MASK, plan.policy.qc2.value.Raw());
        WithoutMore(enabled, bus.regs, {HVDCP_PULSE_COUNT_MAX}, PLAN_REGS);
      }
      if r.Ok? && Trusted() {
        WritesMakeThePlan(plan, old(bus.regs), limited, enabled, bus.regs);
      }
    }

    method ApplyOpen(found: AdapterType) returns (r: Result<ChargePlan>)
      requires Intact()
      modifies this`state, this`adapter, this`stats, this`seqNo, this`events, this`ledger, bus
      ensures Intact()
      ensures r.Ok? ==> state == Ready && adapter == Some(found) && PlanFor(config, found) == r
      ensures r.Ok? && Trusted() ==> bus.regs == Programmed(old(bus.regs), r.value)
      ensures r.Err? ==> state == Faulted && adapter == old(adapter)
      ensures r.Err? ==> bus.regs - PLAN_REGS == old(bus.regs) - PLAN_REGS
      ensures r.Err? ==> r == PlanFor(config, found) || r.error.Transport? || r.error.VerifyFailed?
      ensures PlanFor(config, found).Err? ==> unchanged(bus) && r == PlanFor(config, found)
      ensures OnlyMoved(old(ledger), ledger) && ledger.restarts == old(ledger.restarts)
      ensures r.Ok? ==> |events| > 0 && events[|events| - 1].kind == PolicyRecord(r.value)
      ensures Reliable() ==> r == PlanFor(config, found)
      ensures r.Err? ==> FailedWith(r.error)
    {
      PlansAreFaithful(config, found);
      r := PlanFor(config, found);
      if r.Err? {
        Fail("apply.encode_icl", r.error);
        return;
      }
      var plan := r.value;
      var wrote := WritePlan(plan);
      if wrote.Err? {
        return Err(wrote.error);
      }
      adapter := Some(found);
      Transition(Ready);
      Announce(PolicyRecord(plan));
    }

    /**
     Applying a policy is a transaction: either the register file is exactly what the plan
     calls for, or the session is faulted and only the plan's registers may differ.
     */
    method Apply(found: AdapterType) returns (r: Result<ChargePlan>)
      requires Valid()
      modifies this`state, this`adapter, this`stats, this`seqNo, this`events, this`ledger, bus
      ensures Valid()
      ensures old(state) == Closed ==> r == Err(NotOpen) && unchanged(this) && unchanged(bus)
      ensures r.Ok? ==> state == Ready && adapter == Some(found)
      ensures r.Ok? ==> r.value.adapter == found && Faithful(config, r.value)
      ensures r.Ok? && Trusted() ==> bus.regs == Programmed(old(bus.regs), r.value)
      ensures r.Err? && old(state) != Closed ==> state == Faulted && adapter == old(adapter)
      ensures r.Err? ==> bus.regs - PLAN_REGS == old(bus.regs) - PLAN_REGS
      ensures old(state) != Closed ==>
        (config.icl.stepUa == 0 <==> r.Err? && r.error.CurrentOutOfRange?)
      ensures config.icl.stepUa == 0 ==> unchanged(bus)
      ensures r.Ok? ==> |events| > 0 && events[|events| - 1].kind == PolicyRecord(r.value)
      ensures Reliable() && old(state) != Closed && config.icl.stepUa > 0 ==> r.Ok?
      ensures r.Err? && old(state) != Closed ==> FailedWith(r.error)
    {
      if state == Closed {
        return Err(NotOpen);
      }
      PlansAreFaithful(config, found);
      r := ApplyOpen(found);
    }

    method RestoreSafe() returns (ok: bool)
      requires Intact()
      modifies this`stats, this`seqNo, this`events, this`ledger, bus
      ensures Intact()
      ensures ok ==> config.icl.stepUa > 0
      ensures ok && Trusted() ==>
        LimitIs(config, bus.regs[USBIN_CURRENT_LIMIT_CFG], config.safeIclUa)
      ensures bus.regs - {USBIN_CURRENT_LIMIT_CFG} == old(bus.regs) - {USBIN_CURRENT_LIMIT_CFG}
      ensures OnlyTraffic(old(ledger), ledger) && ledger.restarts == old(ledger.restarts)
      ensures Reliable() ==> (ok <==> config.icl.stepUa > 0)
    {
      var code := SafeCode(config);
      SafeCodeIsPermitted(config);
      if code.Err? {
        return false;
      }
      var wrote := WriteReg(USBIN_CURRENT_LIMIT_CFG, Byte(code.value));
      return wrote.Ok?;
    }

    /** Closing restores the safe limit once; a closed session never touches the link again. */
    method Close()
      requires Valid()
      modifies this`state, this`stats, this`seqNo, this`events, this`ledger, bus
      ensures Valid() && state == Closed
      ensures old(state) == Closed ==> unchanged(this) && unchanged(bus)
      ensures old(state) != Closed ==> ledger.closeEvents == 1
      ensures old(state) != Closed ==> |events| > 0 && events[|events| - 1].kind.Close?
      ensures old(state) != Closed && events[|events| - 1].kind.ok ==> config.icl.stepUa > 0
      ensures old(state) != Closed && events[|events| - 1].kind.ok && Trusted() ==>
        LimitIs(config, bus.regs[USBIN_CURRENT_LIMIT_CFG], config.safeIclUa)
      ensures bus.regs - {USBIN_CURRENT_LIMIT_CFG} == old(bus.regs) - {USBIN_CURRENT_LIMIT_CFG}
      ensures old(state) != Closed && Reliable() ==> (events[|events| - 1].kind.ok <==> config.icl.stepUa > 0)
    {
      if state == Closed {
        return;
      }
      var ok := RestoreSafe();
      Transition(Closed);
      Log(EventKind.Close(ok));
    }

    method ForgetDetection()
      requires Intact()
      modifies this`adapter, this`detectStarted, this`reruns, this`attempts, this`pendingAt, this`rerunFailed
      ensures Intact()
      ensures adapter == None && detectStarted == None && reruns == 0 && pendingAt == {}
      ensures !rerunFailed
      ensures attempts == 0
    {
      detectStarted, reruns, attempts, adapter, pendingAt, rerunFailed := None, 0, 0, None, {}, false;
    }

    method ToIdle()
      requires Intact() && (state == Idle ==> ledger.reruns == ledger.restarts == 0)
      modifies this`state, this`adapter, this`detectStarted, this`reruns, this`attempts, this`pendingAt, this`rerunFailed
      modifies this`seqNo, this`events, this`ledger
      ensures Intact() && state == Idle
      ensures adapter == None && detectStarted == None && reruns == 0 && pendingAt == {}
      ensures ledger.closeEvents == old(ledger.closeEvents) && ledger.reruns == ledger.restarts == 0
      ensures !rerunFailed
      ensures attempts == 0
    {
      ForgetDetection();
      Transition(Idle);
    }

    method ReinitOpen() returns (r: Result<()>)
      requires Intact() && (state == Idle ==> ledger.reruns == ledger.restarts == 0)
      modifies this, bus`accesses, bus`streak, bus`resets
      ensures Intact() && clockMs == old(clockMs)
      ensures state == Idle || (state == Faulted && r.Err?)
      ensures ledger.closeEvents == old(ledger.closeEvents)
      ensures state == Idle ==>
        && adapter == None && detectStarted == None && reruns == 0 && pendingAt == {}
        && ledger.reruns == ledger.restarts == 0
      ensures state == Idle ==> !rerunFailed
      ensures state == Faulted ==> rerunFailed == old(rerunFailed)
      ensures state == Faulted ==>
        && detectStarted == old(detectStarted) && reruns == old(reruns) && pendingAt == old(pendingAt)
        && ledger.reruns == old(ledger.reruns) && ledger.restarts == old(ledger.restarts)
      ensures r.Ok? ==> Alive(ledger.seen)
      ensures Persistent() && r.Err? ==> r.error.DeviceFault?
      ensures bus.resets > old(bus.resets)
      ensures state == Idle ==> attempts == 0
      ensures bus.gentle ==> state == Idle
      ensures r == Err(DeviceFault(0xFF)) ==> Dead(ledger.seen)
    {
      var ok := ResetLink();
      if !ok {
        Fail("reinit.reset", Transport(Disconnected));
        return Err(Transport(Disconnected));
      }
      ToIdle();
      r := Probe();
    }

    method Reinit() returns (r: Result<()>)
      requires Valid()
      modifies this, bus`accesses, bus`streak, bus`resets
      ensures Valid() && clockMs == old(clockMs)
      ensures old(state) == Closed ==> r == Err(NotOpen) && unchanged(this) && unchanged(bus)
      ensures old(state) != Closed ==> state == Idle || (state == Faulted && r.Err?)
      ensures old(state) != Closed && state == Idle ==>
        adapter == None && detectStarted == None && reruns == 0 && pendingAt == {}
      ensures r.Ok? ==> Alive(ledger.seen)
      ensures Persistent() && r.Err? && old(state) != Closed ==> r.error.DeviceFault?
      ensures old(state) != Closed ==> bus.resets > old(bus.resets)
      ensures old(state) != Closed ==> (state == Idle ==> attempts == 0) && (bus.gentle ==> state == Idle)
      ensures r == Err(DeviceFault(0xFF)) ==> Dead(ledger.seen)
    {
      if state == Closed {
        return Err(NotOpen);
      }
      r := ReinitOpen();
    }

    // Reads the detection status, and the result once detection is done.
    method Sample(op: string) returns (r: Result<(bv8, bv8)>)
      requires Intact()
      modifies this`state, this`stats, this`seqNo, this`events, this`ledger, bus`accesses, bus`streak, bus`resets
      ensures Intact()
      ensures r.Ok? ==> state == old(state)
      ensures r.Err? ==> state == Faulted && r.error.Transport?
      ensures OnlyMoved(old(ledger), ledger) && ledger.restarts == old(ledger.restarts)
      ensures r.Ok? ==> DecodesTo(DecodeAdapter(r.value.0, r.value.1, config.qc35), ledger.seen, config.qc35)
      ensures Persistent() ==> r.Ok?
      ensures r.Err? ==> FailedWith(r.error)
    {
      var status := ReadReg(APSD_STATUS);
      if status.Err? {
        Fail(op + ".read_status", status.error);
        return Err(status.error);
      }
      if status.value & APSD_DTC_STATUS_DONE == 0 {
        return Ok((status.value, 0));
      }
      var result := ReadReg(APSD_RESULT_STATUS);
      if result.Err? {
        Fail(op + ".read_result", result.error);
        return Err(result.error);
      }
      return Ok((status.value, result.value));
    }

    method MonitorOpen() returns (r: Result<Monitored>)
      requires Intact()
      modifies this`state, this`adapter, this`stats, this`seqNo, this`events, this`ledger, bus`accesses, bus`streak, bus`resets
      ensures Intact()
      ensures r.Err? ==> state == Faulted && adapter == old(adapter)
      ensures r.Ok? ==> state == old(state) && Observed(r.value, old(adapter), adapter)
      ensures r.Ok? ==> Polled(r.value, ledger.seen, config.qc35)
      ensures OnlyMoved(old(ledger), ledger) && ledger.restarts == old(ledger.restarts)
      ensures Persistent() && r.Err? ==> !r.error.Transport?
      ensures r.Err? ==> FailedWith(r.error)
      ensures r.Err? && !r.error.Transport? && !r.error.NotOpen? ==> DecodesTo(Err(r.error), ledger.seen, config.qc35)
      ensures r.Ok? && r.value.Changed? ==> Announced(r.value.adapter)
    {
      var sampled := Sample("monitor");
      if sampled.Err? {
        return Err(sampled.error);
      }
      var (status, result) := sampled.value;
      var decoded := DecodeAdapter(status, result, config.qc35);
      if decoded == Err(DetectionNotComplete) {
        adapter := None;
        return Ok(Detached);
      } else if decoded.Err? {
        Fail("monitor.decode", decoded.error);
        return Err(decoded.error);
      }
      var found, previous := decoded.value, adapter;
      adapter := Some(found);
      if previous == Some(found) {
        return Ok(Unchanged(found));
      }
      Announce(Detect(found, status, result, 0));
      return Ok(Changed(found));
    }

    /** Polling never writes; it tells a changed adapter from an unchanged one. */
    method Monitor() returns (r: Result<Monitored>)
      requires Valid()
      modifies this`state, this`adapter, this`stats, this`seqNo, this`events, this`ledger, bus`accesses, bus`streak, bus`resets
      ensures Valid()
      ensures old(state) == Closed ==> r == Err(NotOpen) && unchanged(this) && unchanged(bus)
      ensures r.Err? && old(state) != Closed ==> state == Faulted && adapter == old(adapter)
      ensures r.Ok? ==> state == old(state) && Observed(r.value, old(adapter), adapter)
      ensures r.Ok? ==> Polled(r.value, ledger.seen, config.qc35)
      ensures Persistent() && r.Err? ==> !r.error.Transport?
      ensures r.Err? && old(state) != Closed ==> FailedWith(r.error)
      ensures r.Err? && !r.error.Transport? && !r.error.NotOpen? ==> DecodesTo(Err(r.error), ledger.seen, config.qc35)
      ensures r.Ok? && r.value.Changed? ==> Announced(r.value.adapter)
    {
      if state == Closed {
        return Err(NotOpen);
      }
      r := MonitorOpen();
    }

    // Starts the detection clock, unless it is running.
    method BeginDetection(nowMs: nat)
      requires Valid() && state != Closed && nowMs >= clockMs
      modifies this`detectStarted, this`clockMs, this`state, this`seqNo, this`events, this`ledger
      ensures Intact() && DetectionBounded() && state != Idle
      ensures detectStarted.Some? && clockMs == nowMs
      ensures PendingBudget(nowMs) == old(PendingBudget(nowMs))
      ensures OnlyMoved(old(ledger), ledger)
      ensures state == if old(detectStarted).None? then Detecting else old(state)
      ensures ledger.restarts == old(ledger.restarts) && ledger.seen == old(ledger.seen)
    {
      TimePasses(config, detectStarted, reruns, clockMs, nowMs, pendingAt);
      clockMs := nowMs;
      if detectStarted.None? {
        detectStarted := Some(nowMs);
        Transition(Detecting);
      }
    }

    method CountRerun()
      requires Intact() && reruns == ledger.reruns < 255
      modifies this`reruns, this`seqNo, this`events, this`ledger
      ensures Intact() && reruns == ledger.reruns == old(reruns) + 1
      ensures OnlyMoved(old(ledger).(reruns := reruns), ledger) && ledger.restarts == old(ledger.restarts)
      ensures ledger.seen == old(ledger.seen)
    {
      reruns := SatAdd8(reruns, 1);
      Log(Retry(RerunOp, reruns));
    }

    method RetryDetection() returns (r: Result<()>)
      requires Intact() && reruns == ledger.reruns && ledger.restarts <= ledger.reruns
      modifies this`reruns, this`rerunFailed, this`state, this`stats, this`seqNo, this`events, this`ledger, bus
      ensures Intact() && reruns == ledger.reruns && ledger.restarts <= ledger.reruns
      ensures old(reruns) >= config.maxDetectReruns ==> r.Ok? && reruns == old(reruns) && unchanged(bus)
      ensures old(reruns) < config.maxDetectReruns ==> reruns == old(reruns) + 1
      ensures r.Ok? ==> state == old(state)
      ensures r.Err? ==> state == Faulted && (r.error.Transport? || r.error.VerifyFailed?)
      ensures bus.regs - {CMD_APSD} == old(bus.regs) - {CMD_APSD}
      ensures ledger.closeEvents == old(ledger.closeEvents)
      ensures ledger.seen - {CMD_APSD} == old(ledger.seen) - {CMD_APSD}
      ensures Reliable() ==> r.Ok?
      ensures r.Err? ==> FailedWith(r.error)
      ensures reruns == old(reruns) ==> ledger.restarts == old(ledger.restarts)
      ensures reruns > old(reruns) && r.Ok? ==>
        RerunMade(Trusted(), old(ledger.restarts), ledger.restarts, old(bus.sent), bus.sent, old(bus.regs[CMD_APSD]), bus.regs[CMD_APSD])
      ensures rerunFailed == (old(rerunFailed) || (reruns > old(reruns) && r.Err?))
    {
      if reruns >= config.maxDetectReruns {
        return Ok(());
      }
      CountRerun();
      r := UpdateOrFail("detect.rerun", CMD_APSD, APSD_RERUN, APSD_RERUN);
      RestartBits(old(bus.regs[CMD_APSD]));
      rerunFailed := rerunFailed || r.Err?;
    }

    method Recognize(found: AdapterType, status: bv8, result: bv8, waitedMs: nat)
      requires Intact()
      modifies this`adapter, this`state, this`stats, this`seqNo, this`events, this`ledger
      ensures Intact() && state == Ready && adapter == Some(found)
      ensures OnlyMoved(old(ledger), ledger) && ledger.restarts == old(ledger.restarts)
      ensures ledger.seen == old(ledger.seen)
      ensures stats.detections == SatAdd64(old(stats).detections, 1)
      ensures Announced(found)
    {
      stats := stats.(detections := SatAdd64(stats.detections, 1));
      adapter := Some(found);
      Transition(Ready);
      Announce(Detect(found, status, result, waitedMs));
    }

    // A detection that is not over: rerun it if it is due and may be, or give up.
    method RerunOrFail(op: string, error: ChargerError) returns (r: Result<()>)
      requires Intact() && reruns == ledger.reruns && ledger.restarts <= ledger.reruns
      modifies this`reruns, this`rerunFailed, this`state, this`stats, this`seqNo, this`events, this`ledger, bus
      ensures Intact() && reruns == ledger.reruns && ledger.restarts <= ledger.reruns
      ensures r.Ok? ==> state == old(state)
      ensures r.Err? ==> state == Faulted
      ensures old(reruns) >= config.maxDetectReruns ==> r == Err(error) && reruns == old(reruns) && unchanged(bus)
      ensures old(reruns) < config.maxDetectReruns ==> reruns == old(reruns) + 1
      ensures old(reruns) < config.maxDetectReruns && r.Err? ==> r.error.Transport? || r.error.VerifyFailed?
      ensures bus.regs - {CMD_APSD} == old(bus.regs) - {CMD_APSD}
      ensures ledger.closeEvents == old(ledger.closeEvents)
      ensures ledger.seen - {CMD_APSD} == old(ledger.seen) - {CMD_APSD}
      ensures Reliable() && old(reruns) < config.maxDetectReruns ==> r.Ok?
      ensures r.Err? ==> FailedWith(r.error)
      ensures reruns == old(reruns) ==> ledger.restarts == old(ledger.restarts)
      ensures reruns > old(reruns) && r.Ok? ==>
        RerunMade(Trusted(), old(ledger.restarts), ledger.restarts, old(bus.sent), bus.sent, old(bus.regs[CMD_APSD]), bus.regs[CMD_APSD])
      ensures rerunFailed == (old(rerunFailed) || (reruns > old(reruns) && r.Err?))
    {
      if reruns >= config.maxDetectReruns {
        Fail(op, error);
        return Err(error);
      }
      r := RetryDetection();
    }

    // Whether detection goes on after a sample that named no adapter.
    method KeepTrying(error: ChargerError, elapsed: nat) returns (r: Result<()>)
      requires Intact() && reruns == ledger.reruns <= config.maxDetectReruns && ledger.restarts <= ledger.reruns
      requires Undecided(error, ledger.seen, config.qc35)
      modifies this`reruns, this`rerunFailed, this`state, this`stats, this`seqNo, this`events, this`ledger, bus
      ensures Intact() && reruns == ledger.reruns <= config.maxDetectReruns && ledger.restarts <= ledger.reruns
      ensures r.Ok? ==> state == old(state)
      ensures r.Ok? ==> RerunWhenDue(elapsed, old(reruns), reruns, ledger.seen)
      ensures r.Ok? ==> reruns == old(reruns) + 1
                        || (reruns == old(reruns) && elapsed < config.detectTimeoutMs && error.DetectionNotComplete?)
      ensures r.Err? ==> state == Faulted && old(reruns) <= reruns
      ensures r.Err? && (r.error.DetectionTimeout? || r.error.AdapterCheckTimeout?) ==> reruns == config.maxDetectReruns
      ensures r.Err? && r.error.DetectionTimeout? ==> r.error.waitedMs == elapsed >= config.detectTimeoutMs
      ensures bus.regs - {CMD_APSD} == old(bus.regs) - {CMD_APSD}
      ensures ledger.closeEvents == old(ledger.closeEvents)
      ensures ledger.seen - {CMD_APSD} == old(ledger.seen) - {CMD_APSD}
      ensures Answered(if r.Err? then Err(r.error) else Ok(Pending(elapsed, attempts)), ledger.seen, config.qc35)
      ensures Reliable() && r.Err? ==> !OfTheLink(r.error)
      ensures r.Err? ==> FailedWith(r.error)
      ensures reruns == old(reruns) ==> ledger.restarts == old(ledger.restarts)
      ensures reruns > old(reruns) && r.Ok? ==>
        RerunMade(Trusted(), old(ledger.restarts), ledger.restarts, old(bus.sent), bus.sent, old(bus.regs[CMD_APSD]), bus.regs[CMD_APSD])
      ensures rerunFailed == (old(rerunFailed) || (reruns > old(reruns) && r.Err?))
    {
      DueInBits(error, ledger.seen, config.qc35);
      if error.DetectionNotComplete? {
        if elapsed < config.detectTimeoutMs {
          return Ok(());
        }
        r := RerunOrFail("detect.timeout", DetectionTimeout(elapsed));
        RerunsReadElsewhere(old(ledger.seen), ledger.seen);
      } else if error.AdapterCheckTimeout? {
        r := RerunOrFail("detect.unstable", error);
        RerunsReadElsewhere(old(ledger.seen), ledger.seen);
      } else {
        Fail("detect.decode", error);
        return Err(error);
      }
    }

    // Everything a step does once the clock is running, but for recording the answer.
    method DetectRunning(nowMs: nat) returns (r: Result<Detection>)
      requires Intact() && detectStarted.Some?
      requires reruns == ledger.reruns <= config.maxDetectReruns && ledger.restarts <= ledger.reruns
      modifies this`attempts, this`adapter, this`reruns, this`rerunFailed, this`state, this`stats, this`seqNo, this`events, this`ledger, bus
      ensures Intact() && reruns == ledger.reruns <= config.maxDetectReruns && ledger.restarts <= ledger.reruns
      ensures r.Ok? && r.value.Recognized? ==>
        state == Ready && adapter == Some(r.value.adapter) && reruns == old(reruns)
        && bus.regs == old(bus.regs) && bus.sent == old(bus.sent)
      ensures r.Ok? && r.value.Pending? ==> state == old(state) && adapter == old(adapter)
      ensures r.Ok? && r.value.Pending? ==>
        && r.value.elapsedMs == SatSub(nowMs, detectStarted.value)
        && (reruns == old(reruns) + 1 || (reruns == old(reruns) && r.value.elapsedMs < config.detectTimeoutMs))
      ensures r.Err? ==> state == Faulted && adapter == old(adapter) && old(reruns) <= reruns
      ensures r.Err? && (r.error.DetectionTimeout? || r.error.AdapterCheckTimeout?) ==> reruns == config.maxDetectReruns
      ensures r.Err? && r.error.DetectionTimeout? ==>
        r.error.waitedMs == SatSub(nowMs, detectStarted.value) >= config.detectTimeoutMs
      ensures r.Ok? && r.value.Pending? ==>
        && detectStarted.Some?
        && r.value == Pending(SatSub(nowMs, detectStarted.value), SatAdd8(old(attempts), 1))
      ensures Answered(r, ledger.seen, config.qc35)
      ensures bus.regs - {CMD_APSD} == old(bus.regs) - {CMD_APSD}
      ensures ledger.closeEvents == old(ledger.closeEvents)
      ensures Reliable() && r.Err? ==> !OfTheLink(r.error)
      ensures r.Err? ==> FailedWith(r.error)
      ensures r.Ok? && r.value.Pending? ==> RerunWhenDue(r.value.elapsedMs, old(reruns), reruns, ledger.seen)
      ensures reruns > old(reruns) && r.Ok? ==>
        RerunMade(Trusted(), old(ledger.restarts), ledger.restarts, old(bus.sent), bus.sent, old(bus.regs[CMD_APSD]), bus.regs[CMD_APSD])
      ensures rerunFailed == (old(rerunFailed) || (r.Err? && reruns > old(reruns)))
      ensures reruns == old(reruns) ==> ledger.restarts == old(ledger.restarts)
      ensures r.Ok? && r.value.Recognized? ==> Announced(r.value.adapter)
    {
      var sampled := Sample("detect");
      if sampled.Err? {
        return Err(sampled.error);
      }
      var (status, result) := sampled.value;
      attempts := SatAdd8(attempts, 1);
      var elapsed := SatSub(nowMs, detectStarted.value);
      var decoded := DecodeAdapter(status, result, config.qc35);
      if decoded.Ok? {
        Recognize(decoded.value, status, result, elapsed);
        return Ok(Recognized(decoded.value));
      }
      var kept := KeepTrying(decoded.error, elapsed);
      if kept.Err? {
        return Err(kept.error);
      }
      return Ok(Pending(elapsed, attempts));
    }

    method DetectAt(nowMs: nat) returns (r: Result<Detection>)
      requires Intact() && DetectionBounded() && detectStarted.Some? && clockMs == nowMs && state != Idle
      modifies this`attempts, this`adapter, this`reruns, this`rerunFailed, this`pendingAt, this`state, this`stats
      modifies this`seqNo, this`events, this`ledger, bus
      ensures Intact() && DetectionBounded() && state != Idle && (state == Closed ==> old(state) == Closed)
      ensures r.Ok? && r.value.Recognized? ==>
        state == Ready && adapter == Some(r.value.adapter)
        && bus.regs == old(bus.regs) && bus.sent == old(bus.sent)
      ensures r.Ok? && r.value.Pending? ==> adapter == old(adapter) && pendingAt == old(pendingAt) + {nowMs}
      ensures r.Ok? && r.value.Pending? ==> PendingBudget(nowMs + 1) < old(PendingBudget(nowMs))
      ensures r.Err? ==> state == Faulted && adapter == old(adapter)
      ensures r.Err? && (r.error.DetectionTimeout? || r.error.AdapterCheckTimeout?) ==> reruns == config.maxDetectReruns
      ensures r.Err? && r.error.DetectionTimeout? ==>
        r.error.waitedMs == SatSub(nowMs, detectStarted.value) >= config.detectTimeoutMs
      ensures r.Ok? && r.value.Pending? ==>
        && detectStarted.Some?
        && r.value == Pending(SatSub(nowMs, detectStarted.value), SatAdd8(old(attempts), 1))
      ensures Answered(r, ledger.seen, config.qc35)
      ensures bus.regs - {CMD_APSD} == old(bus.regs) - {CMD_APSD}
      ensures ledger.closeEvents == old(ledger.closeEvents)
      ensures Reliable() && r.Err? ==> !OfTheLink(r.error)
      ensures r.Err? ==> FailedWith(r.error)
      ensures r.Ok? && r.value.Pending? ==> RerunWhenDue(r.value.elapsedMs, old(reruns), reruns, ledger.seen)
      ensures reruns > old(reruns) && r.Ok? ==>
        RerunMade(Trusted(), old(ledger.restarts), ledger.restarts, old(bus.sent), bus.sent, old(bus.regs[CMD_APSD]), bus.regs[CMD_APSD])
      ensures rerunFailed == (old(rerunFailed) || (r.Err? && reruns > old(reruns)))
      ensures r.Ok? && r.value.Recognized? ==> Announced(r.value.adapter)
    {
      ghost var was := reruns;
      r := DetectRunning(nowMs);
      if r.Ok? && r.value.Pending? {
        PendingSpends(config, detectStarted.value, was, reruns, nowMs, pendingAt);
        pendingAt := pendingAt + {nowMs};
      } else {
        RerunsFit(config, detectStarted.value, was, reruns, nowMs, pendingAt);
      }
    }

    // The step of an open session.
    method DetectOpen(nowMs: nat) returns (r: Result<Detection>)
      requires Valid() && state != Closed && nowMs >= clockMs
      modifies this, bus
      ensures Intact() && DetectionBounded() && ledger.closeEvents == old(ledger.closeEvents)
      ensures state != Closed
      ensures r.Ok? && r.value.Recognized? ==>
        state == Ready && adapter == Some(r.value.adapter)
        && bus.regs == old(bus.regs) && bus.sent == old(bus.sent)
      ensures r.Ok? && r.value.Pending? ==> adapter == old(adapter) && pendingAt == old(pendingAt) + {nowMs}
      ensures r.Ok? && r.value.Pending? ==> PendingBudget(nowMs + 1) < old(PendingBudget(nowMs))
      ensures r.Err? ==> state == Faulted && adapter == old(adapter)
      ensures r.Err? && (r.error.DetectionTimeout? || r.error.AdapterCheckTimeout?) ==> reruns == config.maxDetectReruns
      ensures r.Err? && r.error.DetectionTimeout? ==>
        detectStarted.Some? && r.error.waitedMs == SatSub(nowMs, detectStarted.value) >= config.detectTimeoutMs
      ensures clockMs == nowMs
      ensures r.Ok? && r.value.Pending? ==>
        && detectStarted.Some?
        && r.value == Pending(SatSub(nowMs, detectStarted.value), SatAdd8(old(attempts), 1))
      ensures Answered(r, ledger.seen, config.qc35)
      ensures bus.regs - {CMD_APSD} == old(bus.regs) - {CMD_APSD}
      ensures Reliable() && r.Err? ==> !OfTheLink(r.error)
      ensures r.Err? ==> FailedWith(r.error)
      ensures r.Ok? && r.value.Pending? ==> RerunWhenDue(r.value.elapsedMs, old(reruns), reruns, ledger.seen)
      ensures reruns > old(reruns) && r.Ok? ==>
        RerunMade(Trusted(), old(ledger.restarts), ledger.restarts, old(bus.sent), bus.sent, old(bus.regs[CMD_APSD]), bus.regs[CMD_APSD])
      ensures rerunFailed == (old(rerunFailed) || (r.Err? && reruns > old(reruns)))
      ensures r.Ok? && r.value.Recognized? ==> Announced(r.value.adapter)
    {
      BeginDetection(nowMs);
      r := DetectAt(nowMs);
    }

    /**
     A detection step: every Pending answer spends detection budget, whatever the device
     and the link do, and only the detection command register may be written.
     */
    method DetectStep(nowMs: nat) returns (r: Result<Detection>)
      requires Valid() && nowMs >= clockMs
      modifies this, bus
      ensures Valid()
      ensures old(state) == Closed ==> r == Err(NotOpen) && unchanged(this) && unchanged(bus)
      ensures old(state) != Closed ==> state != Closed
      ensures r.Ok? && r.value.Recognized? ==>
        state == Ready && adapter == Some(r.value.adapter)
        && bus.regs == old(bus.regs) && bus.sent == old(bus.sent)
      ensures r.Ok? && r.value.Pending? ==> adapter == old(adapter) && pendingAt == old(pendingAt) + {nowMs}
      ensures r.Ok? && r.value.Pending? ==> PendingBudget(nowMs + 1) < old(PendingBudget(nowMs))
      ensures r.Err? && old(state) != Closed ==> state == Faulted && adapter == old(adapter)
      ensures r.Err? && (r.error.DetectionTimeout? || r.error.AdapterCheckTimeout?) ==> reruns == config.maxDetectReruns
      ensures r.Err? && r.error.DetectionTimeout? ==>
        detectStarted.Some? && r.error.waitedMs == SatSub(nowMs, detectStarted.value) >= config.detectTimeoutMs
      ensures clockMs == if old(state) == Closed then old(clockMs) else nowMs
      ensures r.Ok? && r.value.Pending? ==>
        && detectStarted.Some?
        && r.value == Pending(SatSub(nowMs, detectStarted.value), SatAdd8(old(attempts), 1))
      ensures Answered(r, ledger.seen, config.qc35)
      ensures bus.regs - {CMD_APSD} == old(bus.regs) - {CMD_APSD}
      ensures Reliable() && r.Err? ==> !OfTheLink(r.error)
      ensures r.Err? && old(state) != Closed ==> FailedWith(r.error)
      ensures r.Ok? && r.value.Pending? ==> RerunWhenDue(r.value.elapsedMs, old(reruns), reruns, ledger.seen)
      ensures reruns > old(reruns) && r.Ok? ==>
        RerunMade(Trusted(), old(ledger.restarts), ledger.restarts, old(bus.sent), bus.sent, old(bus.regs[CMD_APSD]), bus.regs[CMD_APSD])
      ensures rerunFailed == (old(rerunFailed) || (r.Err? && reruns > old(reruns)))
      ensures r.Ok? && r.value.Recognized? ==> Announced(r.value.adapter)
    {
      if state == Closed {
        return Err(NotOpen);
      }
      r := DetectOpen(nowMs);
    }
  }

  lemma DueInBits(error: ChargerError, seen: map<u16, bv8>, qc35: Qc35Support)
    requires Undecided(error, seen, qc35)
    ensures error.AdapterCheckTimeout? <==> seen[APSD_STATUS] & 0x01 != 0 && seen[APSD_STATUS] & 0x40 != 0
  {
    if seen[APSD_STATUS] & 0x01 != 0 {
      RecognizedExactly(seen[APSD_STATUS], seen[APSD_RESULT_STATUS], qc35);
    }
  }

  // Detection was commanded to start over, once by the journal: the rerun bit was sent, with all
  // others as they were, and nothing else; and if writes can be trusted the register holds it.
  ghost predicate RerunMade(
    trusted: bool, restarts: nat, restarts': nat, sent: seq<Command>, sent': seq<Command>, current: bv8, current': bv8)
  {
    && restarts' == restarts + 1
    && SentOnly(sent, sent', Command(CMD_APSD, current | 0x01)) && |sent'| > |sent|
    && (trusted ==> current' == current | 0x01)
  }

  lemma RestartBits(b: bv8)
    ensures Merge(b, APSD_RERUN, APSD_RERUN) == b | 0x01 && (b | 0x01) & 0x01 == 0x01
  {
  }

  // --- what the device said ---

  // The last status read does, or does not, look like a live link.
  ghost predicate Alive(seen: map<u16, bv8>) {
    APSD_STATUS in seen && seen[APSD_STATUS] != 0xFF
  }

  ghost predicate Dead(seen: map<u16, bv8>) {
    APSD_STATUS in seen && seen[APSD_STATUS] == 0xFF
  }

  // The status and result last read decode to this outcome; the result is read only once
  // detection is done.
  ghost predicate DecodesTo(outcome: Result<AdapterType>, seen: map<u16, bv8>, qc35: Qc35Support) {
    && APSD_STATUS in seen
    && if seen[APSD_STATUS] & APSD_DTC_STATUS_DONE == 0 then outcome == Err(DetectionNotComplete)
       else APSD_RESULT_STATUS in seen
            && outcome == DecodeAdapter(seen[APSD_STATUS], seen[APSD_RESULT_STATUS], qc35)
  }

  lemma RerunsReadElsewhere(before: map<u16, bv8>, after: map<u16, bv8>)
    requires after - {CMD_APSD} == before - {CMD_APSD}
    ensures APSD_STATUS in after <==> APSD_STATUS in before
    ensures APSD_STATUS in after ==> after[APSD_STATUS] == before[APSD_STATUS]
    ensures APSD_RESULT_STATUS in after <==> APSD_RESULT_STATUS in before
    ensures APSD_RESULT_STATUS in after ==> after[APSD_RESULT_STATUS] == before[APSD_RESULT_STATUS]
  {
    var rest := before - {CMD_APSD};
    assert APSD_STATUS in rest <==> APSD_STATUS in before;
    assert APSD_RESULT_STATUS in rest <==> APSD_RESULT_STATUS in before;
  }

  // The failures of accesses, as against those of detection.
  predicate OfTheLink(e: ChargerError) {
    e.Transport? || e.VerifyFailed?
  }

  ghost predicate Undecided(error: ChargerError, seen: map<u16, bv8>, qc35: Qc35Support) {
    DecodesTo(Err(error), seen, qc35)
  }

  ghost predicate Answered(answer: Result<Detection>, seen: map<u16, bv8>, qc35: Qc35Support) {
    match answer
    case Ok(Recognized(found)) => DecodesTo(Ok(found), seen, qc35)
    case Ok(Pending(_, _)) =>
      DecodesTo(Err(DetectionNotComplete), seen, qc35)
      || (APSD_STATUS in seen && DecodesTo(Err(AdapterCheckTimeout(seen[APSD_STATUS])), seen, qc35))
    case Err(DetectionTimeout(_)) => DecodesTo(Err(DetectionNotComplete), seen, qc35)
    case Err(AdapterCheckTimeout(_)) => DecodesTo(Err(answer.error), seen, qc35)
    case Err(UnknownAdapterPattern(_)) => DecodesTo(Err(answer.error), seen, qc35)
    case Err(_) => true
  }

  ghost predicate Polled(answer: Monitored, seen: map<u16, bv8>, qc35: Qc35Support) {
    match answer
    case Detached => DecodesTo(Err(DetectionNotComplete), seen, qc35)
    case Unchanged(found) => DecodesTo(Ok(found), seen, qc35)
    case Changed(found) => DecodesTo(Ok(found), seen, qc35)
  }

  // What a poll reports, against the adapter known before and after it.
  predicate Observed(seen: Monitored, before: Option<AdapterType>, after: Option<AdapterType>) {
    match seen
    case Detached => after == None
    case Unchanged(found) => after == Some(found) == before
    case Changed(found) => after == Some(found) != before
  }

  /**
   The journal reconstructs the session: in every reachable state its records are numbered
   from one, its state changes chain from closed to the current state, its counts are the
   counters, it holds at most one close, and on an exact link its writes replayed over the
   initial registers give the current ones.
   */
  lemma JournalReplaysTheSession(s: Session)
    requires s.Valid() && s.events != []
    ensures forall k :: 0 <= k < |s.events| ==> s.events[k].number == Sat64(k + 1)
    ensures Chained(s.events) && EndsIn(s.events, s.state)
    ensures s.stats.readCount == Sat64(Count((k: EventKind) => k.Read?, s.events))
    ensures s.stats.writes == Sat64(Count((k: EventKind) => k.Write?, s.events))
    ensures s.stats.retries == Sat64(Count((k: EventKind) => k.Retry? && k.retried != RerunOp, s.events))
    ensures var resets := Count((k: EventKind) => k.Reset?, s.events);
      resets == s.bus.resets > 0 && s.stats.resets == Sat64(resets - 1)
    ensures var closes := Count((k: EventKind) => k.Close?, s.events);
      closes <= 1 && (closes == 1 ==> s.state == Closed)
    ensures s.bus.exact ==> forall a :: a in s.bus.regs ==>
        if exists k :: 0 <= k < |s.events| && Carried(s.events[k], WriteAccess, a) != None
        then LastCarried(s.events, WriteAccess, a, s.bus.regs[a])
        else s.bus.regs[a] == s.bus.initial[a]
  {
    DigestCounts(s.events);
    DigestState(s.events);
    DigestChain(s.events);
    forall a | a in s.bus.regs && s.bus.exact
      ensures if exists k :: 0 <= k < |s.events| && Carried(s.events[k], WriteAccess, a) != None
              then LastCarried(s.events, WriteAccess, a, s.bus.regs[a])
              else s.bus.regs[a] == s.bus.initial[a]
    {
      DigestCollects(s.events, WriteAccess, a);
    }
  }

  const PLAN_REGS: set<u16> := {USBIN_CURRENT_LIMIT_CFG, CMD_ICL_OVERRIDE, HVDCP_PULSE_COUNT_MAX}

  // --- frames of register files ---

  lemma WroteOnly(before: map<u16, bv8>, after: map<u16, bv8>, addr: u16)
    requires after - {addr} == before - {addr} && addr in before && addr in after
    ensures after == before[addr := after[addr]]
  {
    forall a | a in before || a in after
      ensures a in before && a in after && (a != addr ==> after[a] == before[a])
    {
      if a != addr {
        assert a in before - {addr} <==> a in before;
        assert a in after - {addr} <==> a in after;
        assert (before - {addr})[a] == before[a];
        assert (after - {addr})[a] == after[a];
      }
    }
  }

  lemma WithoutMore(before: map<u16, bv8>, after: map<u16, bv8>, few: set<u16>, many: set<u16>)
    requires after - few == before - few && few <= many
    ensures after - many == before - many
  {
    assert after - many == (after - few) - many;
    assert before - many == (before - few) - many;
  }

  lemma EnabledBits(b: bv8)
    ensures Merge(b, OVERRIDE_BITS, OVERRIDE_BITS) == b | OVERRIDE_BITS
  {
  }

  lemma VoltageBits(b: bv8, v: Qc2Voltage)
    ensures Merge(b, QC2_VOLTAGE_MASK, v.Raw()) == (b & 0x3F) | v.Raw()
  {
  }

  lemma WritesMakeThePlan(plan: ChargePlan, before: map<u16, bv8>, limited: map<u16, bv8>, enabled: map<u16, bv8>, after: map<u16, bv8>)
    requires CONTROL_REGS <= before.Keys && CONTROL_REGS <= limited.Keys && CONTROL_REGS <= enabled.Keys && CONTROL_REGS <= after.Keys
    requires limited - {USBIN_CURRENT_LIMIT_CFG} == before - {USBIN_CURRENT_LIMIT_CFG}
    requires limited[USBIN_CURRENT_LIMIT_CFG] == Byte(plan.iclRaw)
    requires enabled - {CMD_ICL_OVERRIDE} == limited - {CMD_ICL_OVERRIDE}
    requires enabled[CMD_ICL_OVERRIDE] == Merge(limited[CMD_ICL_OVERRIDE], OVERRIDE_BITS, OVERRIDE_BITS)
    requires match plan.policy.qc2
             case None => after == enabled
             case Some(volts) =>
               && after - {HVDCP_PULSE_COUNT_MAX} == enabled - {HVDCP_PULSE_COUNT_MAX}
               && after[HVDCP_PULSE_COUNT_MAX] == Merge(enabled[HVDCP_PULSE_COUNT_MAX], QC2_VOLTAGE_MASK, volts.Raw())
    ensures after == Programmed(before, plan)
  {
    WroteOnly(before, limited, USBIN_CURRENT_LIMIT_CFG);
    WroteOnly(limited, enabled, CMD_ICL_OVERRIDE);
    EnabledBits(limited[CMD_ICL_OVERRIDE]);
    if plan.policy.qc2.Some? {
      WroteOnly(enabled, after, HVDCP_PULSE_COUNT_MAX);
      VoltageBits(enabled[HVDCP_PULSE_COUNT_MAX], plan.policy.qc2.value);
    }
  }

  // As register traffic, with possibly a move to the faulted state.
  ghost predicate OnlyMoved(before: Ledger, after: Ledger) {
    after.closeEvents == before.closeEvents && after.reruns == before.reruns
  }

  // The journal gained register traffic only: no state change, rerun or close.
  ghost predicate OnlyTraffic(before: Ledger, after: Ledger) {
    && after.state == before.state && after.chained == before.chained
    && after.closeEvents == before.closeEvents
    && after.reruns == before.reruns
  }
}
