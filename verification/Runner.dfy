/** The loops that drive a session to an outcome (crates/host/src/runner.rs), and any other use of it. */
module Runner {
  import opened Widths
  import opened Outcomes
  import opened Icl
  import opened SmbPolicy
  import opened SmbBus
  import opened Journal
  import opened Charger

  datatype SessionOutcome = SessionOutcome(adapter: AdapterType, plan: ChargePlan, state: State, stats: Stats)

  // The step counter after `turns` turns of the loop.
  function StepsAfter(turns: nat): u32 {
    if turns == 0 then 0 else SatAdd32(StepsAfter(turns - 1), 1)
  }

  lemma {:induction false} StepsSaturate(turns: nat)
    ensures StepsAfter(turns) == Min(turns, U32_MAX)
  {
    if turns > 0 {
      StepsSaturate(turns - 1);
    }
  }

  /** The fuse blows in the end exactly when it is below the counter's ceiling. */
  lemma FuseBlowsExactly(maxSteps: u32)
    ensures (exists turns: nat :: StepsAfter(turns) > maxSteps) <==> maxSteps < U32_MAX
  {
    StepsSaturate(maxSteps + 1);
    if turns: nat :| StepsAfter(turns) > maxSteps {
      StepsSaturate(turns);
    }
  }

  lemma BudgetShrinks(c: Config, started: Option<nat>, reruns: u8, sooner: nat, later: nat)
    requires sooner <= later
    ensures Budget(c, started, reruns, later) <= Budget(c, started, reruns, sooner)
  {
  }

  // One detection step, as far as the loop cares.
  method Poll(s: Session, nowMs: nat) returns (r: Result<Detection>)
    requires s.Valid() && s.clockMs <= nowMs
    modifies s, s.bus
    ensures s.Valid() && s.clockMs <= nowMs
    ensures s.bus.regs - {CMD_APSD} == old(s.bus.regs) - {CMD_APSD}
    ensures r.Ok? && r.value.Pending? ==> s.PendingBudget(nowMs + 1) < old(s.PendingBudget(nowMs))
    ensures r.Ok? && r.value.Recognized? ==>
      s.state == Ready && s.adapter == Some(r.value.adapter)
      && DecodesTo(Ok(r.value.adapter), s.ledger.seen, s.config.qc35)
    ensures r.Err? ==> s.state == Closed || s.state == Faulted
  {
    r := s.DetectStep(nowMs);
  }

  /**
   Detection driven to an outcome, each step taking at least `stepMs`. If step and pause take
   a millisecond together it ends within the session's own detection budget, whatever the
   device and the link do; the step fuse bounds it as well. On a clock that stands still,
   and with the fuse at the counter's ceiling, it need not end.
   */
  method RunUntilDetected(s: Session, startMs: nat, pollMs: nat, stepMs: nat, maxSteps: u32)
      returns (r: Result<AdapterType>, ghost calls: nat)
    requires s.Valid() && startMs >= s.clockMs
    requires pollMs + stepMs > 0 || maxSteps < U32_MAX
    modifies s, s.bus
    ensures s.Valid()
    ensures maxSteps < U32_MAX ==> calls <= maxSteps
    ensures pollMs + stepMs > 0 ==> calls <= old(s.PendingBudget(startMs)) + 1
    ensures r.Ok? ==>
      && s.state == Ready && s.adapter == Some(r.value)
      && DecodesTo(r, s.ledger.seen, s.config.qc35)
    ensures s.bus.regs - {CMD_APSD} == old(s.bus.regs) - {CMD_APSD}
    // It stops halfway only on the fuse, which a fuse above the budget never is.
    ensures r.Err? && s.state != Closed && s.state != Faulted ==> r.error.DetectionTimeout? && calls == maxSteps
    ensures r.Err? && pollMs + stepMs > 0 && old(s.PendingBudget(startMs)) < maxSteps ==>
      s.state == Closed || s.state == Faulted
  {
    var now := startMs;
    var steps: u32 := 0;
    calls := 0;
    while true
      invariant s.Valid() && s.clockMs <= now
      invariant steps == StepsAfter(calls) == Min(calls, U32_MAX) <= maxSteps
      invariant pollMs + stepMs > 0 ==> calls + s.PendingBudget(now) <= old(s.PendingBudget(startMs))
      invariant s.bus.regs - {CMD_APSD} == old(s.bus.regs) - {CMD_APSD}
      decreases if pollMs + stepMs > 0 then s.PendingBudget(now) else maxSteps - steps
    {
      steps := SatAdd32(steps, 1);
      if steps > maxSteps {
        return Err(DetectionTimeout(now)), calls;
      }
      var detection := Poll(s, now);
      calls := calls + 1;
      match detection {
        case Err(error) =>
          return Err(error), calls;
        case Ok(Recognized(found)) =>
          return Ok(found), calls;
        case Ok(Pending(_, _)) =>
          var late: int := *;
          var woken := now + stepMs + pollMs + Max(late, 0);
          if pollMs + stepMs > 0 {
            BudgetShrinks(s.config, s.detectStarted, s.reruns, now + 1, woken);
          }
          now := woken;
      }
    }
  }

  /**
   The whole scenario: detect, announce the adapter to a callback that may refuse it, apply. It
   fails as detection does, as the callback does, or as applying the policy does.
   */
  method RunUntilReady(
    s: Session, startMs: nat, pollMs: nat, stepMs: nat, maxSteps: u32, refusal: Option<ChargerError>)
      returns (r: Result<SessionOutcome>, ghost calls: nat, ghost detected: Result<AdapterType>)
    requires s.Valid() && startMs >= s.clockMs
    requires pollMs + stepMs > 0 || maxSteps < U32_MAX
    modifies s, s.bus
    ensures s.Valid()
    ensures maxSteps < U32_MAX ==> calls <= maxSteps
    ensures pollMs + stepMs > 0 ==> calls <= old(s.PendingBudget(startMs)) + 1
    ensures r.Ok? ==>
      && s.state == Ready == r.value.state && s.adapter == Some(r.value.adapter)
      && r.value.stats == s.stats && r.value.plan.adapter == r.value.adapter
      && Faithful(s.config, r.value.plan)
    ensures r.Ok? && s.Trusted() ==>
      s.bus.regs == Programmed(old(s.bus.regs)[CMD_APSD := s.bus.regs[CMD_APSD]], r.value.plan)
    ensures r.Ok? ==> detected == Ok(r.value.adapter) && refusal == None
    ensures detected.Err? ==> r == Err(detected.error)
    ensures detected.Ok? && refusal.Some? ==> r == Err(refusal.value) && s.adapter == Some(detected.value)
    ensures detected.Ok? && refusal == None && s.Reliable() && s.config.icl.stepUa > 0 ==> r.Ok?
  {
    ghost var before := s.bus.regs;
    var found;
    found, calls := RunUntilDetected(s, startMs, pollMs, stepMs, maxSteps);
    detected := found;
    if found.Err? {
      return Err(found.error), calls, detected;
    }
    if refusal.Some? {
      return Err(refusal.value), calls, detected;
    }
    WroteOnly(before, s.bus.regs, CMD_APSD);
    var plan := s.Apply(found.value);
    if plan.Err? {
      return Err(plan.error), calls, detected;
    }
    return Ok(SessionOutcome(found.value, plan.value, s.state, s.stats)), calls, detected;
  }

  /** A monitoring cycle writes nothing unless the adapter changed, and then applies its policy. */
  method MonitorCycle(s: Session) returns (r: Result<Option<ChargePlan>>)
    requires s.Valid()
    modifies s, s.bus
    ensures s.Valid()
    ensures r == Ok(None) ==> s.bus.regs == old(s.bus.regs) && s.bus.sent == old(s.bus.sent)
    ensures r.Ok? && r.value.Some? ==>
      && s.state == Ready && s.adapter == Some(r.value.value.adapter) != old(s.adapter)
      && Faithful(s.config, r.value.value)
      && (s.Trusted() ==> s.bus.regs == Programmed(old(s.bus.regs), r.value.value))
    ensures r.Err? ==> s.bus.regs - PLAN_REGS == old(s.bus.regs) - PLAN_REGS
    ensures r == Ok(None) ==> s.adapter == old(s.adapter) || s.adapter == None
    ensures r.Ok? && r.value == None && s.adapter.Some? ==> DecodesTo(Ok(s.adapter.value), s.ledger.seen, s.config.qc35)
  {
    var seen := s.Monitor();
    if seen.Err? {
      return Err(seen.error);
    }
    if !seen.value.Changed? {
      return Ok(None);
    }
    var plan := s.Apply(seen.value.adapter);
    return if plan.Ok? then Ok(Some(plan.value)) else Err(plan.error);
  }

  datatype Call = CallDetect(waitMs: nat) | CallApply(adapter: AdapterType) | CallMonitor | CallReinit | CallClose

  method Perform(s: Session, call: Call, nowMs: nat) returns (laterMs: nat)
    requires s.Valid() && s.clockMs <= nowMs
    modifies s, s.bus
    ensures s.Valid() && s.clockMs <= laterMs
    ensures old(s.state) == Closed ==> unchanged(s) && unchanged(s.bus)
    ensures old(s.state) != Closed && s.state == Closed ==> s.ledger.closeEvents == 1
  {
    laterMs := nowMs;
    match call {
      case CallDetect(waitMs) =>
        laterMs := nowMs + waitMs;
        var _ := s.DetectStep(laterMs);
      case CallApply(adapter) =>
        var _ := s.Apply(adapter);
      case CallMonitor =>
        var _ := s.Monitor();
      case CallReinit =>
        var _ := s.Reinit();
      case CallClose =>
        s.Close();
    }
  }

  /**
   Safety over every sequence of calls and every link: whatever was sent was permitted, a
   failed open sent nothing, each restart of detection is within the configured limit, and a
   session that opened is closed exactly once, by the time it is dropped at the latest.
   */
  method AnySession(s: Session, startMs: nat, script: seq<Call>) returns (opening: Result<()>)
    requires s.Unopened() && s.clockMs <= startMs
    modifies s, s.bus
    ensures s.Valid() && s.state == Closed
    ensures forall k :: 0 <= k < |s.bus.sent| ==> Permitted(s.config, s.bus.sent[k])
    ensures opening.Err? ==> s.bus.sent == [] && s.bus.regs == s.bus.initial && s.ledger.closeEvents == 0
    ensures opening.Ok? ==> s.ledger.closeEvents == 1
    ensures |s.pendingAt| <= s.config.detectTimeoutMs + s.config.maxDetectReruns
    ensures s.ledger.restarts <= s.ledger.reruns <= s.config.maxDetectReruns
    ensures !s.rerunFailed ==> s.ledger.restarts == s.ledger.reruns
  {
    opening := s.Open();
    if opening.Err? {
      return;
    }
    var now := startMs;
    for i := 0 to |script|
      invariant s.Valid() && s.clockMs <= now
      invariant s.state == Closed ==> s.ledger.closeEvents == 1
    {
      now := Perform(s, script[i], now);
    }
    s.Close();
  }
}
