/**
 The HVDCP machine of crates/ln8000-kmdf/src/hvdcp.rs: QC3 pulses with a software
 pulse counter, the FORCE_9V latch, the bus corrections and the negotiation, over a
 register bus any access of which may fail.
 */
module Hvdcp {
  import opened Widths
  import opened Outcomes
  import opened HvdcpBand

  const REG_APSD_STATUS: u16 := 0x1307
  const REG_APSD_RESULT: u16 := 0x1308
  const REG_QC_CHANGE_STATUS: u16 := 0x1309
  const REG_QC_PULSE_COUNT: u16 := 0x130A
  const REG_INT_LATCHED_CLR: u16 := 0x1314
  const REG_USBIN_CMD_IL: u16 := 0x1340
  const REG_CMD_APSD: u16 := 0x1341
  const REG_CMD_ICL_OVERRIDE: u16 := 0x1342
  const REG_CMD_HVDCP_2: u16 := 0x1343
  const REG_TYPE_C_CFG: u16 := 0x1358
  const REG_HVDCP_PULSE_COUNT_MAX: u16 := 0x135B
  const REG_USBIN_ADAPTER_ALLOW: u16 := 0x1360
  const REG_USBIN_OPTIONS_1: u16 := 0x1362
  const REG_USBIN_ICL_CFG: u16 := 0x1370

  const BIT_SINGLE_INC: bv8 := 0x01
  const BIT_SINGLE_DEC: bv8 := 0x02
  const BIT_FORCE_5V: bv8 := 0x08
  const BIT_FORCE_9V: bv8 := 0x10
  const BIT_APSD_DONE: bv8 := 0x01
  const BIT_QC_CHARGER: bv8 := 0x02
  const BIT_DCP: bv8 := 0x08
  const BIT_QC2: bv8 := 0x20
  const BIT_QC3: bv8 := 0x40
  const BIT_QC_CONTINUOUS: bv8 := 0x08
  const BIT_BC1P2_START_ON_CC: bv8 := 0x80
  const BIT_USBIN_SUSPEND: bv8 := 0x01
  const BIT_ICL_OVERRIDE: bv8 := 0x01
  const BIT_APSD_RERUN: bv8 := 0x01
  const HVDCP_ENABLE_BITS: bv8 := 0x4C
  const BIT_HVDCP_AUTONOMOUS: bv8 := 0x20
  const ICL_RAW_500MA: bv8 := 10
  const ICL_RAW_HVDCP2_1P5A: bv8 := 30
  const ICL_RAW_DCP_2A: bv8 := 40
  const ICL_RAW_QC35_40W: bv8 := 60

  const FORCE_9V_PULSES := 20
  const APSD_WAIT_MS := 2_000
  const APSD_POLL_MS := 200
  const FORCE9V_POLL_MS := 50
  const FORCE9V_CONFIRM_N := 2
  const FORCE9V_RISE_UV := 5_600_000
  const FORCE9V_SETTLE_MS := 1_600
  const FORCE9V_EXTEND_MS := 2_400
  const FORCE9V_HARD_CAP_MS := 5_000
  const SWITCHING_MIN_VIN_UV := 8_000_000
  const QC35_DETECT_LO_UV := 5_500_000
  const QC35_DETECT_HI_UV := 6_400_000
  const QC35_CAP_LO_UV := 6_650_000
  const QC35_CAP_HI_UV := 9_800_000
  const QC35_PREP_MAX_INC := 8
  const QC35_DETECT_TIMEOUT_MS := 200
  const QC35_CAP_TIMEOUT_MS := 250
  const QC35_VIN_POLL_MS := 20

  datatype Phase = Idle | Enable | ApsdRerun | ApsdWait | Qc2Force9v | Qc3Pulse | Done | Failed | Qc35Auth

  datatype HvdcpError = SpmiIo | ApsdTimeout | NotQcAdapter

  datatype Outcome = Succeeded | Broke(error: HvdcpError)

  datatype Elevate = PulsePath | ForcePath | Reject

  datatype Pulse = Inc | Dec

  const SRC_CAP_PULSES: seq<Pulse> := [Inc, Dec, Inc, Dec, Inc, Dec]
  const CONFIRM_PULSES: seq<Pulse> := [Inc, Inc, Dec, Dec]

  // `after` is `before` and at most `most` INC pulses more.
  ghost predicate OnlyIncs(before: seq<Pulse>, after: seq<Pulse>, most: nat) {
    before <= after && |after| <= |before| + most && forall k :: |before| <= k < |after| ==> after[k] == Inc
  }

  // After some preparing INCs, SRC_CAP was requested.
  ghost predicate CapRequested(before: seq<Pulse>, after: seq<Pulse>) {
    exists prepared :: OnlyIncs(before, prepared, QC35_PREP_MAX_INC) && prepared + SRC_CAP_PULSES <= after
  }

  lemma OnlyIncsSnoc(before: seq<Pulse>, after: seq<Pulse>, most: nat)
    requires OnlyIncs(before, after, most)
    ensures OnlyIncs(before, after + [Inc], most + 1) && OnlyIncs(before, after, most + 1)
  {
  }

  function PulseBit(p: Pulse): bv8 {
    if p.Inc? then BIT_SINGLE_INC else BIT_SINGLE_DEC
  }

  function StepOf(p: Pulse): int {
    if p.Inc? then STEP_UV else -STEP_UV
  }

  // The software counter after one more pulse: it saturates at both ends.
  function Counted(cnt: int, p: Pulse): int {
    if p.Inc? then Min(cnt + 1, MAX_PULSE_CNT) else Max(cnt - 1, 0)
  }

  // The software counter after the pulses sent since it was last assigned.
  function Count(base: int, sent: seq<Pulse>): int {
    if sent == [] then base else Counted(Count(base, sent[..|sent| - 1]), sent[|sent| - 1])
  }

  // Steps the adapter really moved.
  function Net(sent: seq<Pulse>): int {
    if sent == [] then 0 else Net(sent[..|sent| - 1]) + if sent[|sent| - 1].Inc? then 1 else -1
  }

  lemma CountNetSnoc(base: int, sent: seq<Pulse>, p: Pulse)
    ensures Count(base, sent + [p]) == Counted(Count(base, sent), p)
    ensures Net(sent + [p]) == Net(sent) + if p.Inc? then 1 else -1
  {
    assert (sent + [p])[..|sent|] == sent;
  }

  // crates/ln8000/src/hvdcp_policy.rs
  function PromoteQcCharger(result: bv8, apsdStatus: bv8): bv8 {
    if apsdStatus & BIT_QC_CHARGER != 0 && result & BIT_QC3 == 0 then result | BIT_DCP | BIT_QC2 else result
  }

  function ApsdElevatePath(result: bv8, qc3Continuous: bool): Elevate {
    if result & BIT_QC3 != 0 || qc3Continuous then PulsePath
    else if result & BIT_QC2 != 0 || result & BIT_DCP != 0 then ForcePath
    else Reject
  }

  // A register with one bit cleared; it differs exactly if the bit was set.
  function WithoutCcGate(typeC: bv8): bv8 {
    typeC & 0x7F
  }

  function WithoutSuspend(cmdIl: bv8): bv8 {
    cmdIl & 0xFE
  }

  lemma ClearedBits(b: bv8)
    ensures WithoutCcGate(b) != b <==> b & BIT_BC1P2_START_ON_CC != 0
    ensures WithoutSuspend(b) != b <==> b & BIT_USBIN_SUSPEND != 0
  {
  }

  lemma PathsInBits(result: bv8, continuous: bool)
    ensures ApsdElevatePath(result, continuous) == PulsePath <==> result & 0x40 != 0 || continuous
    ensures ApsdElevatePath(result, continuous) == ForcePath <==> result & 0x40 == 0 && !continuous && result & 0x28 != 0
    ensures ApsdElevatePath(result, continuous) == Reject <==> result & 0x40 == 0 && result & 0x28 == 0 && !continuous
  {
  }

  lemma PromotionInBits(result: bv8, apsdStatus: bv8)
    ensures var promoted := PromoteQcCharger(result, apsdStatus);
      && (apsdStatus & 0x02 != 0 ==> promoted & 0x60 != 0)
      && (apsdStatus & 0x02 == 0 || result & 0x40 != 0 ==> promoted == result)
  {
  }

  lemma PromotedPathInBits(result: bv8, apsdStatus: bv8)
    ensures var promoted := PromoteQcCharger(result, apsdStatus);
      && (promoted & 0x40 != 0 <==> result & 0x40 != 0)
      && (promoted & 0x40 == 0 ==> (promoted & 0x28 != 0 <==> result & 0x28 != 0 || apsdStatus & 0x02 != 0))
  {
  }

  // crates/ln8000/src/qc35_auth.rs
  predicate AuthAttempt(vin: int) {
    0 < vin < QC35_DETECT_HI_UV
  }

  predicate DetectWindow(vin: int) {
    QC35_DETECT_LO_UV < vin < QC35_DETECT_HI_UV
  }

  // A sample of the first 1.6 s had risen to 5.6 V, and not to 8.0 V.
  ghost predicate RoseEarly(samples: seq<int>) {
    exists k :: 0 <= k < |samples| && RoseAt(samples, k)
  }

  predicate RoseAt(samples: seq<int>, k: nat)
    requires k < |samples|
  {
    50 * k < 1_600 && 5_600_000 <= samples[k] < 8_000_000
  }

  // None of these samples ends the wait, and whether it is extended follows from them.
  ghost predicate Unsettled(past: seq<int>, extended: bool) {
    && (extended <==> RoseEarly(past))
    && (forall k :: 0 <= k < |past| && past[k] < 8_000_000 ==> 50 * k < if extended then 4_000 else 1_600)
    && (forall k :: 0 < k < |past| ==> past[k - 1] < 8_000_000 || past[k] < 8_000_000)
  }

  // Two samples in a row at the level the pump switches at.
  predicate Confirms(past: seq<int>, last: int) {
    last >= 8_000_000 && past != [] && past[|past| - 1] >= 8_000_000
  }

  lemma RoseEarlySnoc(samples: seq<int>, last: int)
    ensures RoseEarly(samples + [last]) <==>
      RoseEarly(samples) || (50 * |samples| < 1_600 && 5_600_000 <= last < 8_000_000)
  {
    if RoseEarly(samples) {
      var k :| 0 <= k < |samples| && RoseAt(samples, k);
      assert RoseAt(samples + [last], k);
    }
    if 50 * |samples| < 1_600 && 5_600_000 <= last < 8_000_000 {
      assert RoseAt(samples + [last], |samples|);
    }
    if RoseEarly(samples + [last]) {
      var k :| 0 <= k < |samples + [last]| && RoseAt(samples + [last], k);
      assert k < |samples| ==> RoseAt(samples, k);
    }
  }

  lemma StillUnsettled(past: seq<int>, last: int, extended: bool)
    requires Unsettled(past, extended)
    requires !Confirms(past, last)
    requires last < 8_000_000 ==> 50 * |past| < if extended then 4_000 else 1_600
    ensures Unsettled(past + [last], extended || 5_600_000 <= last < 8_000_000)
  {
    RoseEarlySnoc(past, last);
  }

  // Detection is done, and found QC2 or QC3.
  predicate Latched(status: bv8, result: bv8, qc: bv8) {
    var qc3 := result & BIT_QC3 != 0 || qc & BIT_QC_CONTINUOUS != 0;
    var qc2 := result & BIT_QC2 != 0
               || (status & BIT_QC_CHARGER != 0 && result & BIT_DCP != 0 && result & BIT_QC3 == 0 && !qc3);
    status & BIT_APSD_DONE != 0 && (qc3 || qc2)
  }

  /** In bits: detection done, and a QC2, QC3, continuous or Quick Charge DCP signature. */
  lemma LatchedInBits(status: bv8, result: bv8, qc: bv8)
    ensures Latched(status, result, qc) <==>
      status & 0x01 != 0 && (result & 0x60 != 0 || qc & 0x08 != 0 || (status & 0x02 != 0 && result & 0x08 != 0))
  {
  }

  // A plain DCP answer without a QC signature that was there before.
  predicate Demoted(result: bv8, preResult: bv8) {
    && result & BIT_DCP != 0
    && ((result & BIT_QC3 == 0 && preResult & BIT_QC3 != 0) || (result & BIT_QC2 == 0 && preResult & BIT_QC2 != 0))
  }

  // Both signatures survive in one of the two answers.
  ghost predicate KeepsSignature(result: bv8, preResult: bv8) {
    result & BIT_DCP != 0 ==>
      (preResult & BIT_QC3 != 0 ==> result & BIT_QC3 != 0) && (preResult & BIT_QC2 != 0 ==> result & BIT_QC2 != 0)
  }

  lemma DemotionLosesABit(result: bv8, preResult: bv8)
    ensures !Demoted(result, preResult) <==> KeepsSignature(result, preResult)
    ensures KeepsSignature(preResult, preResult)
  {
  }

  predicate CapWindow(vin: int) {
    QC35_CAP_LO_UV <= vin <= QC35_CAP_HI_UV
  }

  // The power class of an answer to SRC_CAP, in watts.
  function Granted(vin: int): Option<nat> {
    if CapWindow(vin) then PowerLimitW(vin) else None
  }

  /** The three classes are the levels of 6.65 to 7.35, 7.6 to 8.4 and 8.55 to 9.8 V. */
  lemma ClassesInNumbers(vin: int)
    ensures Granted(vin) == if 6_650_000 <= vin <= 7_350_000 then Some(18)
                            else if 7_600_000 <= vin <= 8_400_000 then Some(27)
                            else if 8_550_000 <= vin <= 9_800_000 then Some(40) else None
  {
  }

  predicate InWindow(vin: int, cap: bool) {
    if cap then CapWindow(vin) else DetectWindow(vin)
  }

  function PowerLimitW(vin: int): Option<nat> {
    if QC35_CAP_LO_UV <= vin <= 7_350_000 then Some(18)
    else if 7_600_000 <= vin <= 8_400_000 then Some(27)
    else if 8_550_000 <= vin <= QC35_CAP_HI_UV then Some(40)
    else None
  }

  // The input's configuration registers, and whether its latched interrupts have been cleared.
  datatype Setup = Setup(typeC: bv8, cmdIl: bv8, iclOverride: bv8, pulseMax: bv8, allow: bv8, options1: bv8, icl: bv8,
                         irqsCleared: bool) {

    function At(addr: u16): Option<bv8> {
      if addr == REG_TYPE_C_CFG then Some(typeC)
      else if addr == REG_USBIN_CMD_IL then Some(cmdIl)
      else if addr == REG_CMD_ICL_OVERRIDE then Some(iclOverride)
      else if addr == REG_HVDCP_PULSE_COUNT_MAX then Some(pulseMax)
      else if addr == REG_USBIN_ADAPTER_ALLOW then Some(allow)
      else if addr == REG_USBIN_OPTIONS_1 then Some(options1)
      else if addr == REG_USBIN_ICL_CFG then Some(icl)
      else None
    }

    function With(addr: u16, value: bv8): Setup {
      if addr == REG_TYPE_C_CFG then this.(typeC := value)
      else if addr == REG_USBIN_CMD_IL then this.(cmdIl := value)
      else if addr == REG_CMD_ICL_OVERRIDE then this.(iclOverride := value)
      else if addr == REG_HVDCP_PULSE_COUNT_MAX then this.(pulseMax := value)
      else if addr == REG_USBIN_ADAPTER_ALLOW then this.(allow := value)
      else if addr == REG_USBIN_OPTIONS_1 then this.(options1 := value)
      else if addr == REG_USBIN_ICL_CFG then this.(icl := value)
      else if addr == REG_INT_LATCHED_CLR && value == 0xFF then this.(irqsCleared := true)
      else this
    }
  }

  // Detection freed of the CC gate, the input out of suspend, 5 to 12 V allowed and QC2 at 9 V,
  // HVDCP driven by the host, stale interrupts cleared, and a limit of 500 mA or more that is not lowered.
  ghost predicate SetUp(before: Setup, after: Setup) {
    && after.typeC == before.typeC & 0x7F
    && after.cmdIl == before.cmdIl & 0xFE
    && after.allow == (before.allow & 0xF0) | 0x0C
    && after.pulseMax == (before.pulseMax & 0x3F) | 0x40
    && after.options1 == (before.options1 | 0x4C) & 0xDF
    && after.icl >= 10 && after.icl >= before.icl
    && after.irqsCleared
  }

  // Where a negotiation leaves an ideal bus: unforced from an unlatched start, as many steps up as
  // counted, and from 5 V or more at the target; forced and latched, QC2 or a level that held 8 V;
  // forced and fallen back to pulses, from a level that did not hold 8 V to the target or the
  // counter's cap.
  ghost predicate LevelReached(
    ok: bool, forced: bool, wasLatched: bool, latched: bool, vbatUv: u32, vin0: int, vin: int, cnt: int, apsdResult: bv8)
  {
    && (!forced && !wasLatched && !latched ==> vin == vin0 + STEP_UV * cnt)
    && (ok && !forced && !wasLatched && vin0 >= MICRO_5V_UV && SteerableCell(vbatUv) ==> vin >= TargetVbus(vbatUv))
    && (ok && forced ==>
         if latched then apsdResult & BIT_QC2 != 0 || vin >= SWITCHING_MIN_VIN_UV
         else vin - STEP_UV * cnt < SWITCHING_MIN_VIN_UV && (vin >= TargetVbus(vbatUv) || cnt == MAX_PULSE_CNT))
  }

  // Outcome and way by the answers alone: no end of detection; QC3 or a continuous adapter, which is
  // pulsed; else QC2, a DCP or a Quick Charge status, which is forced; else no adapter of this kind.
  ghost predicate DecidedByAnswers(r: Outcome, forced: bool, status: bv8, result: bv8, qc: bv8) {
    var pulsed := result & 0x40 != 0 || qc & 0x08 != 0;
    var forceable := result & 0x28 != 0 || status & 0x02 != 0;
    && (r == Broke(ApsdTimeout) <==> status & 0x01 == 0)
    && (r == Broke(NotQcAdapter) <==> status & 0x01 != 0 && !pulsed && !forceable)
    && (r == Succeeded && forced <==> status & 0x01 != 0 && !pulsed && forceable)
    && (r == Succeeded && !forced <==> status & 0x01 != 0 && pulsed)
  }

  lemma SetUpStays(before: Setup, ready: Setup, after: Setup)
    requires SetUp(before, ready) && OnlyRaised(ready, after)
    ensures SetUp(before, after)
  {
    assert (before.cmdIl & 0xFE) & 0x01 == 0;
  }

  // The current limit may have been raised, and the input taken out of suspend; no more.
  ghost predicate OnlyRaised(before: Setup, after: Setup) {
    && after.icl >= before.icl
    && after.typeC == before.typeC && after.pulseMax == before.pulseMax
    && after.allow == before.allow && after.options1 == before.options1 && after.irqsCleared == before.irqsCleared
    && (before.cmdIl & 0x01 == 0 ==> after.cmdIl == before.cmdIl)
  }

  /**
   The USBIN registers and the adapter behind them. Any access may fail and reads may
   answer anything; an `ideal` bus never fails, its configuration registers hold what is
   written to them, its detection registers keep their answers, and its adapter moves exactly
   one step for each pulse bit it is sent.
   */
  class UsbinBus {
    const ideal: bool
    // What detection answers on an ideal bus.
    const status: bv8
    const result: bv8
    const qc: bv8
    var vin: int
    var setup: Setup
    // The last write to CMD_HVDCP_2 the bus accepted.
    ghost var command: Option<bv8>
    // The last write to CMD_HVDCP_2 that was attempted.
    ghost var attempted: Option<bv8>
    // Detection reruns commanded, whether or not the bus accepted them.
    ghost var reruns: nat

    constructor (ideal: bool, status: bv8, result: bv8, qc: bv8, vin: int, setup: Setup)
      ensures this.status == status && this.result == result && this.qc == qc
      ensures this.ideal == ideal && this.vin == vin && this.setup == setup && command == None && attempted == None && reruns == 0
    {
      this.ideal, this.status, this.result, this.qc := ideal, status, result, qc;
      this.vin := vin;
      this.setup := setup;
      command := None;
      attempted := None;
      reruns := 0;
    }

    method Open() returns (ok: bool)
      ensures ideal ==> ok
    {
      var fails: bool := *;
      ok := ideal || !fails;
    }

    method Read(addr: u16) returns (r: Option<bv8>)
      ensures ideal ==> r.Some?
      ensures ideal && setup.At(addr).Some? ==> r == setup.At(addr)
      ensures ideal && addr == REG_APSD_STATUS ==> r == Some(status)
      ensures ideal && addr == REG_APSD_RESULT ==> r == Some(result)
      ensures ideal && addr == REG_QC_CHANGE_STATUS ==> r == Some(qc)
    {
      if ideal && setup.At(addr).Some? {
        return setup.At(addr);
      } else if ideal && addr == REG_APSD_STATUS {
        return Some(status);
      } else if ideal && addr == REG_APSD_RESULT {
        return Some(result);
      } else if ideal && addr == REG_QC_CHANGE_STATUS {
        return Some(qc);
      }
      var value: bv8 := *;
      var fails: bool := *;
      r := if ideal || !fails then Some(value) else None;
    }

    method ReadVin() returns (v: int)
      ensures ideal ==> v == vin
    {
      v := *;
      if ideal {
        v := vin;
      }
    }

    // A write to any register but CMD_HVDCP_2.
    method Write(addr: u16, value: bv8) returns (ok: bool)
      requires addr != REG_CMD_HVDCP_2
      modifies this`setup, this`vin, this`reruns
      ensures ideal ==> ok && vin == old(vin) && setup == old(setup).With(addr, value)
      ensures reruns == old(reruns) + if addr == REG_CMD_APSD then 1 else 0
    {
      var fails: bool := *;
      ok := ideal || !fails;
      if addr == REG_CMD_APSD {
        reruns := reruns + 1;
      }
      if ideal {
        setup := setup.With(addr, value);
      } else {
        vin := *;
        setup := *;
      }
    }

    // A write to CMD_HVDCP_2.
    method Command(value: bv8) returns (ok: bool)
      modifies this`setup, this`vin, this`command, this`attempted
      ensures attempted == Some(value) && command == if ok then Some(value) else old(command)
      ensures ideal ==> ok && vin == old(vin) + Moved(value) && setup == old(setup)
    {
      var fails: bool := *;
      ok := ideal || !fails;
      attempted := Some(value);
      if ok {
        command := Some(value);
      }
      if ideal {
        vin := vin + Moved(value);
      } else {
        vin := *;
        setup := *;
      }
    }
  }

  // One step in the direction of the single pulse bit of a command byte.
  function Moved(value: bv8): int {
    var inc, dec := value & BIT_SINGLE_INC != 0, value & BIT_SINGLE_DEC != 0;
    if inc && !dec then STEP_UV else if dec && !inc then -STEP_UV else 0
  }

  lemma PulseByte(cur: bv8, p: Pulse)
    ensures Moved((cur & !(BIT_SINGLE_INC | BIT_SINGLE_DEC)) | PulseBit(p)) == StepOf(p)
  {
    var kept := cur & !(BIT_SINGLE_INC | BIT_SINGLE_DEC);
    assert (kept | 0x01) & 0x01 != 0 && (kept | 0x01) & 0x02 == 0;
    assert (kept | 0x02) & 0x02 != 0 && (kept | 0x02) & 0x01 == 0;
  }

  class HvdcpState {
    const bus: UsbinBus
    var pulseCnt: int
    var apsdStatus: bv8
    var apsdResult: bv8
    var options1: bv8
    var phase: Phase
    var latched: bool
    // The counter's last assigned value and the pulses the bus accepted since.
    ghost var base: int
    ghost var sent: seq<Pulse>

    /**
     What every reachable state keeps: the counter is the saturating count of the
     pulses really sent since it was assigned, within the pulse cap, and while the
     latch is up the last accepted command byte carries FORCE_9V.
     */
    ghost predicate Valid()
      reads this, bus
    {
      && 0 <= base <= MAX_PULSE_CNT
      && 0 <= pulseCnt <= MAX_PULSE_CNT
      && pulseCnt == Count(base, sent)
      && (latched ==> bus.command.Some? && bus.command.value & BIT_FORCE_9V != 0)
    }

    // No pulse has run into either end of the counter: it tells the real level.
    ghost predicate Honest()
      reads this
    {
      pulseCnt == base + Net(sent)
    }

    constructor (bus: UsbinBus)
      ensures Valid() && Honest() && this.bus == bus && phase == Idle && !latched && pulseCnt == 0
    {
      this.bus := bus;
      pulseCnt, apsdStatus, apsdResult, options1, phase, latched := 0, 0, 0, 0, Idle, false;
      base, sent := 0, [];
    }

    // Some(sent) on success: under the latch the pulse is skipped, without an error.
    method PulseCmdBit(p: Pulse) returns (r: Option<bool>)
      requires Valid()
      modifies bus
      ensures Valid()
      ensures latched ==> r == Some(false) && unchanged(bus)
      ensures !latched ==> (r.Some? ==> r.value) && (bus.ideal ==> r.Some? && bus.vin == old(bus.vin) + StepOf(p))
      ensures bus.ideal ==> bus.setup == old(bus.setup)
    {
      if latched {
        return Some(false);
      }
      var read := bus.Read(REG_CMD_HVDCP_2);
      var cur := if read.Some? then read.value else 0;
      PulseByte(cur, p);
      var ok := bus.Command((cur & !(BIT_SINGLE_INC | BIT_SINGLE_DEC)) | PulseBit(p));
      r := if ok then Some(true) else None;
    }

    // pulse_inc_gap and pulse_dec_gap.
    method SendPulse(p: Pulse) returns (ok: bool)
      requires Valid()
      modifies this`pulseCnt, this`sent, bus
      ensures Valid()
      ensures latched ==> ok && unchanged(this) && unchanged(bus)
      ensures !latched && ok ==> sent == old(sent) + [p] && pulseCnt == Counted(old(pulseCnt), p)
      ensures !ok ==> unchanged(this)
      ensures bus.ideal ==> ok && bus.vin == old(bus.vin) + if latched then 0 else StepOf(p)
      ensures old(Honest()) && (latched || if p.Inc? then old(pulseCnt) < MAX_PULSE_CNT else old(pulseCnt) > 0) ==> Honest()
      ensures bus.ideal ==> bus.setup == old(bus.setup)
    {
      var r := PulseCmdBit(p);
      if r == None {
        return false;
      }
      if r.value {
        CountNetSnoc(base, sent, p);
        sent := sent + [p];
        pulseCnt := Counted(pulseCnt, p);
      }
      ok := true;
    }

    method AssignCount(cnt: int)
      requires 0 <= cnt <= MAX_PULSE_CNT
      requires latched ==> bus.command.Some? && bus.command.value & BIT_FORCE_9V != 0
      modifies this`pulseCnt, this`base, this`sent
      ensures Valid() && Honest() && pulseCnt == base == cnt && sent == []
    {
      pulseCnt, base, sent := cnt, cnt, [];
    }

    method Force9v() returns (ok: bool)
      requires Valid()
      modifies this`latched, this`pulseCnt, this`base, this`sent, bus
      ensures Valid()
      ensures ok ==> latched && pulseCnt == 20 && Honest()
      ensures !ok ==> unchanged(this)
      ensures bus.attempted.Some? && bus.attempted.value & BIT_FORCE_9V != 0
      ensures bus.ideal ==> bus.setup == old(bus.setup)
      ensures bus.ideal ==> ok
    {
      var read := bus.Read(REG_CMD_HVDCP_2);
      var existing := if read.Some? then read.value else 0;
      assert (existing | BIT_FORCE_9V) & BIT_FORCE_9V != 0;
      ok := bus.Command(existing | BIT_FORCE_9V);
      if ok {
        latched := true;
        AssignCount(FORCE_9V_PULSES);
      }
    }

    method SafeForce5v()
      requires 0 <= base <= MAX_PULSE_CNT && 0 <= pulseCnt <= MAX_PULSE_CNT && pulseCnt == Count(base, sent)
      modifies this`latched, bus
      ensures Valid() && !latched && bus.attempted == Some(BIT_FORCE_5V)
      ensures old(Honest()) ==> Honest()
      ensures bus.ideal ==> bus.vin == old(bus.vin)
      ensures bus.ideal ==> bus.setup == old(bus.setup)
    {
      assert BIT_FORCE_5V & BIT_SINGLE_INC == 0 && BIT_FORCE_5V & BIT_SINGLE_DEC == 0;
      var ok := bus.Command(BIT_FORCE_5V);
      latched := false;
    }

    // ---------------------------------------------------------------- corrections

    method SendDecs(vinUv: int, stop: int, floor: int, budget: nat) returns (dec: nat)
      requires Valid()
      modifies this`pulseCnt, this`sent, bus
      ensures Valid() && dec <= TrimCount(vinUv, stop, floor, budget)
      ensures bus.ideal ==> dec == TrimCount(vinUv, stop, floor, budget)
      ensures bus.ideal && !latched ==> bus.vin == old(bus.vin) - STEP_UV * dec
      ensures latched ==> unchanged(bus) && unchanged(this)
      ensures bus.ideal ==> bus.setup == old(bus.setup)
    {
      dec := 0;
      var vin := vinUv;
      while vin > stop && vin > floor && dec < budget
        invariant Valid() && dec <= budget
        invariant TrimCount(vinUv, stop, floor, budget) == dec + TrimCount(vin, stop, floor, budget - dec)
        invariant bus.ideal && !latched ==> bus.vin == old(bus.vin) - STEP_UV * dec
        invariant latched ==> unchanged(bus) && unchanged(this)
        invariant bus.ideal ==> bus.setup == old(bus.setup)
        decreases budget - dec
      {
        var ok := SendPulse(Dec);
        if !ok {
          break;
        }
        dec := dec + 1;
        vin := vin - STEP_UV;
      }
    }

    method TrimVinForPump(vinUv: int, vbatUv: u32) returns (dec: nat)
      requires Valid()
      modifies this`pulseCnt, this`sent, bus
      ensures Valid() && dec <= Trim(vinUv, vbatUv) <= MAX_TRIM_DEC
      ensures bus.ideal ==> dec == Trim(vinUv, vbatUv)
      ensures bus.ideal && !latched ==> bus.vin == old(bus.vin) - STEP_UV * dec
      ensures latched ==> unchanged(bus) && unchanged(this)
      ensures bus.ideal ==> bus.setup == old(bus.setup)
    {
      var stop, floor := TargetVbus(vbatUv), WindowFloor(vbatUv);
      TrimWithinBudget(vinUv, stop, floor, MAX_TRIM_DEC);
      if vinUv <= stop {
        return 0;
      }
      var isOpen := bus.Open();
      if !isOpen {
        return 0;
      }
      dec := SendDecs(vinUv, stop, floor, MAX_TRIM_DEC);
    }

    method SendIncs(vinUv: int, stop: int, top: int, budget: nat) returns (inc: nat)
      requires Valid()
      modifies this`pulseCnt, this`sent, bus
      ensures Valid() && inc <= BoostCount(vinUv, stop, top, budget)
      ensures bus.ideal ==> inc == BoostCount(vinUv, stop, top, budget)
      ensures bus.ideal && !latched ==> bus.vin == old(bus.vin) + STEP_UV * inc
      ensures latched ==> unchanged(bus) && unchanged(this)
      ensures bus.ideal ==> bus.setup == old(bus.setup)
    {
      inc := 0;
      var vin := vinUv;
      while vin < stop && inc < budget
        invariant Valid() && inc <= budget
        invariant BoostCount(vinUv, stop, top, budget) == inc + BoostCount(vin, stop, top, budget - inc)
        invariant bus.ideal && !latched ==> bus.vin == old(bus.vin) + STEP_UV * inc
        invariant latched ==> unchanged(bus) && unchanged(this)
        invariant bus.ideal ==> bus.setup == old(bus.setup)
        decreases budget - inc
      {
        var ok := SendPulse(Inc);
        if !ok {
          break;
        }
        inc := inc + 1;
        vin := vin + STEP_UV;
        if vin > top {
          break;
        }
      }
    }

    method BoostVinForPump(vinUv: int, vbatUv: u32) returns (inc: nat)
      requires Valid()
      modifies this`pulseCnt, this`sent, bus
      ensures Valid() && inc <= Boost(vinUv, vbatUv) <= MAX_BOOST_INC
      ensures bus.ideal ==> inc == Boost(vinUv, vbatUv)
      ensures bus.ideal && !latched ==> bus.vin == old(bus.vin) + STEP_UV * inc
      ensures latched ==> unchanged(bus) && unchanged(this)
      ensures bus.ideal ==> bus.setup == old(bus.setup)
    {
      var stop, top := TargetVbus(vbatUv), TrimTarget(vbatUv);
      BoostWithinBudget(vinUv, stop, top, MAX_BOOST_INC);
      if vinUv >= stop {
        return 0;
      }
      var isOpen := bus.Open();
      if !isOpen {
        return 0;
      }
      inc := SendIncs(vinUv, stop, top, MAX_BOOST_INC);
    }

    method OneDecPulse() returns (sentN: nat)
      requires Valid() && !latched
      modifies this`pulseCnt, this`sent, bus
      ensures Valid() && sentN <= 1
      ensures bus.ideal ==> sentN == 1 && bus.vin == old(bus.vin) - STEP_UV
      ensures bus.ideal ==> bus.setup == old(bus.setup)
    {
      var isOpen := bus.Open();
      if !isOpen {
        return 0;
      }
      var ok := SendPulse(Dec);
      sentN := if ok then 1 else 0;
    }

    /**
     One correction. It never sends more pulses than the band arithmetic asks for, on an
     ideal bus exactly those; a latched bus is not touched.
     */
    method NudgeVinIntoWindow(vinUv: int, vbatUv: u32, deadCurrent: bool) returns (n: nat)
      requires Valid()
      modifies this`pulseCnt, this`sent, bus
      ensures Valid()
      ensures latched ==> n == 0 && unchanged(bus) && unchanged(this)
      ensures !latched ==> n <= Abs(NudgePulses(vinUv, vbatUv, deadCurrent))
      ensures !latched && bus.ideal ==>
        && n == Abs(NudgePulses(vinUv, vbatUv, deadCurrent))
        && bus.vin == old(bus.vin) + STEP_UV * NudgePulses(vinUv, vbatUv, deadCurrent)
      ensures bus.ideal ==> bus.setup == old(bus.setup)
    {
      if vinUv <= 0 || vbatUv == 0 {
        return 0;
      }
      if latched {
        return 0;
      }
      var top, floor, target := TrimTarget(vbatUv), WindowFloor(vbatUv), TargetVbus(vbatUv);
      if vinUv > top {
        n := TrimVinForPump(vinUv, vbatUv);
        return;
      }
      if vinUv < target && (deadCurrent || vinUv < floor) {
        n := BoostVinForPump(vinUv, vbatUv);
        return;
      }
      if deadCurrent && vinUv > floor {
        n := OneDecPulse();
        return;
      }
      return 0;
    }

    // ---------------------------------------------------------------- negotiation

    method ClearUsbinSuspend()
      requires Valid()
      modifies bus
      ensures Valid() && BusKept(old(bus.command), old(bus.attempted), old(bus.vin))
      ensures bus.ideal ==> bus.setup == old(bus.setup).(cmdIl := WithoutSuspend(old(bus.setup).cmdIl))
    {
      var cmd := bus.Read(REG_USBIN_CMD_IL);
      if cmd.Some? && WithoutSuspend(cmd.value) != cmd.value {
        var ok := bus.Write(REG_USBIN_CMD_IL, WithoutSuspend(cmd.value));
      }
    }

    // Nothing but registers other than CMD_HVDCP_2 was written.
    ghost predicate BusKept(command: Option<bv8>, attempted: Option<bv8>, vin: int)
      reads bus
    {
      bus.command == command && bus.attempted == attempted && (bus.ideal ==> bus.vin == vin)
    }

    method ClearApsdCcGate() returns (ok: bool)
      requires Valid()
      modifies bus
      ensures Valid() && BusKept(old(bus.command), old(bus.attempted), old(bus.vin))
      ensures bus.ideal ==> ok && bus.setup == old(bus.setup).(typeC := WithoutCcGate(old(bus.setup).typeC))
    {
      var cfg := bus.Read(REG_TYPE_C_CFG);
      if cfg == None {
        return false;
      }
      ok := true;
      var cleared := WithoutCcGate(cfg.value);
      if cleared != cfg.value {
        ok := bus.Write(REG_TYPE_C_CFG, cleared);
      }
    }

    // Raises the limit to `target` if it reads lower.
    method RaiseIcl(target: bv8) returns (ok: bool, raised: bool)
      requires Valid()
      modifies bus
      ensures Valid() && BusKept(old(bus.command), old(bus.attempted), old(bus.vin))
      ensures bus.ideal ==> ok && (raised <==> old(bus.setup).icl < target)
      ensures bus.ideal ==> bus.setup == old(bus.setup).(icl := if raised then target else old(bus.setup).icl)
    {
      var current := bus.Read(REG_USBIN_ICL_CFG);
      if current == None {
        return false, false;
      }
      ok, raised := true, current.value < target;
      if raised {
        ok := bus.Write(REG_USBIN_ICL_CFG, target);
      }
    }

    method OverrideIcl()
      requires Valid()
      modifies bus
      ensures Valid() && BusKept(old(bus.command), old(bus.attempted), old(bus.vin))
      ensures bus.ideal ==> bus.setup == old(bus.setup).(iclOverride := 0x01)
    {
      var ok := bus.Write(REG_CMD_ICL_OVERRIDE, BIT_ICL_OVERRIDE);
    }

    method EnsureIclFloor500ma()
      requires Valid()
      modifies bus
      ensures Valid() && BusKept(old(bus.command), old(bus.attempted), old(bus.vin))
      ensures bus.ideal && old(bus.setup).icl >= 10 ==> bus.setup == old(bus.setup)
      ensures bus.ideal && old(bus.setup).icl < 10 ==> bus.setup == old(bus.setup).(icl := 10, iclOverride := 0x01)
    {
      var ok, raised := RaiseIcl(ICL_RAW_500MA);
      if ok && raised {
        OverrideIcl();
      }
    }

    method EnsureIclAtLeast(target: bv8)
      requires Valid()
      modifies bus
      ensures Valid() && BusKept(old(bus.command), old(bus.attempted), old(bus.vin))
      ensures bus.ideal ==> bus.setup.icl == if old(bus.setup).icl >= target then old(bus.setup).icl else target
      ensures bus.ideal ==>
        bus.setup == old(bus.setup).(icl := bus.setup.icl, iclOverride := 0x01, cmdIl := old(bus.setup).cmdIl & 0xFE)
    {
      var ok, raised := RaiseIcl(target);
      if ok {
        OverrideIcl();
        ClearUsbinSuspend();
      }
    }

    method EnsureAllow() returns (ok: bool)
      requires Valid()
      modifies bus
      ensures Valid() && BusKept(old(bus.command), old(bus.attempted), old(bus.vin))
      ensures bus.ideal ==> ok && bus.setup == old(bus.setup).(allow := (old(bus.setup).allow & 0xF0) | 0x0C)
    {
      var allow := bus.Read(REG_USBIN_ADAPTER_ALLOW);
      if allow == None {
        return false;
      }
      ok := true;
      var allowNew := (allow.value & 0xF0) | 0x0C;
      if allowNew != allow.value {
        ok := bus.Write(REG_USBIN_ADAPTER_ALLOW, allowNew);
      }
    }

    method EnsureVoltageGates()
      requires Valid()
      modifies bus
      ensures Valid() && BusKept(old(bus.command), old(bus.attempted), old(bus.vin))
      ensures bus.ideal ==>
        bus.setup == old(bus.setup).(allow := (old(bus.setup).allow & 0xF0) | 0x0C, pulseMax := (old(bus.setup).pulseMax & 0x3F) | 0x40)
    {
      var ok := EnsureAllow();
      if !ok {
        return;
      }
      var pulseMax := bus.Read(REG_HVDCP_PULSE_COUNT_MAX);
      if pulseMax == None {
        return;
      }
      var pulseMaxNew := (pulseMax.value & 0x3F) | 0x40;
      if pulseMaxNew != pulseMax.value {
        ok := bus.Write(REG_HVDCP_PULSE_COUNT_MAX, pulseMaxNew);
      }
    }

    method EnableHvdcp() returns (ok: bool)
      requires Valid()
      modifies this`options1, bus
      ensures Valid() && BusKept(old(bus.command), old(bus.attempted), old(bus.vin))
      ensures bus.reruns == old(bus.reruns)
      ensures bus.ideal ==> ok && bus.setup == old(bus.setup).(options1 := (old(bus.setup).options1 | 0x4C) & 0xDF)
      ensures bus.ideal ==> options1 == bus.setup.options1
    {
      var options := bus.Read(REG_USBIN_OPTIONS_1);
      if options == None {
        return false;
      }
      var enabled := (options.value | HVDCP_ENABLE_BITS) & !BIT_HVDCP_AUTONOMOUS;
      ok := bus.Write(REG_USBIN_OPTIONS_1, enabled);
      if ok {
        options1 := enabled;
      }
    }

    method WaitApsdDone() returns (r: Outcome, ghost waitedMs: nat)
      requires Valid()
      modifies this`apsdStatus, this`apsdResult
      ensures Valid()
      ensures r == Succeeded ==> apsdStatus & BIT_APSD_DONE != 0
      ensures bus.ideal ==> r != Broke(SpmiIo)
      ensures r == Broke(ApsdTimeout) ==> apsdStatus & BIT_APSD_DONE == 0 && waitedMs >= 2_000
      ensures waitedMs <= 2_000
      ensures r == Succeeded || r == Broke(SpmiIo) || r == Broke(ApsdTimeout)
      ensures bus.ideal ==> (r == Succeeded <==> bus.status & 0x01 != 0)
      ensures bus.ideal && r == Succeeded ==> apsdStatus == bus.status && apsdResult == bus.result
    {
      var waited := 0;
      waitedMs := 0;
      while true
        invariant waitedMs == waited
        invariant Valid() && 0 <= waited <= APSD_WAIT_MS && waited % APSD_POLL_MS == 0
        decreases APSD_WAIT_MS - waited
      {
        var status := bus.Read(REG_APSD_STATUS);
        if status == None {
          return Broke(SpmiIo), waitedMs;
        }
        apsdStatus := status.value;
        if status.value & BIT_APSD_DONE != 0 {
          var result := bus.Read(REG_APSD_RESULT);
          if result == None {
            return Broke(SpmiIo), waitedMs;
          }
          apsdResult := result.value;
          return Succeeded, waitedMs;
        }
        if waited >= APSD_WAIT_MS {
          return Broke(ApsdTimeout), waitedMs;
        }
        waited := waited + APSD_POLL_MS;
        waitedMs := waited;
      }
    }

    // Polls Vin until the window or the timeout: the answer is the first sample in the window,
    // and there is none only if every sample of the whole wait was outside it.
    method WaitVinWindow(timeoutMs: nat, cap: bool) returns (r: Option<int>, ghost samples: seq<int>)
      ensures samples != [] && forall k :: 0 <= k < |samples| - 1 ==> !InWindow(samples[k], cap)
      ensures r == if InWindow(samples[|samples| - 1], cap) then Some(samples[|samples| - 1]) else None
      ensures r == None ==> 20 * (|samples| - 1) >= timeoutMs
      ensures bus.ideal ==> samples[|samples| - 1] == bus.vin
    {
      var waited := 0;
      samples := [];
      while true
        invariant waited == 20 * |samples|
        invariant forall k :: 0 <= k < |samples| ==> !InWindow(samples[k], cap)
        decreases timeoutMs - waited
      {
        var vin := bus.ReadVin();
        samples := samples + [vin];
        if InWindow(vin, cap) {
          return Some(vin), samples;
        }
        if waited >= timeoutMs {
          return None, samples;
        }
        waited := waited + QC35_VIN_POLL_MS;
      }
    }

    // The counter and the adapter agree: each counted pulse moved the bus one step from vin0.
    ghost predicate Level(vin0: int)
      reads this, bus
    {
      Valid() && Honest() && base == 0 && (bus.ideal && !latched ==> bus.vin == vin0 + STEP_UV * pulseCnt)
    }

    method SendTrain(pulses: seq<Pulse>, ghost vin0: int) returns (ok: bool)
      requires Level(vin0)
      requires forall k :: 0 <= k <= |pulses| ==> 0 <= pulseCnt + Net(pulses[..k]) <= MAX_PULSE_CNT
      modifies this`pulseCnt, this`sent, bus
      ensures Level(vin0)
      ensures ok ==> pulseCnt == old(pulseCnt) + if latched then 0 else Net(pulses)
      ensures latched ==> pulseCnt == old(pulseCnt) && bus.command == old(bus.command)
      ensures ok && !latched ==> sent == old(sent) + pulses
      ensures bus.ideal ==> bus.setup == old(bus.setup)
      ensures bus.ideal ==> ok
      ensures old(sent) <= sent
    {
      var k := 0;
      while k < |pulses|
        invariant 0 <= k <= |pulses| && Level(vin0)
        invariant pulseCnt == old(pulseCnt) + if latched then 0 else Net(pulses[..k])
        invariant !latched ==> sent == old(sent) + pulses[..k]
        invariant old(sent) <= sent
        invariant bus.ideal ==> bus.setup == old(bus.setup)
        invariant latched ==> pulseCnt == old(pulseCnt) && bus.command == old(bus.command)
      {
        assert pulses[..k + 1][..k] == pulses[..k] && pulses[..k + 1] == pulses[..k] + [pulses[k]];
        assert Net(pulses[..k + 1]) == Net(pulses[..k]) + if pulses[k].Inc? then 1 else -1;
        ok := SendPulse(pulses[k]);
        if !ok {
          return;
        }
        k := k + 1;
      }
      assert pulses[..k] == pulses;
      ok := true;
    }

    // One INC of the preparation.
    method PrepPulse(ghost vin0: int, ghost start: seq<Pulse>, ghost n: nat) returns (ok: bool)
      requires Level(vin0) && 0 <= pulseCnt <= n < QC35_PREP_MAX_INC && OnlyIncs(start, sent, n)
      modifies this`pulseCnt, this`sent, bus
      ensures Level(vin0) && 0 <= pulseCnt <= n + 1 && OnlyIncs(start, sent, n + 1)
      ensures latched ==> pulseCnt == old(pulseCnt) && bus.command == old(bus.command)
      ensures bus.ideal ==> ok && bus.setup == old(bus.setup)
      ensures bus.ideal && !latched ==> bus.vin == old(bus.vin) + 200_000
    {
      ok := SendPulse(Inc);
      OnlyIncsSnoc(start, old(sent), n);
    }

    // Pulses up while the level is below the detection window, and gives up above or without one.
    method ClimbIntoWindow(ghost vin0: int) returns (ok: bool)
      requires Level(vin0) && pulseCnt == 0
      modifies this`pulseCnt, this`sent, bus
      ensures Level(vin0) && pulseCnt <= QC35_PREP_MAX_INC
      ensures OnlyIncs(old(sent), sent, QC35_PREP_MAX_INC)
      ensures latched ==> pulseCnt == old(pulseCnt) && bus.command == old(bus.command)
      ensures bus.ideal ==> bus.setup == old(bus.setup)
      ensures bus.ideal && !latched ==> (ok && DetectWindow(bus.vin) <==> 3_900_000 < old(bus.vin) < 6_400_000)
    {
      var vin := bus.ReadVin();
      if !AuthAttempt(vin) {
        return false;
      }
      var prep := 0;
      while !DetectWindow(vin) && prep < QC35_PREP_MAX_INC
        invariant Level(vin0) && 0 <= pulseCnt <= prep <= QC35_PREP_MAX_INC
        invariant OnlyIncs(old(sent), sent, prep)
        invariant bus.ideal ==> vin == bus.vin && bus.setup == old(bus.setup)
        invariant bus.ideal && !latched ==> vin == old(bus.vin) + 200_000 * prep && AuthAttempt(vin)
        invariant bus.ideal && !latched && prep > 0 ==> vin <= 5_700_000
        invariant latched ==> pulseCnt == old(pulseCnt) && bus.command == old(bus.command)
        decreases QC35_PREP_MAX_INC - prep
      {
        var sentOk := PrepPulse(vin0, old(sent), prep);
        if !sentOk {
          return false;
        }
        prep := prep + 1;
        vin := bus.ReadVin();
        if !AuthAttempt(vin) {
          return false;
        }
      }
      ok := true;
    }

    method PrepQc35DetectWindow(ghost vin0: int) returns (detected: bool)
      requires Level(vin0) && pulseCnt == 0
      modifies this`pulseCnt, this`sent, bus
      ensures Level(vin0) && pulseCnt <= QC35_PREP_MAX_INC
      ensures OnlyIncs(old(sent), sent, QC35_PREP_MAX_INC)
      ensures latched ==> pulseCnt == old(pulseCnt) && bus.command == old(bus.command)
      ensures bus.ideal ==> bus.setup == old(bus.setup)
      ensures bus.ideal && !latched ==> (detected <==> 3_900_000 < old(bus.vin) < 6_400_000)
    {
      var ok := ClimbIntoWindow(vin0);
      if !ok {
        return false;
      }
      var seen;
      ghost var samples;
      seen, samples := WaitVinWindow(QC35_DETECT_TIMEOUT_MS, false);
      detected := seen.Some?;
    }

    // Asks the adapter for SRC_CAP and returns the level it answered with.
    method RequestSourceCap(ghost vin0: int)
          returns (cap: Option<int>, ghost prepared: seq<Pulse>, ghost answers: seq<int>)
      requires Level(vin0) && pulseCnt == 0
      modifies this`pulseCnt, this`sent, bus
      ensures Level(vin0)
      ensures cap.Some? ==> pulseCnt <= QC35_PREP_MAX_INC && CapWindow(cap.value)
      ensures OnlyIncs(old(sent), prepared, QC35_PREP_MAX_INC)
      ensures cap.Some? && !latched ==> sent == prepared + SRC_CAP_PULSES
      ensures latched ==> pulseCnt == old(pulseCnt) && bus.command == old(bus.command)
      ensures bus.ideal ==> bus.setup == old(bus.setup)
      ensures answers == [] ==> cap == None
      ensures answers != [] ==> cap == if CapWindow(answers[|answers| - 1]) then Some(answers[|answers| - 1]) else None
      ensures answers != [] ==> forall k :: 0 <= k < |answers| - 1 ==> !CapWindow(answers[k])
      ensures answers != [] && cap == None ==> 20 * (|answers| - 1) >= 250
      ensures bus.ideal && !latched && 3_900_000 < old(bus.vin) < 6_400_000 ==> answers != []
      ensures answers != [] && !latched ==> sent == prepared + SRC_CAP_PULSES
    {
      var detected := PrepQc35DetectWindow(vin0);
      prepared := sent;
      if !detected {
        return None, prepared, [];
      }
      TrainsFit(pulseCnt);
      var ok := SendTrain(SRC_CAP_PULSES, vin0);
      if !ok {
        return None, prepared, [];
      }
      cap, answers := WaitVinWindow(QC35_CAP_TIMEOUT_MS, true);
    }

    // A power class is granted only for the level the adapter answered SRC_CAP with, after the
    // whole of both trains was sent.
    method AttemptQc35Authenticate(ghost vin0: int)
          returns (powerW: Option<nat>, ghost answers: seq<int>, ghost prepared: seq<Pulse>)
      requires Level(vin0) && pulseCnt == 0
      modifies this`pulseCnt, this`sent, bus
      ensures Level(vin0)
      ensures powerW.Some? ==> answers != [] && powerW == Granted(answers[|answers| - 1])
      ensures bus.ideal && answers != [] ==> powerW == Granted(answers[|answers| - 1])
      ensures answers != [] ==> forall k :: 0 <= k < |answers| - 1 ==> !CapWindow(answers[k])
      ensures answers != [] && !CapWindow(answers[|answers| - 1]) ==> 20 * (|answers| - 1) >= 250
      ensures bus.ideal && !latched && 3_900_000 < old(bus.vin) < 6_400_000 ==> answers != []
      ensures bus.ideal ==> OnlyRaised(old(bus.setup), bus.setup) && bus.setup.icl >= 10
      ensures bus.ideal && powerW.Some? ==> bus.setup.icl >= if powerW.value >= 40 then 60 else 40
      ensures OnlyIncs(old(sent), prepared, QC35_PREP_MAX_INC)
      ensures powerW.Some? && !latched ==> sent == prepared + SRC_CAP_PULSES + CONFIRM_PULSES
      ensures latched ==> pulseCnt == old(pulseCnt) && bus.command == old(bus.command)
      ensures answers != [] && !latched ==> prepared + SRC_CAP_PULSES <= sent
    {
      powerW := None;
      EnsureIclFloor500ma();
      var level;
      level, prepared, answers := RequestSourceCap(vin0);
      if level == None || PowerLimitW(level.value) == None {
        return;
      }
      TrainsFit(pulseCnt);
      var ok := SendTrain(CONFIRM_PULSES, vin0);
      if !ok {
        return;
      }
      powerW := PowerLimitW(level.value);
      EnsureIclAtLeast(if powerW.value >= 40 then ICL_RAW_QC35_40W else ICL_RAW_DCP_2A);
    }

    // The closed-loop QC3 raise: pulse, read Vin, stop at the target or above the band. From
    // 5 V or more it reaches the target, and passes it by less than one step.
    method RaiseByPulses(vbatUv: u32, ghost vin0: int) returns (ok: bool)
      requires Level(vin0)
      modifies this`pulseCnt, this`sent, bus
      ensures Level(vin0)
      ensures latched ==> pulseCnt == old(pulseCnt) && bus.command == old(bus.command)
      ensures bus.ideal ==> ok
      ensures bus.ideal && !latched && vin0 >= MICRO_5V_UV && SteerableCell(vbatUv) ==>
        && bus.vin >= TargetVbus(vbatUv)
        && (bus.vin < TargetVbus(vbatUv) + STEP_UV || bus.vin == old(bus.vin))
      ensures bus.ideal ==> bus.setup == old(bus.setup)
      ensures old(sent) <= sent
    {
      var want := PulsesTowardTarget(vbatUv);
      var target, ceiling := TargetVbus(vbatUv), TrimTarget(vbatUv);
      var vin := bus.ReadVin();
      for i := 0 to want
        invariant Level(vin0)
        invariant latched ==> pulseCnt == old(pulseCnt) && bus.command == old(bus.command)
        invariant bus.ideal ==> vin == bus.vin
        invariant old(sent) <= sent
        invariant bus.ideal ==> bus.setup == old(bus.setup)
        invariant bus.ideal && !latched ==> pulseCnt == old(pulseCnt) + i && (i > 0 ==> vin - STEP_UV < target)
      {
        if pulseCnt >= MAX_PULSE_CNT {
          break;
        }
        if vin >= target {
          break;
        }
        var sentOk := SendPulse(Inc);
        if !sentOk {
          return false;
        }
        vin := bus.ReadVin();
        if vin > ceiling {
          break;
        }
      }
      ok := true;
    }

    // Whether 8.0 V held for two consecutive reads.
    method LevelHolds() returns (held: bool, vin: int)
      ensures held ==> vin >= SWITCHING_MIN_VIN_UV
      ensures bus.ideal ==> vin == bus.vin && (held <==> bus.vin >= SWITCHING_MIN_VIN_UV)
    {
      vin := bus.ReadVin();
      var hold := 0;
      for i := 0 to 4
        invariant 0 <= hold <= 1
        invariant bus.ideal ==> vin == bus.vin
        invariant bus.ideal ==> hold == if i > 0 && bus.vin >= SWITCHING_MIN_VIN_UV then 1 else 0
        invariant bus.ideal && bus.vin >= SWITCHING_MIN_VIN_UV ==> i <= 1
      {
        hold := if vin >= SWITCHING_MIN_VIN_UV then hold + 1 else 0;
        if hold >= 2 {
          return true, vin;
        }
        vin := bus.ReadVin();
      }
      held := false;
    }

    // Polls Vin every 50 ms after FORCE_9V; `past` are the samples before the last one. It ends at
    // the first two samples in a row at 8.0 V, or at a sample below that from 1.6 s on, or from
    // 4.0 s on if one of the first 1.6 s had risen to 5.6 V; and at 5.0 s in any case.
    method WaitForce9vRise() returns (last: int, peak: int, waited: nat, ghost past: seq<int>)
      ensures waited == 50 * |past| <= 5_000
      ensures last <= peak && (peak == last || peak in past) && forall k :: 0 <= k < |past| ==> past[k] <= peak
      ensures Unsettled(past, RoseEarly(past))
      ensures waited < 1_600 ==> Confirms(past, last)
      ensures last < 8_000_000 && RoseEarly(past) ==> waited >= 4_000
    {
      waited := 0;
      var deadline, extended, confirm := FORCE9V_SETTLE_MS, false, 0;
      last := bus.ReadVin();
      peak := last;
      past := [];
      while true
        invariant waited == 50 * |past| <= 5_000
        invariant last <= peak && (peak == last || peak in past) && forall k :: 0 <= k < |past| ==> past[k] <= peak
        invariant Unsettled(past, extended)
        invariant confirm == if past != [] && past[|past| - 1] >= 8_000_000 then 1 else 0
        invariant deadline == if extended then 4_000 else 1_600
        decreases FORCE9V_HARD_CAP_MS - waited
      {
        if last >= SWITCHING_MIN_VIN_UV {
          confirm := confirm + 1;
          if confirm >= FORCE9V_CONFIRM_N {
            break;
          }
        } else {
          confirm := 0;
          if waited >= deadline {
            break;
          } else if !extended && last >= FORCE9V_RISE_UV {
            deadline := Min(deadline + FORCE9V_EXTEND_MS, FORCE9V_HARD_CAP_MS);
            extended := true;
          }
        }
        if waited >= FORCE9V_HARD_CAP_MS {
          break;
        }
        waited := waited + FORCE9V_POLL_MS;
        StillUnsettled(past, last, RoseEarly(past));
        past := past + [last];
        last := bus.ReadVin();
        if last > peak {
          peak := last;
        }
      }
    }

    // A DCP that did not hold 9 V: back to 5 V, then native QC3 pulses.
    method FallBackToPulses(vbatUv: u32, vinAfter: int)
      requires Valid()
      modifies this`latched, this`pulseCnt, this`base, this`sent, bus
      ensures Valid() && Honest() && !latched
      ensures bus.ideal ==> bus.vin == old(bus.vin) + STEP_UV * pulseCnt
      ensures bus.ideal && vinAfter == old(bus.vin) ==> bus.vin >= TargetVbus(vbatUv) || pulseCnt == MAX_PULSE_CNT
      ensures bus.ideal ==> OnlyRaised(old(bus.setup), bus.setup)
      ensures bus.ideal && vinAfter == old(bus.vin) ==> bus.setup.icl >= if bus.vin < 5_600_000 then 40 else 30
    {
      SafeForce5v();
      AssignCount(0);
      var target := TargetVbus(vbatUv);
      var inc, vin := 0, vinAfter;
      while vin < target && inc < MAX_PULSE_CNT && pulseCnt < MAX_PULSE_CNT
        invariant Valid() && Honest() && !latched && 0 <= inc
        invariant bus.ideal ==> pulseCnt == inc && bus.vin == old(bus.vin) + STEP_UV * inc
        invariant bus.ideal && vinAfter == old(bus.vin) ==> vin == bus.vin
        invariant bus.ideal ==> bus.setup == old(bus.setup)
        decreases MAX_PULSE_CNT - inc
      {
        var ok := SendPulse(Inc);
        if !ok {
          break;
        }
        inc := inc + 1;
        vin := bus.ReadVin();
      }
      if vin < FORCE9V_RISE_UV {
        SafeForce5v();
        EnsureIclAtLeast(ICL_RAW_DCP_2A);
      } else {
        EnsureIclAtLeast(ICL_RAW_HVDCP2_1P5A);
      }
    }

    // Waits for 9 V to hold, and falls back to pulses if it does not.
    method HoldOrFallBack(vbatUv: u32)
      requires Valid() && Honest()
      modifies this`latched, this`pulseCnt, this`base, this`sent, bus
      ensures Valid() && Honest()
      ensures latched ==> unchanged(this) && unchanged(bus)
      ensures bus.ideal && latched ==> bus.vin >= SWITCHING_MIN_VIN_UV
      ensures bus.ideal && !latched && old(latched) ==>
        && bus.vin - STEP_UV * pulseCnt < 8_000_000
        && (bus.vin >= TargetVbus(vbatUv) || pulseCnt == MAX_PULSE_CNT)
        && bus.setup.icl >= if bus.vin < 5_600_000 then 40 else 30
      ensures bus.ideal ==> OnlyRaised(old(bus.setup), bus.setup)
    {
      ghost var past;
      var last, peak, waited;
      last, peak, waited, past := WaitForce9vRise();
      var held, vinAfter := LevelHolds();
      if !held {
        FallBackToPulses(vbatUv, vinAfter);
      }
    }

    // FORCE_9V for a QC2 adapter, and as a bounded attempt for a plain DCP.
    method ElevateByForce(vbatUv: u32, result: bv8) returns (ok: bool)
      requires Valid() && Honest()
      modifies this`latched, this`pulseCnt, this`base, this`sent, this`phase, bus
      ensures Valid() && Honest()
      ensures !ok ==> !latched && phase == Failed && bus.attempted == Some(BIT_FORCE_5V)
      ensures ok && latched ==> pulseCnt == 20
      ensures ok && result & BIT_QC2 != 0 ==> latched
      ensures ok && bus.ideal && latched ==> result & BIT_QC2 != 0 || bus.vin >= SWITCHING_MIN_VIN_UV
      ensures ok && bus.ideal && !latched ==> bus.vin >= TargetVbus(vbatUv) || pulseCnt == MAX_PULSE_CNT
      ensures bus.ideal ==> ok && OnlyRaised(old(bus.setup), bus.setup) && bus.setup.icl >= 30
      ensures ok && bus.ideal && !latched ==> bus.vin - STEP_UV * pulseCnt < 8_000_000
      ensures ok && bus.ideal && !latched ==> bus.setup.icl >= if bus.vin < 5_600_000 then 40 else 30
    {
      phase := Qc2Force9v;
      ok := Force9v();
      if !ok {
        phase := Failed;
        SafeForce5v();
        return;
      }
      EnsureIclAtLeast(ICL_RAW_HVDCP2_1P5A);
      if result & BIT_QC2 == 0 {
        HoldOrFallBack(vbatUv);
      }
    }

    method RerunDetection() returns (r: Outcome)
      requires Valid()
      modifies this`phase, this`apsdStatus, this`apsdResult, bus
      ensures Valid() && BusKept(old(bus.command), old(bus.attempted), old(bus.vin))
      ensures r == Succeeded || r == Broke(SpmiIo) || r == Broke(ApsdTimeout)
      ensures r == Succeeded ==> apsdStatus & BIT_APSD_DONE != 0
      ensures bus.reruns == old(bus.reruns) + 1
      ensures bus.ideal ==> bus.setup == old(bus.setup) && r != Broke(SpmiIo)
      ensures bus.ideal ==> (r == Succeeded <==> bus.status & 0x01 != 0)
      ensures bus.ideal && r == Succeeded ==> apsdStatus == bus.status && apsdResult == bus.result
    {
      phase := ApsdRerun;
      var rerun := bus.Write(REG_CMD_APSD, BIT_APSD_RERUN);
      if !rerun {
        return Broke(SpmiIo);
      }
      phase := ApsdWait;
      ghost var waitedMs;
      r, waitedMs := WaitApsdDone();
    }

    method DetectAnew(preStatus: bv8, preResult: bv8) returns (r: Outcome)
      requires Valid()
      modifies this`phase, this`apsdStatus, this`apsdResult, bus
      ensures Valid() && BusKept(old(bus.command), old(bus.attempted), old(bus.vin))
      ensures r.Broke? ==> phase == Failed
      ensures r == Succeeded || r == Broke(SpmiIo) || r == Broke(ApsdTimeout)
      ensures r == Succeeded ==> KeepsSignature(apsdResult, preResult)
      ensures bus.reruns == old(bus.reruns) + 1
      ensures r == Succeeded ==> apsdStatus & BIT_APSD_DONE != 0 || apsdStatus == preStatus
      ensures bus.ideal ==> bus.setup == old(bus.setup) && r != Broke(SpmiIo)
      ensures bus.ideal ==> (r == Succeeded <==> bus.status & 0x01 != 0)
      ensures bus.ideal && preStatus == bus.status && preResult == bus.result && r == Succeeded ==>
        apsdStatus == bus.status && apsdResult == bus.result
    {
      r := RerunDetection();
      if r.Broke? {
        phase := Failed;
        return;
      }
      // A rerun may demote QC3 or QC2 to plain DCP: keep the signature seen before it.
      DemotionLosesABit(apsdResult, preResult);
      DemotionLosesABit(preResult, preResult);
      if Demoted(apsdResult, preResult) {
        apsdStatus, apsdResult := preStatus, preResult;
      }
    }

    // Enables HVDCP and (re)runs adapter detection unless a QC result is already latched.
    method DetectAdapter(preStatus: bv8, preResult: bv8, preQc: bv8) returns (r: Outcome)
      requires Valid()
      modifies this`phase, this`options1, this`apsdStatus, this`apsdResult, bus
      ensures Valid() && BusKept(old(bus.command), old(bus.attempted), old(bus.vin))
      ensures r.Broke? ==> phase == Failed
      ensures r == Succeeded || r == Broke(SpmiIo) || r == Broke(ApsdTimeout)
      // A rerun that answers plain DCP does not lose the Quick Charge signature seen before it.
      ensures r == Succeeded ==> KeepsSignature(apsdResult, preResult)
      // A Quick Charge signature that detection has already latched is not rerun away.
      ensures Latched(preStatus, preResult, preQc) ==> bus.reruns == old(bus.reruns)
      ensures Latched(preStatus, preResult, preQc) && r == Succeeded ==> apsdStatus == preStatus && apsdResult == preResult
      ensures !Latched(preStatus, preResult, preQc) && r == Succeeded ==>
        bus.reruns == old(bus.reruns) + 1 && (apsdStatus & BIT_APSD_DONE != 0 || apsdStatus == preStatus)
      ensures bus.ideal ==> r != Broke(SpmiIo)
      ensures bus.ideal ==> bus.setup == old(bus.setup).(options1 := (old(bus.setup).options1 | 0x4C) & 0xDF)
      ensures bus.ideal && preStatus == bus.status && preResult == bus.result ==>
        && (r == Succeeded <==> bus.status & 0x01 != 0)
        && (r == Succeeded ==> apsdStatus == bus.status && apsdResult == bus.result)
    {
      phase := Enable;
      var enabled := EnableHvdcp();
      if !enabled {
        phase := Failed;
        return Broke(SpmiIo);
      }
      DemotionLosesABit(preResult, preResult);
      LatchedInBits(preStatus, preResult, preQc);
      if Latched(preStatus, preResult, preQc) {
        apsdStatus, apsdResult := preStatus, preResult;
        return Succeeded;
      }
      r := DetectAnew(preStatus, preResult);
    }

    // Latched interrupts, suspend, the CC gate, the 500 mA floor and the 9 V gates.
    method PrepareBus() returns (ok: bool)
      requires Valid()
      modifies bus
      ensures Valid() && BusKept(old(bus.command), old(bus.attempted), old(bus.vin))
      ensures bus.ideal ==> ok && bus.setup.icl >= 10 && bus.setup.icl >= old(bus.setup).icl
      ensures bus.ideal ==> bus.setup == old(bus.setup).(
        typeC := old(bus.setup).typeC & 0x7F, cmdIl := old(bus.setup).cmdIl & 0xFE,
        allow := (old(bus.setup).allow & 0xF0) | 0x0C, pulseMax := (old(bus.setup).pulseMax & 0x3F) | 0x40,
        icl := bus.setup.icl, iclOverride := bus.setup.iclOverride, irqsCleared := true)
    {
      ok := bus.Write(REG_INT_LATCHED_CLR, 0xFF);
      ClearUsbinSuspend();
      ok := ClearApsdCcGate();
      if ok {
        EnsureIclFloor500ma();
        EnsureVoltageGates();
      }
    }

    // QC3.5 authentication, whose failure is not fatal, and then the raise.
    method ElevateByPulses(vbatUv: u32, ghost vin0: int) returns (ok: bool)
      requires Level(vin0) && pulseCnt == 0
      modifies this`latched, this`pulseCnt, this`sent, this`phase, bus
      ensures Valid() && Honest() && base == 0
      ensures ok ==> latched == old(latched)
      ensures bus.ideal && !old(latched) ==> bus.vin == vin0 + STEP_UV * pulseCnt
      ensures !ok ==> !latched && phase == Failed && bus.attempted == Some(BIT_FORCE_5V)
      ensures old(latched) && ok ==> pulseCnt == 0 && bus.command == old(bus.command)
      ensures bus.ideal && !old(latched) && vin0 >= MICRO_5V_UV && SteerableCell(vbatUv) ==>
        ok && bus.vin >= TargetVbus(vbatUv)
      ensures bus.ideal ==> ok && OnlyRaised(old(bus.setup), bus.setup)
      ensures bus.ideal && !old(latched) && 3_900_000 < old(bus.vin) < 6_400_000 ==> CapRequested(old(sent), sent)
    {
      phase := Qc35Auth;
      var powerW;
      ghost var answers, prepared;
      powerW, answers, prepared := AttemptQc35Authenticate(vin0);
      phase := Qc3Pulse;
      ok := RaiseByPulses(vbatUv, vin0);
      if !ok {
        phase := Failed;
        SafeForce5v();
      }
    }

    // The bits detection found decide how the bus is raised, if at all.
    method ElevateAlong(vbatUv: u32, continuous: bool, ghost vin0: int) returns (r: Outcome, ghost forced: bool)
      requires Level(vin0) && pulseCnt == 0
      modifies this`latched, this`pulseCnt, this`base, this`sent, this`phase, bus
      ensures Valid() && Honest() && phase == if r == Succeeded then Done else Failed
      // QC3, or a continuous adapter, is pulsed; only QC2 or a plain DCP is forced; no other is touched.
      ensures r == Succeeded ==> (forced <==> apsdResult & 0x40 == 0 && !continuous)
      ensures forced ==> apsdResult & 0x40 == 0 && !continuous && apsdResult & 0x28 != 0
      ensures r == Broke(NotQcAdapter) <==> apsdResult & 0x40 == 0 && apsdResult & 0x28 == 0 && !continuous
      ensures r == Succeeded || r == Broke(NotQcAdapter) || (r == Broke(SpmiIo) && !bus.ideal)
      ensures bus.ideal ==> OnlyRaised(old(bus.setup), bus.setup) && (forced ==> bus.setup.icl >= 30)
      ensures r.Broke? && !old(latched) ==> !latched
      ensures r.Broke? ==> bus.attempted == old(bus.attempted) || bus.attempted == Some(BIT_FORCE_5V)
      ensures latched && !old(latched) ==> forced && pulseCnt == 20
      ensures latched && old(latched) && !forced ==> pulseCnt == 0 && bus.command == old(bus.command)
      ensures bus.ideal ==>
        LevelReached(r == Succeeded, forced, old(latched), latched, vbatUv, vin0, bus.vin, pulseCnt, apsdResult)
      ensures r == Succeeded && forced && apsdResult & BIT_QC2 != 0 ==> latched
      ensures r == Succeeded && !forced && bus.ideal && !old(latched) && 3_900_000 < old(bus.vin) < 6_400_000 ==>
        CapRequested(old(sent), sent)
    {
      forced := false;
      PathsInBits(apsdResult, continuous);
      var ok;
      match ApsdElevatePath(apsdResult, continuous) {
        case PulsePath =>
          ok := ElevateByPulses(vbatUv, vin0);
        case ForcePath =>
          forced := true;
          ok := ElevateByForce(vbatUv, apsdResult);
        case Reject =>
          phase := Failed;
          return Broke(NotQcAdapter), forced;
      }
      r := Broke(SpmiIo);
      if ok {
        // QC_CHANGE_STATUS and the hardware pulse count are sampled for the journal only.
        var qcChange := bus.Read(REG_QC_CHANGE_STATUS);
        var qcPulses := bus.Read(REG_QC_PULSE_COUNT);
        phase := Done;
        r := Succeeded;
      }
    }

    // Prepares the bus, detects the adapter and promotes what the status says of it.
    method FindAdapter() returns (r: Outcome, ghost detected: bool, continuous: bool)
      requires Valid()
      modifies this`phase, this`options1, this`apsdStatus, this`apsdResult, bus
      ensures Valid() && BusKept(old(bus.command), old(bus.attempted), old(bus.vin))
      ensures detected <==> r == Succeeded
      ensures r == Succeeded || r == Broke(SpmiIo) || r == Broke(ApsdTimeout)
      ensures r.Broke? ==> phase == Failed
      ensures detected && apsdStatus & 0x02 != 0 ==> apsdResult & 0x60 != 0
      ensures bus.ideal ==> r != Broke(SpmiIo) && SetUp(old(bus.setup), bus.setup)
      ensures bus.ideal ==> (detected <==> bus.status & 0x01 != 0)
      ensures bus.ideal && detected ==> (continuous <==> bus.qc & 0x08 != 0) && apsdStatus == bus.status && apsdResult == PromoteQcCharger(bus.result, bus.status)
    {
      detected, continuous := false, false;
      var ok := PrepareBus();
      if !ok {
        phase := Failed;
        return Broke(SpmiIo), false, false;
      }
      var preStatus := ReadOrZero(REG_APSD_STATUS);
      var preResult := ReadOrZero(REG_APSD_RESULT);
      var preQc := ReadOrZero(REG_QC_CHANGE_STATUS);
      continuous := preQc & BIT_QC_CONTINUOUS != 0;
      r := DetectAdapter(preStatus, preResult, preQc);
      if r.Broke? {
        return;
      }
      detected := true;
      PromotionInBits(apsdResult, apsdStatus);
      apsdResult := PromoteQcCharger(apsdResult, apsdStatus);
    }

    method Negotiate(vbatUv: u32) returns (r: Outcome, ghost forced: bool, ghost detected: bool, ghost continuous: bool)
      requires Valid()
      modifies this, bus
      ensures Valid() && Honest()
      ensures phase == if r == Succeeded then Done else Failed
      // Who is pulsed, who is forced, and who is turned away, by the bits detection left and the
      // continuous bit read before it.
      ensures r == Succeeded ==> detected && (forced <==> apsdResult & 0x40 == 0 && !continuous)
      ensures r == Succeeded && forced ==> apsdResult & 0x28 != 0 && (apsdResult & 0x20 != 0 ==> latched)
      ensures r == Broke(NotQcAdapter) <==> detected && apsdResult & 0x40 == 0 && apsdResult & 0x28 == 0 && !continuous
      ensures latched && !old(latched) ==> apsdResult & 0x40 == 0 && !continuous
      ensures detected && apsdStatus & 0x02 != 0 ==> apsdResult & 0x60 != 0
      ensures bus.ideal ==> r != Broke(SpmiIo) && (detected || r == Broke(ApsdTimeout))
      ensures r == Succeeded || r == Broke(NotQcAdapter) || r == Broke(ApsdTimeout) || (r == Broke(SpmiIo) && !bus.ideal)
      ensures forced ==> apsdResult & 0x40 == 0 && !continuous
      ensures bus.ideal ==> (detected <==> bus.status & 0x01 != 0) && (r == Broke(ApsdTimeout) <==> !detected)
      ensures bus.ideal && detected ==>
        (continuous <==> bus.qc & 0x08 != 0) && apsdResult == PromoteQcCharger(bus.result, bus.status)
      // What an ideal bus is left configured with.
      ensures bus.ideal ==> SetUp(old(bus.setup), bus.setup) && (forced ==> bus.setup.icl >= 30)
      ensures r.Broke? && !old(latched) ==> !latched
      ensures r.Broke? ==> bus.attempted == old(bus.attempted) || bus.attempted == Some(BIT_FORCE_5V)
      ensures latched && !old(latched) ==> forced && pulseCnt == 20
      ensures latched && old(latched) && !forced ==> pulseCnt == 0 && bus.command == old(bus.command)
      ensures bus.ideal ==>
        LevelReached(r == Succeeded, forced, old(latched), latched, vbatUv, old(bus.vin), bus.vin, pulseCnt, apsdResult)
      ensures r == Succeeded && !forced && bus.ideal && !old(latched) && 3_900_000 < old(bus.vin) < 6_400_000 ==>
        CapRequested([], sent)
    {
      ghost var vin0 := bus.vin;
      forced := false;
      AssignCount(0);
      var isContinuous;
      r, detected, isContinuous := FindAdapter();
      continuous := isContinuous;
      if r == Succeeded {
        ghost var ready := bus.setup;
        r, forced := ElevateAlong(vbatUv, isContinuous, vin0);
        if bus.ideal {
          SetUpStays(old(bus.setup), ready, bus.setup);
        }
      }
    }

    /**
     The whole negotiation, for any adapter and any pattern of bus failures. A
     negotiation that starts unlatched and fails ends unlatched; every failure ends in
     phase Failed, and either left the command register alone or last commanded 5 V; a
     latch it raises counts FORCE_9V_PULSES; one it inherits and keeps is not disturbed;
     and on an ideal bus a negotiation that never forced moved the adapter exactly as
     many steps as the counter says, and from 5 V or more reached the target.
     */
    method NegotiateOnBus(vbatUv: u32) returns (r: Outcome, ghost forced: bool, ghost detected: bool, ghost continuous: bool)
      requires Valid()
      modifies this, bus
      ensures Valid() && Honest()
      ensures phase == if r == Succeeded then Done else Failed
      // Who is pulsed, who is forced, and who is turned away, by the bits detection left and the
      // continuous bit read before it.
      ensures r == Succeeded ==> detected && (forced <==> apsdResult & 0x40 == 0 && !continuous)
      ensures r == Succeeded && forced ==> apsdResult & 0x28 != 0 && (apsdResult & 0x20 != 0 ==> latched)
      ensures r == Broke(NotQcAdapter) <==> detected && apsdResult & 0x40 == 0 && apsdResult & 0x28 == 0 && !continuous
      ensures latched && !old(latched) ==> apsdResult & 0x40 == 0 && !continuous
      ensures detected && apsdStatus & 0x02 != 0 ==> apsdResult & 0x60 != 0
      ensures bus.ideal ==> r != Broke(SpmiIo) && (detected || r == Broke(ApsdTimeout))
      // All of it by what an ideal bus answers.
      ensures bus.ideal ==> DecidedByAnswers(r, forced, bus.status, bus.result, bus.qc)
      // What an ideal bus is left configured with.
      ensures bus.ideal ==> SetUp(old(bus.setup), bus.setup) && (forced ==> bus.setup.icl >= 30)
      ensures r.Broke? && !old(latched) ==> !latched
      ensures r.Broke? ==> bus.attempted == old(bus.attempted) || bus.attempted == Some(BIT_FORCE_5V)
      ensures latched && !old(latched) ==> forced && pulseCnt == 20
      ensures latched && old(latched) && !forced ==> pulseCnt == 0 && bus.command == old(bus.command)
      ensures bus.ideal ==>
        LevelReached(r == Succeeded, forced, old(latched), latched, vbatUv, old(bus.vin), bus.vin, pulseCnt, apsdResult)
      ensures r == Succeeded && !forced && bus.ideal && !old(latched) && 3_900_000 < old(bus.vin) < 6_400_000 ==>
        CapRequested([], sent)
    {
      r, forced, detected, continuous := Negotiate(vbatUv);
      PromotedPathInBits(bus.result, bus.status);
    }

    method ReadOrZero(addr: u16) returns (v: bv8)
      ensures bus.ideal && addr == REG_APSD_STATUS ==> v == bus.status
      ensures bus.ideal && addr == REG_APSD_RESULT ==> v == bus.result
      ensures bus.ideal && addr == REG_QC_CHANGE_STATUS ==> v == bus.qc
    {
      var r := bus.Read(addr);
      v := if r.Some? then r.value else 0;
    }
  }

  /**
   Repeated bus corrections on an ideal bus: each round reads Vin and corrects it. After the
   stated number of rounds the bus is in the band, and a further round sends nothing.
   */
  method CorrectRepeatedly(s: HvdcpState, vbatUv: u32, rounds: nat) returns (lastN: nat)
    requires s.Valid() && s.bus.ideal && !s.latched && s.bus.vin > 0 && SteerableCell(vbatUv)
    modifies s`pulseCnt, s`sent, s.bus
    ensures s.Valid() && s.bus.vin == Nudged(old(s.bus.vin), vbatUv, rounds)
    ensures rounds >= CorrectionsNeeded(old(s.bus.vin), vbatUv) ==> InBand(s.bus.vin, vbatUv)
    ensures rounds > CorrectionsNeeded(old(s.bus.vin), vbatUv) ==> lastN == 0
  {
    ghost var vin0 := s.bus.vin;
    lastN := 0;
    for n := 0 to rounds
      invariant s.Valid() && s.bus.vin == Nudged(vin0, vbatUv, n)
      invariant n > CorrectionsNeeded(vin0, vbatUv) ==> lastN == 0
    {
      if n >= CorrectionsNeeded(vin0, vbatUv) {
        SettledFrom(vin0, vbatUv, n);
      }
      var vin := s.bus.ReadVin();
      lastN := s.NudgeVinIntoWindow(vin, vbatUv, false);
      NudgedSnoc(vin0, vbatUv, n);
    }
    if rounds >= CorrectionsNeeded(vin0, vbatUv) {
      SettledFrom(vin0, vbatUv, rounds);
    }
  }

  lemma NudgedSnoc(vin: int, vbatUv: u32, n: nat)
    ensures Nudged(vin, vbatUv, n + 1)
         == Nudged(vin, vbatUv, n) + STEP_UV * NudgePulses(Nudged(vin, vbatUv, n), vbatUv, false)
  {
  }

  lemma SettledFrom(vin: int, vbatUv: u32, n: nat)
    requires SteerableCell(vbatUv) && vin > 0 && n >= CorrectionsNeeded(vin, vbatUv)
    ensures InBand(Nudged(vin, vbatUv, n), vbatUv) && NudgePulses(Nudged(vin, vbatUv, n), vbatUv, false) == 0
  {
    var need := CorrectionsNeeded(vin, vbatUv);
    AnyBusSettles(vin, vbatUv);
    assert QuietAfter(vin, vbatUv, need);
    QuietPersists(vin, vbatUv, need, n);
  }

  lemma TrainsFit(cnt: int)
    requires 0 <= cnt <= QC35_PREP_MAX_INC
    ensures forall k :: 0 <= k <= |SRC_CAP_PULSES| ==> 0 <= cnt + Net(SRC_CAP_PULSES[..k]) <= MAX_PULSE_CNT
    ensures forall k :: 0 <= k <= |CONFIRM_PULSES| ==> 0 <= cnt + Net(CONFIRM_PULSES[..k]) <= MAX_PULSE_CNT
    ensures Net(SRC_CAP_PULSES) == 0
  {
    forall k | 0 <= k <= |SRC_CAP_PULSES| ensures Net(SRC_CAP_PULSES[..k]) == k % 2 {
      NetOfSrcCap(k);
    }
    assert SRC_CAP_PULSES[..6] == SRC_CAP_PULSES;
    forall k | 0 <= k <= |CONFIRM_PULSES| ensures Net(CONFIRM_PULSES[..k]) == if k <= 2 then k else 4 - k {
      NetOfConfirm(k);
    }
  }

  lemma {:induction false} NetOfSrcCap(k: nat)
    requires k <= |SRC_CAP_PULSES|
    ensures Net(SRC_CAP_PULSES[..k]) == k % 2
  {
    if k > 0 {
      NetOfSrcCap(k - 1);
      assert SRC_CAP_PULSES[..k][..k - 1] == SRC_CAP_PULSES[..k - 1];
    }
  }

  lemma {:induction false} NetOfConfirm(k: nat)
    requires k <= |CONFIRM_PULSES|
    ensures Net(CONFIRM_PULSES[..k]) == if k <= 2 then k else 4 - k
  {
    if k > 0 {
      NetOfConfirm(k - 1);
      assert CONFIRM_PULSES[..k][..k - 1] == CONFIRM_PULSES[..k - 1];
    }
  }

  function Abs(x: int): nat {
    if x < 0 then -x else x
  }

  lemma TrimWithinBudget(vin: int, stop: int, floor: int, budget: nat)
    ensures TrimCount(vin, stop, floor, budget) <= budget
    decreases budget
  {
  }

  lemma BoostWithinBudget(vin: int, stop: int, top: int, budget: nat)
    ensures BoostCount(vin, stop, top, budget) <= budget
    decreases budget
  {
  }
}
