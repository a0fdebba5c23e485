/**
 Who may write the buck's charge-current register (FCC), and when: the capture, the
 one-shot write probe, the raise and the return of crates/ln8000-kmdf/src/lib.rs.
 */
module FccPolicy {
  import opened Widths
  import opened Outcomes

  const FCC_STEP_UA: u32 := 50_000
  const FCC_PROBE_UA: u32 := 1_000_000
  const FCC_WRITE_MAX_UA: u32 := 3_000_000
  const FCC_RESTORE_GRACE_MS: u64 := 120_000
  const RE_ELEVATE_MAX_VBAT_UV := 4_350_000
  const WRITE_CAP := 60
  const PROBE_RAW := 20

  function RawFor(ua: u32): u8 {
    Min(ua / FCC_STEP_UA, FCC_WRITE_MAX_UA / FCC_STEP_UA)
  }

  /**
   What one register write came to. Refused leaves the register alone, and its read-back
   either fails or shows the old value; Unread reached the register, but its read-back failed.
   */
  datatype Fate = Took | Unread | Refused(readBack: bool)

  predicate Lands(f: Fate) {
    !f.Refused?
  }

  // A write either takes effect and reads back, or does nothing.
  predicate IsHonest(f: Fate) {
    !f.Unread?
  }

  function Register(reg: u8, raw: u8, f: Fate): u8 {
    if Lands(f) then raw else reg
  }

  // What write_fcc_raw returns.
  function ReadBack(reg: u8, raw: u8, f: Fate): Option<u8> {
    match f
    case Took => Some(raw)
    case Unread => None
    case Refused(readBack) => if readBack then Some(reg) else None
  }

  // One telemetry tick on which the SPMI snapshot is due.
  datatype Tick = Tick(snapshotOk: bool, criticalFault: bool, pumpAlive: bool, vbatUv: u32, tsMs: Millis,
                       first: Fate, second: Fate)

  datatype View = View(reg: u8, bootRaw: u8, raised: bool, restoreAtMs: u64, probeDone: bool)

  datatype Owner = Nobody | Probe | Raise | Return

  function Captured(v: View, t: Tick): View {
    if t.snapshotOk && v.bootRaw == 0 then v.(bootRaw := v.reg) else v
  }

  function RaiseRaw(cfgRaw: u32): u8 {
    RawFor(SatMul32(cfgRaw, FCC_STEP_UA))
  }

  function ReturnRaw(bootRaw: u8): u8 {
    RawFor(SatMul32(bootRaw, FCC_STEP_UA))
  }

  predicate ProbeTurn(v: View, t: Tick) {
    t.snapshotOk && !v.probeDone && v.bootRaw != 0 && !t.criticalFault
  }

  predicate PolicyOwns(v: View, t: Tick) {
    v.raised || (t.pumpAlive && t.vbatUv < RE_ELEVATE_MAX_VBAT_UV)
  }

  predicate ProbeWrites(v: View, t: Tick) {
    ProbeTurn(v, t) && !PolicyOwns(v, t) && RawFor(FCC_PROBE_UA) < v.bootRaw
  }

  predicate RaiseWrites(v: View, t: Tick, cfgRaw: u32) {
    && !t.criticalFault && t.pumpAlive && cfgRaw != 0 && !v.raised && v.bootRaw != 0
    && t.vbatUv < RE_ELEVATE_MAX_VBAT_UV
  }

  predicate ReturnWrites(v: View, t: Tick) {
    !t.criticalFault && !t.pumpAlive && v.raised && v.restoreAtMs != 0 && t.tsMs >= v.restoreAtMs
  }

  // The tick in two halves, as the code runs it: the snapshot's, then the policy's.
  ghost function AfterProbe(v: View, t: Tick): View {
    var c := Captured(v, t);
    if ProbeWrites(c, t) then
      c.(reg := Register(Register(c.reg, RawFor(FCC_PROBE_UA), t.first), c.bootRaw, t.second), probeDone := true)
    else if ProbeTurn(c, t) then c.(probeDone := true)
    else c
  }

  ghost function AfterPolicy(v: View, t: Tick, cfgRaw: u32): View {
    if t.criticalFault then v
    else if t.pumpAlive then
      var kept := v.(restoreAtMs := 0);
      if RaiseWrites(v, t, cfgRaw) then
        var want := RaiseRaw(cfgRaw);
        kept.(reg := Register(v.reg, want, t.first), raised := ReadBack(v.reg, want, t.first) == Some(want))
      else kept
    else if !v.raised then v
    else if v.restoreAtMs == 0 then v.(restoreAtMs := SatAdd64(t.tsMs, FCC_RESTORE_GRACE_MS))
    else if ReturnWrites(v, t) then
      var want := ReturnRaw(v.bootRaw);
      var returned := v.(reg := Register(v.reg, want, t.first));
      if ReadBack(v.reg, want, t.first) == Some(want) then returned.(raised := false, restoreAtMs := 0)
      else returned
    else v
  }

  ghost function Step(v: View, t: Tick, cfgRaw: u32): View {
    AfterPolicy(AfterProbe(v, t), t, cfgRaw)
  }

  // The register values a tick sends, in order.
  ghost function Writes(v: View, t: Tick, cfgRaw: u32): seq<u8> {
    var c := Captured(v, t);
    var p := AfterProbe(v, t);
    (if ProbeWrites(c, t) then [RawFor(FCC_PROBE_UA), c.bootRaw] else [])
    + (if RaiseWrites(p, t, cfgRaw) then [RaiseRaw(cfgRaw)] else [])
    + (if ReturnWrites(p, t) then [ReturnRaw(p.bootRaw)] else [])
  }

  // The FCC register behind write_fcc_raw.
  class Chip {
    var reg: u8
    ghost var sent: seq<u8>

    constructor (factory: u8)
      ensures reg == factory && sent == []
    {
      reg, sent := factory, [];
    }

    method WriteFccRaw(raw: u8) returns (r: Option<u8>, ghost fate: Fate)
      modifies this
      ensures reg == Register(old(reg), raw, fate) && r == ReadBack(old(reg), raw, fate)
      ensures sent == old(sent) + [raw]
    {
      var lands: bool := *;
      var answers: bool := *;
      fate := if !lands then Refused(answers) else if answers then Took else Unread;
      if lands {
        reg := raw;
      }
      r := if answers then Some(reg) else None;
      sent := sent + [raw];
    }
  }

  class Policy {
    const chip: Chip
    const cfgRaw: u32
    var bootRaw: u8
    var raised: bool
    var restoreAtMs: u64
    var probeDone: bool

    ghost function Statics(): View
      reads this, chip
    {
      View(chip.reg, bootRaw, raised, restoreAtMs, probeDone)
    }

    constructor (chip: Chip, cfgRaw: u32)
      ensures this.chip == chip && this.cfgRaw == cfgRaw && Statics() == Start(chip.reg)
    {
      this.chip, this.cfgRaw := chip, cfgRaw;
      bootRaw, raised, restoreAtMs, probeDone := 0, false, 0, false;
    }

    method WriteFccAndPublish(want: u8) returns (ok: bool, ghost fate: Fate)
      modifies chip
      ensures chip.reg == Register(old(chip.reg), want, fate) && chip.sent == old(chip.sent) + [want]
      ensures ok <==> ReadBack(old(chip.reg), want, fate) == Some(want)
    {
      var r;
      r, fate := chip.WriteFccRaw(want);
      ok := r == Some(want);
    }

    // The snapshot half: capture the factory value once, then maybe probe the register.
    method CaptureAndProbe(snapshotOk: bool, criticalFault: bool, pumpAlive: bool, vbatUv: u32, tsMs: Millis)
      returns (ghost t: Tick)
      modifies this`bootRaw, this`probeDone, chip
      ensures t.(first := Took, second := Took) == Tick(snapshotOk, criticalFault, pumpAlive, vbatUv, tsMs, Took, Took)
      ensures Statics() == AfterProbe(old(Statics()), t)
      ensures chip.sent == old(chip.sent) + if ProbeWrites(Captured(old(Statics()), t), t)
        then [RawFor(FCC_PROBE_UA), bootRaw] else []
    {
      t := Tick(snapshotOk, criticalFault, pumpAlive, vbatUv, tsMs, Took, Took);
      if !snapshotOk {
        return;
      }
      if bootRaw == 0 {
        bootRaw := chip.reg;
      }
      if !probeDone && bootRaw != 0 && !criticalFault {
        var policyOwns := raised || (pumpAlive && vbatUv < RE_ELEVATE_MAX_VBAT_UV);
        var probeRaw := RawFor(FCC_PROBE_UA);
        if !policyOwns && probeRaw < bootRaw {
          ghost var first, second;
          var wrote, restored;
          wrote, first := chip.WriteFccRaw(probeRaw);
          restored, second := chip.WriteFccRaw(bootRaw);
          t := t.(first := first, second := second);
        }
        probeDone := true;
      }
    }

    method RaiseOrReturn(criticalFault: bool, pumpAlive: bool, vbatUv: u32, tsMs: Millis, ghost t0: Tick)
      returns (ghost t: Tick)
      requires t0.criticalFault == criticalFault && t0.pumpAlive == pumpAlive && t0.vbatUv == vbatUv && t0.tsMs == tsMs
      modifies this`raised, this`restoreAtMs, chip
      ensures t == t0.(first := t.first)
      ensures !(RaiseWrites(old(Statics()), t, cfgRaw) || ReturnWrites(old(Statics()), t)) ==> t == t0
      ensures Statics() == AfterPolicy(old(Statics()), t, cfgRaw)
      ensures chip.sent == old(chip.sent)
        + (if RaiseWrites(old(Statics()), t, cfgRaw) then [RaiseRaw(cfgRaw)] else [])
        + (if ReturnWrites(old(Statics()), t) then [ReturnRaw(bootRaw)] else [])
    {
      t := t0;
      if criticalFault {
        return;
      }
      ghost var fate;
      var ok;
      if pumpAlive {
        restoreAtMs := 0;
        if cfgRaw != 0 && !raised && bootRaw != 0 && vbatUv < RE_ELEVATE_MAX_VBAT_UV {
          ok, fate := WriteFccAndPublish(RawFor(SatMul32(cfgRaw, FCC_STEP_UA)));
          t := t.(first := fate);
          if ok {
            raised := true;
          }
        }
      } else if raised {
        if restoreAtMs == 0 {
          restoreAtMs := SatAdd64(tsMs, FCC_RESTORE_GRACE_MS);
        } else if tsMs >= restoreAtMs {
          ok, fate := WriteFccAndPublish(RawFor(SatMul32(bootRaw, FCC_STEP_UA)));
          t := t.(first := fate);
          if ok {
            raised := false;
            restoreAtMs := 0;
          }
        }
      }
    }

    /** One due tick is one Step of the view, for some fates of its writes, and sends its Writes. */
    method SnapshotTick(snapshotOk: bool, criticalFault: bool, pumpAlive: bool, vbatUv: u32, tsMs: Millis)
      returns (ghost t: Tick)
      modifies this`bootRaw, this`probeDone, this`raised, this`restoreAtMs, chip
      ensures t.(first := Took, second := Took) == Tick(snapshotOk, criticalFault, pumpAlive, vbatUv, tsMs, Took, Took)
      ensures Statics() == Step(old(Statics()), t, cfgRaw)
      ensures chip.sent == old(chip.sent) + Writes(old(Statics()), t, cfgRaw)
    {
      ghost var v := Statics();
      t := CaptureAndProbe(snapshotOk, criticalFault, pumpAlive, vbatUv, tsMs);
      ghost var p := t;
      t := RaiseOrReturn(criticalFault, pumpAlive, vbatUv, tsMs, p);
      if ProbeWrites(Captured(v, p), p) {
        ProbeYieldsNothing(v, p, cfgRaw);
      }
    }
  }

  // On a tick the probe writes, the policy writes nothing.
  lemma ProbeYieldsNothing(v: View, t: Tick, cfgRaw: u32)
    requires ProbeWrites(Captured(v, t), t)
    ensures !RaiseWrites(AfterProbe(v, t), t, cfgRaw) && !ReturnWrites(AfterProbe(v, t), t)
  {
  }

  // ---------------------------------------------------------------- runs

  function Start(factory: u8): View {
    View(factory, 0, false, 0, false)
  }

  ghost function Run(factory: u8, cfgRaw: u32, ticks: seq<Tick>): View {
    if ticks == [] then Start(factory)
    else Step(Run(factory, cfgRaw, ticks[..|ticks| - 1]), ticks[|ticks| - 1], cfgRaw)
  }

  ghost function AllWrites(factory: u8, cfgRaw: u32, ticks: seq<Tick>): seq<u8> {
    if ticks == [] then []
    else
      var init := ticks[..|ticks| - 1];
      AllWrites(factory, cfgRaw, init) + Writes(Run(factory, cfgRaw, init), ticks[|ticks| - 1], cfgRaw)
  }

  // Nothing is written before the capture, and what is captured is the factory value.
  ghost predicate Sound(v: View, factory: u8, cfgRaw: u32) {
    && (v.bootRaw == 0 ==> v.reg == factory && !v.raised && !v.probeDone)
    && (v.bootRaw != 0 ==> v.bootRaw == factory)
    && (v.restoreAtMs != 0 ==> v.raised)
    && (v.raised ==> cfgRaw != 0)
  }

  lemma StepIsSound(v: View, t: Tick, factory: u8, cfgRaw: u32)
    requires Sound(v, factory, cfgRaw)
    ensures Sound(Step(v, t, cfgRaw), factory, cfgRaw)
    ensures Captured(v, t).bootRaw == 0 ==> Writes(v, t, cfgRaw) == []
  {
  }

  /**
   Over every run and every fate of every write: nothing is written before the
   factory value is captured, which is the true one and then never changes; a pending
   return means the limit is raised; and no write exceeds max(60, factory).
   */
  lemma {:induction false} RegisterOwnership(factory: u8, cfgRaw: u32, ticks: seq<Tick>)
    ensures var v := Run(factory, cfgRaw, ticks);
      && Sound(v, factory, cfgRaw)
      && (v.bootRaw == 0 ==> AllWrites(factory, cfgRaw, ticks) == [])
      && forall w :: w in AllWrites(factory, cfgRaw, ticks) ==> w <= Max(WRITE_CAP, factory)
  {
    if ticks != [] {
      var init, t := ticks[..|ticks| - 1], ticks[|ticks| - 1];
      RegisterOwnership(factory, cfgRaw, init);
      StepIsSound(Run(factory, cfgRaw, init), t, factory, cfgRaw);
    }
  }

  /** One tick has at most one owner of the register, and each owner writes only in its own state. */
  lemma OneOwnerPerTick(v: View, t: Tick, cfgRaw: u32) returns (owner: Owner)
    ensures Writes(v, t, cfgRaw) == match owner
      case Nobody => []
      case Probe => [PROBE_RAW, Captured(v, t).bootRaw]
      case Raise => [RaiseRaw(cfgRaw)]
      case Return => [ReturnRaw(Captured(v, t).bootRaw)]
    ensures owner != Nobody ==> !t.criticalFault
    ensures owner == Probe ==>
      && t.snapshotOk && !v.probeDone && Step(v, t, cfgRaw).probeDone
      && !v.raised && PROBE_RAW < Captured(v, t).bootRaw
    ensures owner == Raise ==> cfgRaw != 0 && t.pumpAlive && t.vbatUv < RE_ELEVATE_MAX_VBAT_UV && !v.raised
    ensures owner == Return ==> v.raised && !t.pumpAlive && t.tsMs >= v.restoreAtMs > 0
  {
    var c, p := Captured(v, t), AfterProbe(v, t);
    owner := if ProbeWrites(c, t) then Probe
             else if RaiseWrites(p, t, cfgRaw) then Raise
             else if ReturnWrites(p, t) then Return
             else Nobody;
    assert p.bootRaw == c.bootRaw;
    assert RawFor(FCC_PROBE_UA) == PROBE_RAW;
  }

  /** With the policy off only the one-shot probe ever writes, and at most once. */
  lemma {:induction false} PolicyOffWritesOnlyTheProbe(factory: u8, ticks: seq<Tick>)
    ensures var sent := AllWrites(factory, 0, ticks);
      sent == [] || (sent == [PROBE_RAW, factory] && Run(factory, 0, ticks).probeDone)
  {
    if ticks != [] {
      var init, t := ticks[..|ticks| - 1], ticks[|ticks| - 1];
      PolicyOffWritesOnlyTheProbe(factory, init);
      RegisterOwnership(factory, 0, init);
      StepIsSound(Run(factory, 0, init), t, factory, 0);
      var owner := OneOwnerPerTick(Run(factory, 0, init), t, 0);
    }
  }

  // ---------------------------------------------------------------- where the register rests

  // The probe's own value took, its restore did not, and no return has succeeded since.
  ghost predicate Stranded(factory: u8, cfgRaw: u32, ticks: seq<Tick>) {
    ticks != [] &&
    var init, t := ticks[..|ticks| - 1], ticks[|ticks| - 1];
    var v := Run(factory, cfgRaw, init);
    if ProbeWrites(Captured(v, t), t) then t.first.Took? && !t.second.Took?
    else if v.raised && !Step(v, t, cfgRaw).raised then false
    else Stranded(factory, cfgRaw, init)
  }

  ghost predicate AllHonest(ticks: seq<Tick>) {
    forall t :: t in ticks ==> IsHonest(t.first) && IsHonest(t.second)
  }

  /**
   When every write either takes effect and reads back or does nothing, and the factory
   value is within the write cap, a register that is not raised rests at the factory
   value exactly when the probe was not stranded; stranded it rests at the probe's
   value, below the factory one.
   */
  lemma {:induction false} RestsExactly(factory: u8, cfgRaw: u32, ticks: seq<Tick>)
    requires AllHonest(ticks) && factory <= WRITE_CAP
    ensures var v := Run(factory, cfgRaw, ticks);
      && Sound(v, factory, cfgRaw)
      && (!v.raised ==> (v.reg == factory <==> !Stranded(factory, cfgRaw, ticks)))
      && (!v.raised && Stranded(factory, cfgRaw, ticks) ==> v.reg == PROBE_RAW < factory)
      && (v.raised ==> v.reg == RaiseRaw(cfgRaw))
      && (Stranded(factory, cfgRaw, ticks) ==> v.probeDone)
  {
    if ticks != [] {
      var init, t := ticks[..|ticks| - 1], ticks[|ticks| - 1];
      RestsExactly(factory, cfgRaw, init);
      StepIsSound(Run(factory, cfgRaw, init), t, factory, cfgRaw);
    }
  }

  /** The probe can strand the register: its write takes and its restore is refused. */
  lemma ProbeCanStrand()
    ensures var t := Tick(true, false, false, 4_000_000, 1_000, Took, Refused(false));
      var v := Run(30, 0, [t]);
      !v.raised && v.reg == PROBE_RAW
  {
    var t := Tick(true, false, false, 4_000_000, 1_000, Took, Refused(false));
    assert [t][..0] == [];
    assert Run(30, 0, []) == Start(30);
  }

  // The pump stays out of transfer.
  ghost predicate PumpDead(ticks: seq<Tick>) {
    forall t :: t in ticks ==> !t.pumpAlive
  }

  /**
   A raise that reaches the register but is not read back is not recorded: once the pump
   stops, the raised value stays for good, whatever the later ticks bring.
   */
  lemma {:induction false} UnreadRaiseIsNeverReturned(v: View, raise: Tick, later: seq<Tick>, cfgRaw: u32)
    requires RaiseWrites(AfterProbe(v, raise), raise, cfgRaw) && raise.first.Unread?
    requires v.probeDone && PumpDead(later)
    ensures var w := RunFrom(Step(v, raise, cfgRaw), later, cfgRaw);
      w.reg == RaiseRaw(cfgRaw) && !w.raised && w.probeDone
  {
    if later != [] {
      UnreadRaiseIsNeverReturned(v, raise, later[..|later| - 1], cfgRaw);
    }
  }

  // The last write that reached the register was an unread raise above the factory value.
  ghost predicate Overdriven(factory: u8, cfgRaw: u32, ticks: seq<Tick>) {
    ticks != [] &&
    var init, t := ticks[..|ticks| - 1], ticks[|ticks| - 1];
    var v := Run(factory, cfgRaw, init);
    var p := AfterProbe(v, t);
    if ProbeWrites(Captured(v, t), t) && (Lands(t.first) || Lands(t.second)) then false
    else if RaiseWrites(p, t, cfgRaw) && Lands(t.first) then t.first.Unread? && RaiseRaw(cfgRaw) > factory
    else if ReturnWrites(p, t) && Lands(t.first) then false
    else Overdriven(factory, cfgRaw, init)
  }

  /**
   For every factory value and every fate of every write, a register that is not raised is
   above the factory value if and only if the last write to reach it was an unread raise to
   more than the factory value; it then holds exactly that.
   */
  lemma {:induction false} OverdrivenExactly(factory: u8, cfgRaw: u32, ticks: seq<Tick>)
    ensures var v := Run(factory, cfgRaw, ticks);
      && Sound(v, factory, cfgRaw)
      && (!v.raised ==> (v.reg > factory <==> Overdriven(factory, cfgRaw, ticks)))
      && (Overdriven(factory, cfgRaw, ticks) ==> v.reg == RaiseRaw(cfgRaw) > factory)
  {
    if ticks != [] {
      var init, t := ticks[..|ticks| - 1], ticks[|ticks| - 1];
      OverdrivenExactly(factory, cfgRaw, init);
      StepIsSound(Run(factory, cfgRaw, init), t, factory, cfgRaw);
    }
  }

  /** A two-tick run that leaves an unraised register above the factory value. */
  lemma UnreadRaiseCanOverdrive()
    ensures var capture := Tick(true, false, false, 4_000_000, 1_000, Took, Took);
      var raise := Tick(true, false, true, 4_000_000, 31_000, Unread, Took);
      var v := Run(30, 50, [capture, raise]);
      !v.raised && v.reg == 50 && Overdriven(30, 50, [capture, raise])
  {
    var capture := Tick(true, false, false, 4_000_000, 1_000, Took, Took);
    var raise := Tick(true, false, true, 4_000_000, 31_000, Unread, Took);
    assert [capture, raise][..1] == [capture] && [capture][..0] == [];
    assert Run(30, 50, []) == Start(30);
    var captured := Run(30, 50, [capture]);
    assert captured == View(30, 30, false, 0, true);
    assert Run(30, 50, [capture, raise]) == Step(captured, raise, 50);
  }

  ghost function RunFrom(v: View, ticks: seq<Tick>, cfgRaw: u32): View {
    if ticks == [] then v
    else Step(RunFrom(v, ticks[..|ticks| - 1], cfgRaw), ticks[|ticks| - 1], cfgRaw)
  }

  // The pump has been dead (or the chip faulted) on every tick after k, and k set the deadline.
  ghost predicate DeadlineSetAt(ticks: seq<Tick>, k: int, deadlineMs: u64) {
    && 0 <= k < |ticks|
    && !ticks[k].pumpAlive && deadlineMs == ticks[k].tsMs + 120_000
    && forall j :: k <= j < |ticks| ==> !ticks[j].pumpAlive || ticks[j].criticalFault
  }

  lemma DeadlineStep(v: View, t: Tick, cfgRaw: u32)
    requires Step(v, t, cfgRaw).restoreAtMs != 0
    ensures !t.pumpAlive || t.criticalFault
    ensures v.restoreAtMs == 0 ==> !t.pumpAlive && Step(v, t, cfgRaw).restoreAtMs == t.tsMs + FCC_RESTORE_GRACE_MS
    ensures v.restoreAtMs != 0 ==> Step(v, t, cfgRaw).restoreAtMs == v.restoreAtMs
  {
  }

  /** A return waits the whole grace: its deadline was set 120 s ahead, and the pump has been dead since. */
  lemma {:induction false} ReturnWaitsTheGrace(factory: u8, cfgRaw: u32, ticks: seq<Tick>) returns (k: int)
    requires Run(factory, cfgRaw, ticks).restoreAtMs != 0
    ensures DeadlineSetAt(ticks, k, Run(factory, cfgRaw, ticks).restoreAtMs)
  {
    var n := |ticks| - 1;
    var init := ticks[..n];
    RegisterOwnership(factory, cfgRaw, init);
    DeadlineStep(Run(factory, cfgRaw, init), ticks[n], cfgRaw);
    if Run(factory, cfgRaw, init).restoreAtMs == 0 {
      k := n;
    } else {
      k := ReturnWaitsTheGrace(factory, cfgRaw, init);
    }
  }

  // ---------------------------------------------------------------- what must happen

  lemma {:induction false} RunSplits(factory: u8, cfgRaw: u32, before: seq<Tick>, after: seq<Tick>)
    ensures Run(factory, cfgRaw, before + after) == RunFrom(Run(factory, cfgRaw, before), after, cfgRaw)
  {
    if after == [] {
      assert before + after == before;
    } else {
      var n := |after| - 1;
      assert (before + after)[..|before| + n] == before + after[..n];
      RunSplits(factory, cfgRaw, before, after[..n]);
    }
  }

  // The pump is out of transfer, and the chip reports nothing critical.
  ghost predicate Quiet(ticks: seq<Tick>) {
    forall k :: 0 <= k < |ticks| ==> !ticks[k].pumpAlive && !ticks[k].criticalFault
  }

  ghost predicate InOrder(ticks: seq<Tick>) {
    forall i, j :: 0 <= i <= j < |ticks| ==> ticks[i].tsMs <= ticks[j].tsMs
  }

  // Out of transfer a raised register has a deadline, no later than the grace after the first tick.
  lemma {:induction false} QuietSchedules(v: View, ticks: seq<Tick>, cfgRaw: u32)
    requires ticks != [] && Quiet(ticks)
    requires v.restoreAtMs <= ticks[0].tsMs + 120_000
    ensures var w := RunFrom(v, ticks, cfgRaw);
      w.raised ==> 0 < w.restoreAtMs <= ticks[0].tsMs + 120_000
  {
    var n := |ticks| - 1;
    var init := ticks[..n];
    if n == 0 {
      assert init == [];
    } else {
      QuietSchedules(v, init, cfgRaw);
    }
  }

  // A deadline is at most the grace after any tick that comes no earlier than the run.
  lemma DeadlineIsNear(factory: u8, cfgRaw: u32, ticks: seq<Tick>, tsMs: Millis)
    requires forall i :: 0 <= i < |ticks| ==> ticks[i].tsMs <= tsMs
    ensures Run(factory, cfgRaw, ticks).restoreAtMs <= tsMs + 120_000
  {
    if Run(factory, cfgRaw, ticks).restoreAtMs != 0 {
      var j := ReturnWaitsTheGrace(factory, cfgRaw, ticks);
    }
  }

  lemma RaisedIsScheduled(factory: u8, cfgRaw: u32, before: seq<Tick>, quiet: seq<Tick>)
    requires Run(factory, cfgRaw, before + quiet).raised
    requires quiet != [] && Quiet(quiet)
    requires forall i :: 0 <= i < |before| ==> before[i].tsMs <= quiet[0].tsMs
    ensures 0 < Run(factory, cfgRaw, before + quiet).restoreAtMs <= quiet[0].tsMs + 120_000
  {
    DeadlineIsNear(factory, cfgRaw, before, quiet[0].tsMs);
    RunSplits(factory, cfgRaw, before, quiet);
    QuietSchedules(Run(factory, cfgRaw, before), quiet, cfgRaw);
  }

  // The tick that finds the deadline passed.
  lemma DueReturn(v: View, t: Tick, factory: u8, cfgRaw: u32)
    requires Sound(v, factory, cfgRaw) && v.raised && 0 < v.restoreAtMs <= t.tsMs
    requires !t.pumpAlive && !t.criticalFault && t.first.Took?
    ensures var w := Step(v, t, cfgRaw);
      !w.raised && w.restoreAtMs == 0 && w.reg == Min(factory, 60)
  {
    RaiseRawIsCapped(factory);
  }

  /**
   A raised limit is returned, over every run: if it is raised, and since some tick k the pump
   has been out of transfer and nothing critical, a tick 120 s or more after k whose write takes
   leaves the register not raised, nothing pending, and the factory value, as far as it may be
   written, in it.
   */
  lemma RaisedIsReturned(factory: u8, cfgRaw: u32, ticks: seq<Tick>, k: nat, t: Tick)
    requires Run(factory, cfgRaw, ticks).raised
    requires k < |ticks| && InOrder(ticks) && Quiet(ticks[k..]) && Quiet([t])
    requires t.tsMs - ticks[k].tsMs >= 120_000 && t.first.Took?
    ensures var v := Run(factory, cfgRaw, ticks + [t]);
      !v.raised && v.restoreAtMs == 0 && v.reg == Min(factory, 60)
  {
    RegisterOwnership(factory, cfgRaw, ticks);
    assert ticks[..k] + ticks[k..] == ticks;
    RaisedIsScheduled(factory, cfgRaw, ticks[..k], ticks[k..]);
    assert [t][0] == t && (ticks + [t])[..|ticks|] == ticks;
    DueReturn(Run(factory, cfgRaw, ticks), t, factory, cfgRaw);
  }

  /** And one that is returned earlier was returned by a write that read back the same value. */
  lemma ReturnIsReadBack(v: View, t: Tick, cfgRaw: u32)
    requires v.raised && !Step(v, t, cfgRaw).raised
    ensures !t.criticalFault && !t.pumpAlive && t.tsMs >= v.restoreAtMs > 0
    ensures Step(v, t, cfgRaw).reg == Min(Captured(v, t).bootRaw, 60)
  {
  }

  /** A limit is raised: captured, in transfer, below the gate and configured, a write that takes raises it. */
  lemma CapturedIsRaised(factory: u8, cfgRaw: u32, before: seq<Tick>, t: Tick)
    requires var v := Run(factory, cfgRaw, before); v.bootRaw != 0 && !v.raised
    requires !t.criticalFault && t.pumpAlive && t.vbatUv < 4_350_000 && cfgRaw != 0 && t.first.Took?
    ensures var v := Run(factory, cfgRaw, before + [t]);
      v.raised && v.restoreAtMs == 0 && v.reg == Min(cfgRaw, 60)
  {
    assert (before + [t])[..|before|] == before;
    RaiseRawIsCapped(cfgRaw);
  }

  lemma RaiseRawIsCapped(cfgRaw: u32)
    ensures RaiseRaw(cfgRaw) == Min(cfgRaw, 60)
  {
    if cfgRaw <= 60 {
      assert SatMul32(cfgRaw, FCC_STEP_UA) == cfgRaw * 50_000;
      assert cfgRaw * 50_000 / 50_000 == cfgRaw;
    } else {
      assert SatMul32(cfgRaw, FCC_STEP_UA) >= 61 * 50_000;
    }
  }

  /** The first snapshot captures what is in the register. */
  lemma FirstSnapshotCaptures(factory: u8, cfgRaw: u32, before: seq<Tick>, t: Tick)
    requires Run(factory, cfgRaw, before).bootRaw == 0 && t.snapshotOk
    ensures Run(factory, cfgRaw, before + [t]).bootRaw == factory
  {
    RegisterOwnership(factory, cfgRaw, before);
    assert (before + [t])[..|before|] == before;
  }

  /**
   The probe happens: the first successful snapshot of a sound chip, with the register neither
   raised nor about to be, writes raw 20 and then the factory value if that is higher, and
   spends the one chance either way; taken writes leave the factory value.
   */
  lemma ProbeHappensOnce(factory: u8, cfgRaw: u32, before: seq<Tick>, t: Tick)
    requires var v := Run(factory, cfgRaw, before); !v.probeDone && !v.raised
    requires factory != 0 && t.snapshotOk && !t.criticalFault && !t.pumpAlive
    ensures AllWrites(factory, cfgRaw, before + [t])
         == AllWrites(factory, cfgRaw, before) + if factory > 20 then [20, factory] else []
    ensures Run(factory, cfgRaw, before + [t]).probeDone
    ensures t.first.Took? && t.second.Took? && factory > 20 ==> Run(factory, cfgRaw, before + [t]).reg == factory
  {
    RegisterOwnership(factory, cfgRaw, before);
    assert (before + [t])[..|before|] == before;
    assert RawFor(FCC_PROBE_UA) == 20;
  }

  /** The probe yields for good to a register that is raised, or about to be. */
  lemma ProbeYields(factory: u8, cfgRaw: u32, before: seq<Tick>, t: Tick)
    requires var v := Run(factory, cfgRaw, before);
      !v.probeDone && (v.raised || (t.pumpAlive && t.vbatUv < 4_350_000))
    requires factory != 0 && t.snapshotOk && !t.criticalFault
    ensures Run(factory, cfgRaw, before + [t]).probeDone
    ensures 20 !in Writes(Run(factory, cfgRaw, before), t, cfgRaw) || RaiseRaw(cfgRaw) == 20 || factory == 20
  {
    RegisterOwnership(factory, cfgRaw, before);
    assert (before + [t])[..|before|] == before;
    RaiseRawIsCapped(factory);
  }

  /** A critical fault neither writes nor wastes the probe's chance, and no more does a failed snapshot. */
  lemma NothingIsWasted(v: View, t: Tick, cfgRaw: u32)
    ensures t.criticalFault ==> Writes(v, t, cfgRaw) == [] && Step(v, t, cfgRaw) == Captured(v, t)
    ensures !t.snapshotOk ==> Step(v, t, cfgRaw).probeDone == v.probeDone && Step(v, t, cfgRaw).bootRaw == v.bootRaw
  {
  }
}
