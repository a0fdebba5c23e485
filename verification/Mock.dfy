/**
 The scripted device model of crates/core/src/testkit.rs: a register array, fault slots and a
 write log of fixed size, proved against a device with a register map.
 */
module Mock {
  import opened Widths
  import opened Outcomes
  import opened SmbPolicy

  const MAX_REGS := 64
  const MAX_FAULTS := 16
  const MAX_LOG := 128

  datatype Cell = Cell(addr: u16, value: u8)

  datatype Fault =
    | ReadError(addr: u16, kind: TransportErrorKind, times: u8)
    | WriteError(addr: u16, kind: TransportErrorKind, times: u8)
    | Disconnect(times: u8)
    | WrongReadBack(addr: u16, value: u8, times: u8)

  datatype Slot = Slot(fault: Option<Fault>, remaining: u8)

  // Which faults an operation looks for.
  datatype Want = ForRead(addr: u16) | ForWrite(addr: u16) | ForReadBack(addr: u16)

  predicate Wanted(slot: Slot, want: Want) {
    slot.remaining > 0 &&
    match slot.fault
    case Some(ReadError(addr, _, _)) => want == ForRead(addr)
    case Some(WriteError(addr, _, _)) => want == ForWrite(addr)
    case Some(WrongReadBack(addr, _, _)) => want == ForReadBack(addr)
    case Some(Disconnect(_)) => false
    case None => false
  }

  // --- the device as a value ---

  datatype Device = Device(
    regs: map<u16, u8>,
    faults: seq<Slot>,
    written: seq<Cell>,
    resets: u32,
    readyAfter: u8,
    statusReads: u8)
  {
    function Reg(addr: u16): u8 {
      if addr in regs then regs[addr] else 0
    }

    // A new address is dropped once all registers are in use.
    function SetReg(addr: u16, value: u8): Device {
      if addr in regs || |regs| < MAX_REGS then this.(regs := regs[addr := value]) else this
    }

    function Consume(want: Want): Device {
      var k := FirstWanted(faults, want);
      if k == |faults| then this
      else this.(faults := faults[k := faults[k].(remaining := faults[k].remaining - 1)])
    }

    function Read(addr: u16): (Device, Result<u8>) {
      var k := FirstWanted(faults, ForRead(addr));
      if k < |faults| then (Consume(ForRead(addr)), Err(Transport(faults[k].fault.value.kind)))
      else
        var counted := if addr == APSD_STATUS then this.(statusReads := SatAdd8(statusReads, 1)) else this;
        if addr == APSD_STATUS && counted.statusReads <= readyAfter then (counted, Ok(ClearDone(Reg(addr))))
        else
          var lie := FirstWanted(faults, ForReadBack(addr));
          if lie < |faults| then (counted.Consume(ForReadBack(addr)), Ok(faults[lie].fault.value.value))
          else (counted, Ok(Reg(addr)))
    }

    function Write(addr: u16, value: u8): (Device, Result<()>) {
      var k := FirstWanted(faults, ForWrite(addr));
      if k < |faults| then (Consume(ForWrite(addr)), Err(Transport(faults[k].fault.value.kind)))
      else
        var stored := SetReg(addr, value);
        (if |written| < MAX_LOG then stored.(written := written + [Cell(addr, value)]) else stored, Ok(()))
    }

    function Reset(): Device {
      this.(resets := SatAdd32(resets, 1))
    }
  }

  const BLANK := Device(map[], [], [], 0, 0, 0)

  // Bit 0 cleared.
  function ClearDone(value: u8): u8 {
    value / 2 * 2
  }

  // The first slot that applies, or the number of slots.
  function FirstWanted(slots: seq<Slot>, want: Want): (k: nat)
    ensures k <= |slots|
    ensures k < |slots| ==> Wanted(slots[k], want)
    ensures forall i :: 0 <= i < k ==> !Wanted(slots[i], want)
  {
    if slots == [] || Wanted(slots[0], want) then 0 else 1 + FirstWanted(slots[1..], want)
  }

  // --- what injected faults do over a run ---

  // How many operations the injected faults will still fail.
  function Owed(slots: seq<Slot>, want: Want): nat {
    if slots == [] then 0
    else (if Wanted(slots[0], want) then slots[0].remaining else 0) + Owed(slots[1..], want)
  }

  lemma {:induction false} OwedExactly(slots: seq<Slot>, want: Want)
    ensures Owed(slots, want) == 0 <==> FirstWanted(slots, want) == |slots|
  {
    if slots != [] {
      OwedExactly(slots[1..], want);
    }
  }

  lemma {:induction false} ConsumePaysOne(slots: seq<Slot>, want: Want)
    requires FirstWanted(slots, want) < |slots|
    ensures var k := FirstWanted(slots, want);
      Owed(slots[k := slots[k].(remaining := slots[k].remaining - 1)], want) == Owed(slots, want) - 1
  {
    var k := FirstWanted(slots, want);
    var paid := slots[k := slots[k].(remaining := slots[k].remaining - 1)];
    if k == 0 {
      assert paid[1..] == slots[1..];
    } else {
      assert paid[1..] == slots[1..][k - 1 := slots[k].(remaining := slots[k].remaining - 1)];
      ConsumePaysOne(slots[1..], want);
    }
  }

  lemma {:induction false} ConsumeSparesOthers(slots: seq<Slot>, want: Want, other: Want)
    requires FirstWanted(slots, want) < |slots| && want != other
    ensures var k := FirstWanted(slots, want);
      Owed(slots[k := slots[k].(remaining := slots[k].remaining - 1)], other) == Owed(slots, other)
  {
    var k := FirstWanted(slots, want);
    var paid := slots[k := slots[k].(remaining := slots[k].remaining - 1)];
    if k == 0 {
      assert paid[1..] == slots[1..];
    } else {
      assert paid[1..] == slots[1..][k - 1 := slots[k].(remaining := slots[k].remaining - 1)];
      ConsumeSparesOthers(slots[1..], want, other);
    }
  }

  function ReadTimes(d: Device, addr: u16, n: nat): Device {
    if n == 0 then d else ReadTimes(d, addr, n - 1).Read(addr).0
  }

  lemma ReadPaysOne(d: Device, addr: u16)
    ensures Owed(d.Read(addr).0.faults, ForRead(addr)) == SatSub(Owed(d.faults, ForRead(addr)), 1)
    ensures d.Read(addr).1.Err? <==> Owed(d.faults, ForRead(addr)) > 0
  {
    OwedExactly(d.faults, ForRead(addr));
    if FirstWanted(d.faults, ForRead(addr)) < |d.faults| {
      ConsumePaysOne(d.faults, ForRead(addr));
    } else if FirstWanted(d.faults, ForReadBack(addr)) < |d.faults| {
      ConsumeSparesOthers(d.faults, ForReadBack(addr), ForRead(addr));
    }
  }

  /** Of successive reads of a register exactly the first ones fail, as many as were injected for it. */
  lemma {:induction false} ReadsFailExactly(d: Device, addr: u16, n: nat)
    ensures Owed(ReadTimes(d, addr, n).faults, ForRead(addr)) == SatSub(Owed(d.faults, ForRead(addr)), n)
    ensures ReadTimes(d, addr, n).Read(addr).1.Err? <==> n < Owed(d.faults, ForRead(addr))
  {
    ReadPaysOne(ReadTimes(d, addr, n), addr);
    if n > 0 {
      ReadsFailExactly(d, addr, n - 1);
      ReadPaysOne(ReadTimes(d, addr, n - 1), addr);
    }
  }

  lemma {:induction false} OwedSnoc(slots: seq<Slot>, slot: Slot, want: Want)
    ensures Owed(slots + [slot], want) == Owed(slots, want) + (if Wanted(slot, want) then slot.remaining else 0)
  {
    if slots == [] {
      assert slots + [slot] == [slot];
    } else {
      assert (slots + [slot])[1..] == slots[1..] + [slot];
      OwedSnoc(slots[1..], slot, want);
    }
  }

  /** An injected link loss never fails anything, though it is described as failing reads. */
  lemma DisconnectNeverFires(d: Device, times: u8, want: Want)
    ensures Owed(d.faults + [Slot(Some(Disconnect(times)), times)], want) == Owed(d.faults, want)
  {
    OwedSnoc(d.faults, Slot(Some(Disconnect(times)), times), want);
  }

  // The operations an injected fault is meant for, by name.
  predicate Aims(f: Fault, want: Want) {
    (f.ReadError? && want == ForRead(f.addr))
    || (f.WriteError? && want == ForWrite(f.addr))
    || (f.WrongReadBack? && want == ForReadBack(f.addr))
  }

  /** Injecting a fault owes exactly its number of times, to exactly the operations it is meant for. */
  lemma PushingOwesExactly(slots: seq<Slot>, f: Fault, want: Want)
    ensures Owed(slots + [Slot(Some(f), f.times)], want) == Owed(slots, want) + if Aims(f, want) then f.times else 0
  {
    OwedSnoc(slots, Slot(Some(f), f.times), want);
  }

  // Nothing is owed to this access of this register.
  predicate Undisturbed(d: Device, want: Want) {
    Owed(d.faults, want) == 0
  }

  /**
   What a read without injected read errors answers, and that it changes no register: the
   injected lie if there is one, else what the register holds; the detection status misses
   its done bit for as many reads as were asked for.
   */
  lemma ReadExactly(d: Device, addr: u16)
    requires Undisturbed(d, ForRead(addr))
    ensures var (after, r) := d.Read(addr);
      && r.Ok? && after.regs == d.regs && after.written == d.written && after.resets == d.resets
      && after.readyAfter == d.readyAfter
      && after.statusReads == (if addr == 0x1307 then Min(d.statusReads + 1, 255) else d.statusReads)
      && (addr == 0x1307 && after.statusReads <= d.readyAfter ==> r.value == d.Reg(addr) - d.Reg(addr) % 2)
      && (!(addr == 0x1307 && after.statusReads <= d.readyAfter) && Undisturbed(d, ForReadBack(addr)) ==>
           r.value == d.Reg(addr))
      && (Undisturbed(d, ForReadBack(addr)) ==> after.faults == d.faults)
  {
    OwedExactly(d.faults, ForRead(addr));
    OwedExactly(d.faults, ForReadBack(addr));
  }

  // Some injected fault makes this register read as this value.
  ghost predicate Lied(d: Device, addr: u16, value: u8) {
    exists k :: 0 <= k < |d.faults| && Lies(d.faults[k], addr, value)
  }

  predicate Lies(slot: Slot, addr: u16, value: u8) {
    slot.fault.Some? && slot.fault.value.WrongReadBack? && slot.fault.value.addr == addr && slot.fault.value.value == value
  }

  /** A read that owes a lie tells it, and pays for it, unless the status hides its done bit. */
  lemma LiesAreTheInjectedOnes(d: Device, addr: u16)
    requires Undisturbed(d, ForRead(addr)) && !Undisturbed(d, ForReadBack(addr))
    requires addr != 0x1307 || Min(d.statusReads + 1, 255) > d.readyAfter
    ensures var (after, r) := d.Read(addr);
      && r.Ok? && Lied(d, addr, r.value)
      && Owed(after.faults, ForReadBack(addr)) == Owed(d.faults, ForReadBack(addr)) - 1
  {
    OwedExactly(d.faults, ForRead(addr));
    OwedExactly(d.faults, ForReadBack(addr));
    ConsumePaysOne(d.faults, ForReadBack(addr));
    var k := FirstWanted(d.faults, ForReadBack(addr));
    assert Lies(d.faults[k], addr, d.faults[k].fault.value.value);
  }

  /** An undisturbed write, while there is room, is read back by an undisturbed read. */
  lemma WriteThenRead(d: Device, addr: u16, value: u8)
    requires Undisturbed(d, ForWrite(addr)) && Undisturbed(d, ForRead(addr)) && Undisturbed(d, ForReadBack(addr))
    requires addr != 0x1307 || d.readyAfter == 0
    requires addr in d.regs || |d.regs| < 64
    ensures d.Write(addr, value).1 == Ok(()) && d.Write(addr, value).0.Read(addr).1 == Ok(value)
    ensures forall other: u16 :: other != addr ==> d.Write(addr, value).0.Reg(other) == d.Reg(other)
  {
    OwedExactly(d.faults, ForWrite(addr));
    ReadExactly(d.Write(addr, value).0, addr);
  }

  /** A write succeeds exactly when no write error is owed, and one that fails changes no register. */
  lemma WriteFailsExactly(d: Device, addr: u16, value: u8)
    ensures d.Write(addr, value).1.Ok? <==> Undisturbed(d, ForWrite(addr))
    ensures Owed(d.Write(addr, value).0.faults, ForWrite(addr)) == SatSub(Owed(d.faults, ForWrite(addr)), 1)
    ensures d.Write(addr, value).1.Err? ==>
      d.Write(addr, value).0.regs == d.regs && d.Write(addr, value).0.written == d.written
    ensures d.Write(addr, value).1.Ok? ==>
      d.Write(addr, value).0.written == if |d.written| < 128 then d.written + [Cell(addr, value)] else d.written
  {
    OwedExactly(d.faults, ForWrite(addr));
    if FirstWanted(d.faults, ForWrite(addr)) < |d.faults| {
      ConsumePaysOne(d.faults, ForWrite(addr));
    }
  }

  // Some injected fault for this access carries this kind.
  ghost predicate Injected(d: Device, want: Want, error: ChargerError) {
    exists k :: 0 <= k < |d.faults| && Carries(d.faults[k], want, error)
  }

  predicate Carries(slot: Slot, want: Want, error: ChargerError) {
    match slot.fault
    case Some(ReadError(addr, kind, _)) => want == ForRead(addr) && error == Transport(kind)
    case Some(WriteError(addr, kind, _)) => want == ForWrite(addr) && error == Transport(kind)
    case _ => false
  }

  /** A failing access fails as injected. */
  lemma ErrorsAreTheInjectedOnes(d: Device, addr: u16, value: u8)
    ensures d.Read(addr).1.Err? ==> Injected(d, ForRead(addr), d.Read(addr).1.error)
    ensures d.Write(addr, value).1.Err? ==> Injected(d, ForWrite(addr), d.Write(addr, value).1.error)
  {
    var r, w := FirstWanted(d.faults, ForRead(addr)), FirstWanted(d.faults, ForWrite(addr));
    assert r < |d.faults| ==> Carries(d.faults[r], ForRead(addr), Transport(d.faults[r].fault.value.kind));
    assert w < |d.faults| ==> Carries(d.faults[w], ForWrite(addr), Transport(d.faults[w].fault.value.kind));
  }

  lemma {:induction false} StatusReadsSaturate(d: Device, n: nat)
    requires Undisturbed(d, ForRead(0x1307)) && d.statusReads == 0
    ensures var w := ReadTimes(d, 0x1307, n);
      Undisturbed(w, ForRead(0x1307)) && w.statusReads == Min(n, 255) && w.readyAfter == d.readyAfter && w.regs == d.regs
  {
    if n > 0 {
      StatusReadsSaturate(d, n - 1);
      ReadExactly(ReadTimes(d, 0x1307, n - 1), 0x1307);
      ReadPaysOne(ReadTimes(d, 0x1307, n - 1), 0x1307);
    }
  }

  /** A finished detection is seen in the end exactly when the readiness delay is below 255 reads. */
  lemma ReadyInTheEndExactly(d: Device)
    requires Undisturbed(d, ForRead(0x1307)) && Undisturbed(d, ForReadBack(0x1307))
    requires d.statusReads == 0 && d.Reg(0x1307) % 2 == 1
    ensures (exists n: nat :: ReadTimes(d, 0x1307, n).Read(0x1307).1 == Ok(d.Reg(0x1307))) <==> d.readyAfter < 255
  {
    if n: nat :| ReadTimes(d, 0x1307, n).Read(0x1307).1 == Ok(d.Reg(0x1307)) {
      StatusReadsSaturate(d, n);
      ReadExactly(ReadTimes(d, 0x1307, n), 0x1307);
    }
    if d.readyAfter < 255 {
      NoLies(d, d.readyAfter);
      StatusReadsSaturate(d, d.readyAfter);
      ReadExactly(ReadTimes(d, 0x1307, d.readyAfter), 0x1307);
    }
  }

  lemma {:induction false} NoLies(d: Device, n: nat)
    requires Undisturbed(d, ForRead(0x1307)) && Undisturbed(d, ForReadBack(0x1307))
    ensures ReadTimes(d, 0x1307, n).faults == d.faults
  {
    if n > 0 {
      NoLies(d, n - 1);
      ReadExactly(ReadTimes(d, 0x1307, n - 1), 0x1307);
    }
  }

  // --- the register map over a run ---

  // The device after these writes, some of which may hit an injected fault.
  function WriteAll(start: Device, writes: seq<Cell>): Device {
    if writes == [] then start
    else
      var last := writes[|writes| - 1];
      WriteAll(start, writes[..|writes| - 1]).Write(last.addr, last.value).0
  }

  predicate LastIsAccepted(start: Device, writes: seq<Cell>)
    requires writes != []
  {
    var last := writes[|writes| - 1];
    WriteAll(start, writes[..|writes| - 1]).Write(last.addr, last.value).1.Ok?
  }

  // The addresses in use at the start, and those of acknowledged writes.
  function Addresses(start: Device, writes: seq<Cell>): set<u16> {
    if writes == [] then start.regs.Keys
    else
      var before := Addresses(start, writes[..|writes| - 1]);
      if LastIsAccepted(start, writes) then before + {writes[|writes| - 1].addr} else before
  }

  // What a map would hold: the last acknowledged value, else the initial one.
  function LastValue(start: Device, writes: seq<Cell>, addr: u16): u8 {
    if writes == [] then start.Reg(addr)
    else if LastIsAccepted(start, writes) && writes[|writes| - 1].addr == addr then writes[|writes| - 1].value
    else LastValue(start, writes[..|writes| - 1], addr)
  }

  // The registers hold as many of the used addresses as fit.
  ghost predicate Holds(d: Device, used: set<u16>) {
    d.regs.Keys <= used && |d.regs| == Min(|used|, MAX_REGS)
  }

  lemma SetRegHolds(d: Device, used: set<u16>, addr: u16, value: u8)
    requires Holds(d, used)
    ensures Holds(d.SetReg(addr, value), used + {addr})
  {
    KeysNeverExceed(d.regs.Keys, used);
    if addr in used {
      assert used + {addr} == used;
      if addr !in d.regs && |d.regs| < MAX_REGS {
        SubsetOfSameSize(d.regs.Keys, used);
        assert false;
      }
    }
  }

  lemma {:induction false} RegistersAfter(start: Device, writes: seq<Cell>)
    requires |start.regs| <= MAX_REGS
    ensures Holds(WriteAll(start, writes), Addresses(start, writes))
    ensures var d := WriteAll(start, writes);
      forall a :: a in d.regs ==> d.regs[a] == LastValue(start, writes, a)
  {
    if writes != [] {
      var init, last := writes[..|writes| - 1], writes[|writes| - 1];
      RegistersAfter(start, init);
      SetRegHolds(WriteAll(start, init), Addresses(start, init), last.addr, last.value);
    }
  }

  lemma {:induction false} SubsetOfSameSize(few: set<u16>, many: set<u16>)
    requires few <= many && |few| == |many|
    ensures few == many
  {
    if a :| a in many && a !in few {
      KeysNeverExceed(few, many - {a});
    }
  }

  lemma {:induction false} KeysNeverExceed(few: set<u16>, many: set<u16>)
    requires few <= many
    ensures |few| <= |many|
  {
    if a :| a in few {
      KeysNeverExceed(few - {a}, many - {a});
    }
  }

  /**
   From any device and under any injected faults: every address in use is kept exactly while
   there are at most 64 of them, and every address reads as in a map exactly when each one
   that was dropped was last written with zero.
   */
  lemma RegistersAreAMapExactly(start: Device, writes: seq<Cell>)
    requires |start.regs| <= MAX_REGS
    ensures var d, used := WriteAll(start, writes), Addresses(start, writes);
      && (used <= d.regs.Keys <==> |used| <= MAX_REGS)
      && ((forall a: u16 :: d.Reg(a) == LastValue(start, writes, a)) <==>
          (forall a :: a in used && a !in d.regs ==> LastValue(start, writes, a) == 0))
  {
    RegistersAfter(start, writes);
    var d, used := WriteAll(start, writes), Addresses(start, writes);
    if |used| <= MAX_REGS {
      SubsetOfSameSize(d.regs.Keys, used);
    } else if used <= d.regs.Keys {
      KeysNeverExceed(used, d.regs.Keys);
      assert false;
    }
    forall a: u16 | a !in used
      ensures LastValue(start, writes, a) == 0
    {
      NeverWritten(start, writes, a);
    }
  }

  lemma {:induction false} NeverWritten(start: Device, writes: seq<Cell>, addr: u16)
    requires addr !in Addresses(start, writes)
    ensures LastValue(start, writes, addr) == 0
  {
    if writes != [] {
      NeverWritten(start, writes[..|writes| - 1], addr);
    }
  }

  // --- the array as a table ---

  function Table(cells: seq<Cell>): map<u16, u8> {
    if cells == [] then map[] else Table(cells[1..])[cells[0].addr := cells[0].value]
  }

  ghost predicate Distinct(cells: seq<Cell>) {
    forall i, j :: 0 <= i < j < |cells| ==> cells[i].addr != cells[j].addr
  }

  lemma {:induction false} TableAt(cells: seq<Cell>, k: nat)
    requires Distinct(cells) && k < |cells|
    ensures cells[k].addr in Table(cells) && Table(cells)[cells[k].addr] == cells[k].value
  {
    if k > 0 {
      TableAt(cells[1..], k - 1);
    }
  }

  lemma {:induction false} TableAbsent(cells: seq<Cell>, addr: u16)
    requires forall k :: 0 <= k < |cells| ==> cells[k].addr != addr
    ensures addr !in Table(cells)
  {
    if cells != [] {
      TableAbsent(cells[1..], addr);
    }
  }

  lemma {:induction false} TableSet(cells: seq<Cell>, k: nat, value: u8)
    requires Distinct(cells) && k < |cells|
    ensures Table(cells[k := Cell(cells[k].addr, value)]) == Table(cells)[cells[k].addr := value]
  {
    var after := cells[k := Cell(cells[k].addr, value)];
    if k == 0 {
      assert after[1..] == cells[1..];
    } else {
      assert after[1..] == cells[1..][k - 1 := Cell(cells[k].addr, value)];
      TableSet(cells[1..], k - 1, value);
    }
  }

  lemma {:induction false} TableAppend(cells: seq<Cell>, cell: Cell)
    requires forall k :: 0 <= k < |cells| ==> cells[k].addr != cell.addr
    ensures Table(cells + [cell]) == Table(cells)[cell.addr := cell.value]
  {
    if cells != [] {
      assert (cells + [cell])[1..] == cells[1..] + [cell];
      TableAppend(cells[1..], cell);
    }
  }

  lemma {:induction false} TableSize(cells: seq<Cell>)
    requires Distinct(cells)
    ensures |Table(cells)| == |cells|
  {
    if cells != [] {
      TableSize(cells[1..]);
      TableAbsent(cells[1..], cells[0].addr);
    }
  }

  class ScriptedMock {
    const regs: array<Cell>
    var regCount: nat
    const writeLog: array<Cell>
    var writeCount: nat
    const faults: array<Slot>
    var faultCount: nat
    var resetCount: u32
    var readyAfterReads: u8
    var statusReads: u8

    ghost predicate Valid()
      reads this, regs
    {
      && regs.Length == MAX_REGS && writeLog.Length == MAX_LOG && faults.Length == MAX_FAULTS
      && regs != writeLog
      && regCount <= MAX_REGS && writeCount <= MAX_LOG && faultCount <= MAX_FAULTS
      && Distinct(regs[..regCount])
    }

    // The device the arrays stand for.
    ghost function Model(): Device
      reads this, regs, writeLog, faults
      requires Valid()
    {
      Device(Table(regs[..regCount]), faults[..faultCount], writeLog[..writeCount], resetCount, readyAfterReads, statusReads)
    }

    constructor ()
      ensures Valid() && Model() == BLANK
      ensures fresh(regs) && fresh(writeLog) && fresh(faults)
    {
      regs := new Cell[MAX_REGS](_ => Cell(0, 0));
      writeLog := new Cell[MAX_LOG](_ => Cell(0, 0));
      faults := new Slot[MAX_FAULTS](_ => Slot(None, 0));
      regCount, writeCount, faultCount := 0, 0, 0;
      resetCount, readyAfterReads, statusReads := 0, 0, 0;
    }

    method SetReg(addr: u16, value: u8)
      requires Valid()
      modifies this`regCount, regs
      ensures Valid() && Model() == old(Model()).SetReg(addr, value)
    {
      ghost var cells := regs[..regCount];
      TableSize(cells);
      for index := 0 to regCount
        invariant Valid() && regs[..regCount] == cells && regCount == old(regCount)
        invariant forall k :: 0 <= k < index ==> cells[k].addr != addr
      {
        if regs[index].addr == addr {
          TableAt(cells, index);
          TableSet(cells, index, value);
          regs[index] := Cell(addr, value);
          assert regs[..regCount] == cells[index := Cell(addr, value)];
          return;
        }
      }
      TableAbsent(cells, addr);
      if regCount < MAX_REGS {
        TableAppend(cells, Cell(addr, value));
        regs[regCount] := Cell(addr, value);
        regCount := regCount + 1;
        assert regs[..regCount] == cells + [Cell(addr, value)];
      }
    }

    method Reg(addr: u16) returns (value: u8)
      requires Valid()
      ensures value == Model().Reg(addr)
    {
      for index := 0 to regCount
        invariant forall k :: 0 <= k < index ==> regs[..regCount][k].addr != addr
      {
        if regs[index].addr == addr {
          TableAt(regs[..regCount], index);
          assert regs[..regCount][index] == regs[index];
          return regs[index].value;
        }
      }
      TableAbsent(regs[..regCount], addr);
      return 0;
    }

    method PushFault(fault: Fault)
      requires Valid()
      modifies this`faultCount, faults
      ensures Valid()
      ensures Model() == if old(faultCount) == MAX_FAULTS then old(Model())
                         else old(Model()).(faults := old(Model()).faults + [Slot(Some(fault), fault.times)])
    {
      if faultCount < MAX_FAULTS {
        faults[faultCount] := Slot(Some(fault), fault.times);
        faultCount := faultCount + 1;
        assert faults[..faultCount] == old(faults[..faultCount]) + [Slot(Some(fault), fault.times)];
      }
    }

    method Consume(want: Want) returns (fault: Option<Fault>)
      requires Valid()
      modifies faults
      ensures Valid() && Model() == old(Model()).Consume(want)
      ensures var slots := old(Model()).faults;
        var k := FirstWanted(slots, want);
        fault == if k < |slots| then slots[k].fault else None
      ensures fault != None ==> Wanted(Slot(fault, 1), want)
    {
      ghost var slots := faults[..faultCount];
      for index := 0 to faultCount
        invariant faults[..faultCount] == slots
        invariant forall k :: 0 <= k < index ==> !Wanted(slots[k], want)
      {
        if Wanted(faults[index], want) {
          FirstWantedIs(slots, want, index);
          var slot := faults[index];
          faults[index] := slot.(remaining := slot.remaining - 1);
          assert faults[..faultCount] == slots[index := slot.(remaining := slot.remaining - 1)];
          return slot.fault;
        }
      }
      FirstWantedIs(slots, want, faultCount);
      return None;
    }

    method Read(addr: u16) returns (r: Result<u8>)
      requires Valid()
      modifies this`statusReads, faults
      ensures Valid() && (Model(), r) == old(Model()).Read(addr)
    {
      var fault := Consume(ForRead(addr));
      if fault.Some? {
        return Err(Transport(fault.value.kind));
      }
      if addr == APSD_STATUS {
        statusReads := SatAdd8(statusReads, 1);
        if statusReads <= readyAfterReads {
          var value := Reg(addr);
          return Ok(ClearDone(value));
        }
      }
      var lie := Consume(ForReadBack(addr));
      if lie.Some? {
        return Ok(lie.value.value);
      }
      var value := Reg(addr);
      return Ok(value);
    }

    method Write(addr: u16, value: u8) returns (r: Result<()>)
      requires Valid()
      modifies this`regCount, this`writeCount, regs, writeLog, faults
      ensures Valid() && (Model(), r) == old(Model()).Write(addr, value)
    {
      var fault := Consume(ForWrite(addr));
      if fault.Some? {
        return Err(Transport(fault.value.kind));
      }
      SetReg(addr, value);
      if writeCount < MAX_LOG {
        ghost var log := writeLog[..writeCount];
        writeLog[writeCount] := Cell(addr, value);
        writeCount := writeCount + 1;
        assert writeLog[..writeCount] == log + [Cell(addr, value)];
      }
      return Ok(());
    }

    method Reset() returns (r: Result<()>)
      requires Valid()
      modifies this`resetCount
      ensures Valid() && Model() == old(Model()).Reset() && r == Ok(())
    {
      resetCount := SatAdd32(resetCount, 1);
      return Ok(());
    }
  }

  lemma FirstWantedIs(slots: seq<Slot>, want: Want, k: nat)
    requires k <= |slots| && forall i :: 0 <= i < k ==> !Wanted(slots[i], want)
    requires k < |slots| ==> Wanted(slots[k], want)
    ensures FirstWanted(slots, want) == k
  {
  }
}
