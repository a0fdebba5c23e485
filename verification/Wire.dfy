/**
 The text protocol between the client (crates/host/src/tcp.rs) and the simulator
 (crates/host/src/sim.rs): over an intact link a remote device behaves as a local one.
 */
module Wire {
  import opened Widths
  import opened Outcomes
  import opened Hex
  import opened Lines
  import opened Mock

  datatype Op = OpRead(addr: u16) | OpWrite(addr: u16, value: u8) | OpReset

  datatype Reply = Got(value: u8) | Done

  // --- the local device ---

  function Local(d: Device, op: Op): (Device, Result<Reply>) {
    match op
    case OpRead(addr) =>
      (d.Read(addr).0, if d.Read(addr).1.Ok? then Ok(Got(d.Read(addr).1.value)) else Err(d.Read(addr).1.error))
    case OpWrite(addr, value) =>
      (d.Write(addr, value).0, if d.Write(addr, value).1.Ok? then Ok(Done) else Err(d.Write(addr, value).1.error))
    case OpReset => (d.Reset(), Ok(Done))
  }

  // What of an outcome survives the wire: the category of an error does not.
  function AsSeen(r: Result<Reply>): Result<Reply> {
    match r
    case Ok(reply) => Ok(reply)
    case Err(_) => Err(Transport(Io))
  }

  // --- the simulator's side ---

  function Operand(words: seq<string>, k: nat): Option<u16> {
    if k < |words| then Parse(words[k]) else None
  }

  function Dispatch(d: Device, request: string): (Device, string) {
    var words := Words(request);
    if words == [] then (d, "ERR 3")
    else if words[0] == "R" then
      match Operand(words, 1)
      case None => (d, "ERR 2")
      case Some(addr) =>
        match d.Read(addr).1
        case Ok(value) => (d.Read(addr).0, "V " + Print(value, 2))
        case Err(_) => (d.Read(addr).0, "ERR 1")
    else if words[0] == "W" then
      match (Operand(words, 1), Operand(words, 2))
      case (Some(addr), Some(value)) =>
        if value > 0xFF then (d, "ERR 1")
        else (d.Write(addr, value).0, if d.Write(addr, value).1.Ok? then "OK" else "ERR 1")
      case _ => (d, "ERR 2")
    else if words[0] == "RESET" then (d.Reset(), "OK")
    else (d, "ERR 3")
  }

  // One request line in, one response line out.
  function Serve(d: Device, line: string): (Device, string) {
    (Dispatch(d, Trim(line)).0, Dispatch(d, Trim(line)).1 + "\n")
  }

  // --- the client's side ---

  function Request(op: Op): string {
    match op
    case OpRead(addr) => "R " + Print(addr, 4)
    case OpWrite(addr, value) => "W " + Print(addr, 4) + " " + Print(value, 2)
    case OpReset => "RESET"
  }

  function StartsWith(s: string, prefix: string): bool {
    |prefix| <= |s| && s[..|prefix|] == prefix
  }

  function ReadReply(response: string): Result<u8> {
    var parts := Parts(response);
    if |parts| > 1 && parts[0] == "V" then
      match Parse(parts[1])
      case Some(value) => if value <= 0xFF then Ok(value) else Err(Transport(Protocol))
      case None => Err(Transport(Protocol))
    else if parts[0] == "ERR" then Err(Transport(Io))
    else Err(Transport(Protocol))
  }

  function WriteReply(response: string): Result<()> {
    if response == "OK" then Ok(())
    else if StartsWith(response, "ERR") then Err(Transport(Io))
    else Err(Transport(Protocol))
  }

  function ResetReply(response: string): Result<()> {
    if response == "OK" then Ok(()) else Err(Transport(Protocol))
  }

  function Understand(op: Op, response: string): Result<Reply> {
    match op
    case OpRead(_) =>
      (match ReadReply(response) case Ok(value) => Ok(Got(value)) case Err(error) => Err(error))
    case OpWrite(_, _) =>
      (match WriteReply(response) case Ok(_) => Ok(Done) case Err(error) => Err(error))
    case OpReset =>
      (match ResetReply(response) case Ok(_) => Ok(Done) case Err(error) => Err(error))
  }

  /** The request lines of the documented protocol. */
  lemma ProtocolLines(addr: u16, value: u8)
    ensures Request(OpRead(addr)) == "R " + Print(addr, 4) && |Print(addr, 4)| == 4 && Value(Print(addr, 4)) == addr
    ensures Request(OpWrite(addr, value)) == "W " + Print(addr, 4) + " " + Print(value, 2)
    ensures |Print(value, 2)| == 2 && Value(Print(value, 2)) == value
    ensures Request(OpReset) == "RESET"
  {
    Powers();
    PrintedValue(addr, 4);
    PrintedValue(value, 2);
  }

  // --- the whole exchange ---

  function Remote(d: Device, op: Op): (Device, Result<Reply>) {
    var answered := Serve(d, Request(op) + "\n");
    (answered.0, Understand(op, Trim(answered.1)))
  }

  lemma PrintedIsAWord(n: u16, width: nat)
    requires 0 < width && n < Pow16(width)
    ensures IsWord(Print(n, width))
  {
    PrintedValue(n, width);
    forall k | 0 <= k < width
      ensures !IsSpace(Print(n, width)[k])
    {
      assert DigitValue(Print(n, width)[k]) != None;
    }
  }

  lemma Powers()
    ensures Pow16(2) == 0x100 && Pow16(4) == 0x1_0000
  {
    assert Pow16(1) == 16;
    assert Pow16(3) == 0x1000;
  }

  // The words of a request.
  function Sent(op: Op): seq<string> {
    match op
    case OpRead(addr) => ["R", Print(addr, 4)]
    case OpWrite(addr, value) => ["W", Print(addr, 4), Print(value, 2)]
    case OpReset => ["RESET"]
  }

  lemma RequestIsSpaced(op: Op)
    ensures Request(op) == Spaced(Sent(op))
  {
    match op {
      case OpRead(addr) =>
        assert Sent(op)[1..] == [Print(addr, 4)];
      case OpWrite(addr, value) =>
        var rest := [Print(addr, 4), Print(value, 2)];
        assert Sent(op)[1..] == rest && rest[1..] == [Print(value, 2)];
        assert Spaced(rest) == Print(addr, 4) + " " + Print(value, 2);
        assert "W" + " " + (Print(addr, 4) + " " + Print(value, 2)) == Request(op);
      case OpReset =>
    }
  }

  // The request arrives as the words that were sent.
  lemma RequestArrives(op: Op)
    ensures Trim(Request(op) + "\n") == Request(op) && Words(Request(op)) == Sent(op)
  {
    Powers();
    if !op.OpReset? {
      PrintedIsAWord(op.addr, 4);
    }
    if op.OpWrite? {
      PrintedIsAWord(op.value, 2);
    }
    RequestIsSpaced(op);
    Arrives(Sent(op));
  }

  // And its operands as the numbers that were printed.
  lemma OperandsArrive(op: Op)
    ensures !op.OpReset? ==> Operand(Sent(op), 1) == Some(op.addr)
    ensures op.OpWrite? ==> Operand(Sent(op), 2) == Some(op.value)
  {
    Powers();
    if !op.OpReset? {
      PrintThenParse(op.addr, 4);
    }
    if op.OpWrite? {
      PrintThenParse(op.value, 2);
    }
  }

  lemma Arrives(words: seq<string>)
    requires words != [] && AllWords(words)
    ensures Words(Spaced(words)) == words && Trim(Spaced(words) + "\n") == Spaced(words)
  {
    SpacedWords(words);
    SpacedIsTight(words);
    TrimLine(Spaced(words));
  }

  lemma ValueArrives(value: u8)
    ensures Trim("V " + Print(value, 2) + "\n") == "V " + Print(value, 2)
    ensures ReadReply("V " + Print(value, 2)) == Ok(value)
  {
    Powers();
    PrintThenParse(value, 2);
    PrintedIsAWord(value, 2);
    var response := "V " + Print(value, 2);
    TrimLine(response);
    assert response == "V" + " " + Print(value, 2);
    PartsOfTwo("V", Print(value, 2));
  }

  lemma ErrorArrives()
    ensures Trim("ERR 1" + "\n") == "ERR 1" && Trim("OK" + "\n") == "OK"
    ensures ReadReply("ERR 1") == Err(Transport(Io)) && WriteReply("ERR 1") == Err(Transport(Io))
  {
    TrimLine("ERR 1");
    TrimLine("OK");
    assert "ERR 1" == "ERR" + " " + "1";
    PartsOfTwo("ERR", "1");
  }

  // What the simulator does with a request that arrived intact.
  lemma DispatchOfRequest(d: Device, op: Op)
    ensures Dispatch(d, Request(op)) ==
      match op
      case OpRead(addr) =>
        (d.Read(addr).0, match d.Read(addr).1 case Ok(value) => "V " + Print(value, 2) case Err(_) => "ERR 1")
      case OpWrite(addr, value) =>
        (d.Write(addr, value).0, if d.Write(addr, value).1.Ok? then "OK" else "ERR 1")
      case OpReset => (d.Reset(), "OK")
  {
    RequestArrives(op);
    OperandsArrive(op);
    var words := Words(Request(op));
    match op {
      case OpRead(_) => assert words[0] == "R";
      case OpWrite(_, _) => assert words[0] == "W" && words[0] != "R";
      case OpReset => assert words[0] == "RESET" && words[0] != "R" && words[0] != "W";
    }
  }

  /** One operation over the wire: the device moves as locally, and the outcome is the local one. */
  lemma RemoteRefinesLocal(d: Device, op: Op)
    ensures Remote(d, op) == (Local(d, op).0, AsSeen(Local(d, op).1))
  {
    RequestArrives(op);
    DispatchOfRequest(d, op);
    ErrorArrives();
    if op.OpRead? && d.Read(op.addr).1.Ok? {
      ValueArrives(d.Read(op.addr).1.value);
    }
  }

  // --- sequences of operations ---

  function RunLocal(d: Device, ops: seq<Op>): (Device, seq<Result<Reply>>)
    decreases |ops|
  {
    if ops == [] then (d, [])
    else
      var first := Local(d, ops[0]);
      var rest := RunLocal(first.0, ops[1..]);
      (rest.0, [AsSeen(first.1)] + rest.1)
  }

  function RunRemote(d: Device, ops: seq<Op>): (Device, seq<Result<Reply>>)
    decreases |ops|
  {
    if ops == [] then (d, [])
    else
      var first := Remote(d, ops[0]);
      var rest := RunRemote(first.0, ops[1..]);
      (rest.0, [first.1] + rest.1)
  }

  /** Any session over the wire: the same answers, and the same device afterwards. */
  lemma {:induction false} AnySessionRefines(d: Device, ops: seq<Op>)
    ensures RunRemote(d, ops) == RunLocal(d, ops)
    decreases |ops|
  {
    if ops != [] {
      RemoteRefinesLocal(d, ops[0]);
      AnySessionRefines(Local(d, ops[0]).0, ops[1..]);
    }
  }

  /** Requests the simulator cannot read leave the device alone, and these are exactly such requests. */
  lemma MalformedExactly(d: Device, request: string)
    ensures var words, (after, response) := Words(request), Dispatch(d, request);
      var known := words != [] && words[0] in {"R", "W", "RESET"};
      && (response == "ERR 3" <==> !known)
      && (response == "ERR 2" <==>
          known && ((words[0] != "RESET" && Operand(words, 1) == None) || (words[0] == "W" && Operand(words, 2) == None)))
      && (response == "ERR 2" || response == "ERR 3" ==> after == d)
  {
    var response := Dispatch(d, request).1;
    assert response[0] == 'V' || response == "OK" || response in {"ERR 1", "ERR 2", "ERR 3"};
    assert "ERR 1"[4] == '1' && "ERR 2"[4] == '2' && "ERR 3"[4] == '3';
  }

  // --- both sides at work ---

  method DispatchTo(device: ScriptedMock, request: string) returns (response: string)
    requires device.Valid()
    modifies device, device.regs, device.writeLog, device.faults
    ensures device.Valid() && (device.Model(), response) == Dispatch(old(device.Model()), request)
  {
    var words := Words(request);
    if words != [] && words[0] == "R" {
      var addr := Operand(words, 1);
      if addr == None {
        return "ERR 2";
      }
      var got := device.Read(addr.value);
      return if got.Ok? then "V " + Print(got.value, 2) else "ERR 1";
    }
    if words != [] && words[0] == "W" {
      var addr, value := Operand(words, 1), Operand(words, 2);
      if addr == None || value == None {
        return "ERR 2";
      }
      if value.value > 0xFF {
        return "ERR 1";
      }
      var done := device.Write(addr.value, value.value);
      return if done.Ok? then "OK" else "ERR 1";
    }
    if words != [] && words[0] == "RESET" {
      var _ := device.Reset();
      return "OK";
    }
    return "ERR 3";
  }

  // The client, with its reused line buffer, and the device at the far end of the link.
  class TcpTransport {
    const far: ScriptedMock
    var command: string

    constructor (far: ScriptedMock)
      ensures this.far == far
    {
      this.far := far;
      command := "";
    }

    method Transact(request: string) returns (response: string)
      requires far.Valid()
      modifies this, far, far.regs, far.writeLog, far.faults
      ensures far.Valid()
      ensures var served := Serve(old(far.Model()), request + "\n");
        far.Model() == served.0 && response == Trim(served.1)
    {
      var answer := DispatchTo(far, Trim(request + "\n"));
      command := answer + "\n";
      return Trim(command);
    }

    /** A remote read is a local read, with failures seen as input/output errors. */
    method Read(addr: u16) returns (r: Result<u8>)
      requires far.Valid()
      modifies this, far, far.regs, far.writeLog, far.faults
      ensures far.Valid() && far.Model() == old(far.Model()).Read(addr).0
      ensures r == match old(far.Model()).Read(addr).1
                   case Ok(value) => Ok(value)
                   case Err(_) => Err(Transport(Io))
    {
      RemoteRefinesLocal(far.Model(), OpRead(addr));
      var response := Transact(Request(OpRead(addr)));
      return ReadReply(response);
    }

    method Write(addr: u16, value: u8) returns (r: Result<()>)
      requires far.Valid()
      modifies this, far, far.regs, far.writeLog, far.faults
      ensures far.Valid() && far.Model() == old(far.Model()).Write(addr, value).0
      ensures r == if old(far.Model()).Write(addr, value).1.Ok? then Ok(()) else Err(Transport(Io))
    {
      RemoteRefinesLocal(far.Model(), OpWrite(addr, value));
      var response := Transact(Request(OpWrite(addr, value)));
      return WriteReply(response);
    }

    method Reset() returns (r: Result<()>)
      requires far.Valid()
      modifies this, far, far.regs, far.writeLog, far.faults
      ensures far.Valid() && far.Model() == old(far.Model()).Reset() && r == Ok(())
    {
      RemoteRefinesLocal(far.Model(), OpReset);
      var response := Transact(Request(OpReset));
      return ResetReply(response);
    }
  }
}
