/**
 The register file behind the ChargerTransport trait, seen through a link that may fail at
 any access. Control registers hold what is written to them; status registers are volatile.
 */
module SmbBus {
  import opened Widths
  import opened Outcomes
  import opened SmbPolicy

  datatype Command = Command(addr: u16, value: bv8)

  const CONTROL_REGS: set<u16> :=
    {CMD_APSD, CMD_ICL_OVERRIDE, HVDCP_PULSE_COUNT_MAX, USBIN_CURRENT_LIMIT_CFG}

  class Bus {
    // What the non-volatile registers held at the beginning; any other address is volatile.
    const initial: map<u16, bv8>
    // A write that reports success has taken effect.
    const honest: bool
    // Moreover, a write that reports failure has had none.
    const exact: bool
    // At most this many accesses in a row fail, if that is known.
    const patience: Option<nat>
    // Every failure is one the session retries, and every reset succeeds.
    const gentle: bool
    // The accesses that have failed in a row.
    var streak: nat
    var regs: map<u16, bv8>
    ghost var accesses: nat
    ghost var resets: nat
    ghost var sent: seq<Command>

    ghost predicate Valid()
      reads this
    {
      && CONTROL_REGS <= initial.Keys
      && regs.Keys == initial.Keys
      && (exact ==> honest)
      && (patience.Some? ==> streak <= patience.value)
    }

    ghost predicate Untouched()
      reads this
    {
      Valid() && regs == initial && accesses == 0 && resets == 0 && sent == []
    }

    constructor (initial: map<u16, bv8>, honest: bool, exact: bool, patience: Option<nat>, gentle: bool)
      requires CONTROL_REGS <= initial.Keys && (exact ==> honest)
      ensures Untouched()
      ensures this.initial == initial && this.honest == honest && this.exact == exact
      ensures this.patience == patience && this.gentle == gentle
    {
      this.initial, this.honest, this.exact, regs := initial, honest, exact, initial;
      this.patience, this.gentle, streak := patience, gentle, 0;
      accesses, resets, sent := 0, 0, [];
    }

    // Whether the next access fails, and how.
    method Disturb() returns (failure: Option<ChargerError>)
      requires Valid()
      modifies this`streak
      ensures Valid()
      ensures streak == if failure.Some? then old(streak) + 1 else 0
      ensures failure.Some? ==> failure.value.Transport? && (gentle ==> Recoverable(failure.value))
    {
      var fails: bool := *;
      var kind: TransportErrorKind := *;
      if !fails || patience == Some(streak) {
        streak := 0;
        return None;
      }
      streak := streak + 1;
      return Some(Transport(if gentle && !Recoverable(Transport(kind)) then Io else kind));
    }

    method Read(addr: u16) returns (r: Result<bv8>)
      requires Valid()
      modifies this`accesses, this`streak
      ensures Valid() && accesses == old(accesses) + 1
      ensures r.Ok? && addr in regs ==> r.value == regs[addr]
      ensures streak == if r.Err? then old(streak) + 1 else 0
      ensures r.Err? ==> r.error.Transport? && (gentle ==> Recoverable(r.error))
    {
      accesses := accesses + 1;
      var failure := Disturb();
      if failure.Some? {
        return Err(failure.value);
      }
      if addr in regs {
        return Ok(regs[addr]);
      }
      var volatile: bv8 := *;
      return Ok(volatile);
    }

    // Whatever is reported, the addressed register may end up with any value.
    method Write(addr: u16, value: bv8) returns (r: Result<()>)
      requires Valid() && addr in regs
      modifies this`accesses, this`streak, this`sent, this`regs
      ensures Valid()
      ensures accesses == old(accesses) + 1
      ensures sent == old(sent) + [Command(addr, value)]
      ensures regs - {addr} == old(regs) - {addr}
      ensures r.Ok? && honest ==> regs == old(regs)[addr := value]
      ensures r.Err? && exact ==> regs == old(regs)
      ensures streak == if r.Err? then old(streak) + 1 else 0
      ensures r.Err? ==> r.error.Transport? && (gentle ==> Recoverable(r.error))
    {
      accesses := accesses + 1;
      sent := sent + [Command(addr, value)];
      var failure := Disturb();
      var stored: bv8 := *;
      if failure == None && honest {
        stored := value;
      } else if failure.Some? && exact {
        stored := regs[addr];
      }
      regs := regs[addr := stored];
      return if failure.Some? then Err(failure.value) else Ok(());
    }

    method Reset() returns (ok: bool)
      modifies this`resets
      ensures resets == old(resets) + 1
      ensures gentle ==> ok
    {
      resets := resets + 1;
      ok := *;
      ok := ok || gentle;
    }
  }
}
