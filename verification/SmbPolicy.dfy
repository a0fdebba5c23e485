/**
 Registers of the USBIN peripheral, adapter decoding and the input-current policy
 (crates/core/src/regs.rs, apsd.rs, policy.rs): definitions the session is built from.
 */
module SmbPolicy {
  import opened Widths
  import opened Outcomes

  const APSD_STATUS: u16 := 0x1307
  const APSD_RESULT_STATUS: u16 := 0x1308
  const CMD_APSD: u16 := 0x1341
  const CMD_ICL_OVERRIDE: u16 := 0x1342
  const HVDCP_PULSE_COUNT_MAX: u16 := 0x135B
  const USBIN_CURRENT_LIMIT_CFG: u16 := 0x1370

  const APSD_DTC_STATUS_DONE: bv8 := 0x01
  const QC_CHARGER: bv8 := 0x02
  const HVDCP_CHECK_TIMEOUT: bv8 := 0x40
  const APSD_RESULT_STATUS_MASK: bv8 := 0x7F
  const APSD_RERUN: bv8 := 0x01
  const OVERRIDE_BITS: bv8 := 0x11
  const QC2_VOLTAGE_MASK: bv8 := 0xC0

  datatype AdapterType = Unknown | Sdp | Ocp | Cdp | Dcp | Float | Hvdcp2 | Hvdcp3 | Hvdcp3P5

  datatype Qc35Support = NoQc35 | Qc35(authenticated: bool)

  datatype Qc2Voltage = V5 | V9 | V12 {
    function Raw(): bv8 {
      match this
      case V5 => 0x00
      case V9 => 0x40
      case V12 => 0x80
    }
  }

  datatype ChargePolicy = ChargePolicy(iclUa: u32, qc2: Option<Qc2Voltage>, pumpEligible: bool)

  function FromPattern(raw: bv8): Result<AdapterType> {
    match raw
    case 0x00 => Ok(Unknown)
    case 0x01 => Ok(Sdp)
    case 0x02 => Ok(Ocp)
    case 0x04 => Ok(Cdp)
    case 0x08 => Ok(Dcp)
    case 0x10 => Ok(Float)
    case 0x28 => Ok(Hvdcp2)
    case 0x48 => Ok(Hvdcp3)
    case _ => Err(UnknownAdapterPattern(raw))
  }

  function DecodeAdapter(status: bv8, result: bv8, qc35: Qc35Support): Result<AdapterType> {
    if status & APSD_DTC_STATUS_DONE == 0 then Err(DetectionNotComplete)
    else if status & HVDCP_CHECK_TIMEOUT != 0 then Err(AdapterCheckTimeout(status))
    else
      match FromPattern(result & APSD_RESULT_STATUS_MASK)
      case Err(e) => Err(e)
      case Ok(base) =>
        if status & QC_CHARGER == 0 then Ok(base)
        else if base == Hvdcp3P5 then Ok(Hvdcp3P5)
        else if base == Hvdcp3 then Ok(if qc35 == Qc35(true) then Hvdcp3P5 else Hvdcp3)
        else Ok(Hvdcp2)
  }

  function PolicyFor(adapter: AdapterType, qc35: Qc35Support): ChargePolicy {
    match adapter
    case Sdp => ChargePolicy(500_000, None, false)
    case Cdp | Dcp => ChargePolicy(1_500_000, None, false)
    case Ocp | Float | Unknown => ChargePolicy(100_000, None, false)
    case Hvdcp2 => ChargePolicy(1_500_000, Some(V9), false)
    case Hvdcp3 => ChargePolicy(3_000_000, Some(V9), true)
    case Hvdcp3P5 => ChargePolicy(3_000_000, Some(V9), qc35 == Qc35(true))
  }

  /**
   What detection recognizes, by the bits: nothing before it is done or after its check timed
   out; without the Quick Charge bit the bare pattern; with it HVDCP3 for the pattern 0x48,
   refined to 3.5 by authentication alone, and HVDCP2 for every other known pattern.
   */
  lemma RecognizedExactly(status: bv8, result: bv8, qc35: Qc35Support)
    ensures var r, pattern := DecodeAdapter(status, result, qc35), result & 0x7F;
      var known := pattern == 0x00 || pattern == 0x01 || pattern == 0x02 || pattern == 0x04
                   || pattern == 0x08 || pattern == 0x10 || pattern == 0x28 || pattern == 0x48;
      && (r == Err(DetectionNotComplete) <==> status & 0x01 == 0)
      && (r == Err(AdapterCheckTimeout(status)) <==> status & 0x01 != 0 && status & 0x40 != 0)
      && (r == Err(UnknownAdapterPattern(pattern)) <==> status & 0x41 == 0x01 && !known)
      && (r.Ok? <==> status & 0x41 == 0x01 && known)
      && (status & 0x43 == 0x01 ==>
           && (r == Ok(Unknown) <==> pattern == 0x00) && (r == Ok(Sdp) <==> pattern == 0x01)
           && (r == Ok(Ocp) <==> pattern == 0x02) && (r == Ok(Cdp) <==> pattern == 0x04)
           && (r == Ok(Dcp) <==> pattern == 0x08) && (r == Ok(Float) <==> pattern == 0x10))
      && (r == Ok(Hvdcp3) ==> pattern == 0x48)
      && (r == Ok(Hvdcp3P5) <==> status & 0x43 == 0x03 && pattern == 0x48 && qc35 == Qc35(true))
      && (r == Ok(Hvdcp2) <==> (status & 0x43 == 0x03 && known && pattern != 0x48) || (status & 0x43 == 0x01 && pattern == 0x28))
  {
  }

  /**
   What the policies keep: no more than 1.5 A without Quick Charge 3, 500 mA from a standard
   port and 100 mA from an unknown source; 9 V asked of Quick Charge adapters and no others;
   and the pump for Quick Charge 3 alone, 3.5 only once authenticated.
   */
  lemma PoliciesAreSafe(adapter: AdapterType, qc35: Qc35Support)
    ensures var p := PolicyFor(adapter, qc35);
      && (p.iclUa > 1_500_000 <==> adapter in {Hvdcp3, Hvdcp3P5}) && p.iclUa <= 3_000_000
      && (p.iclUa < 1_500_000 ==> p.iclUa == if adapter == Sdp then 500_000 else 100_000)
      && (p.iclUa == 1_500_000 <==> adapter in {Cdp, Dcp, Hvdcp2})
      && p.qc2 == (if adapter in {Hvdcp2, Hvdcp3, Hvdcp3P5} then Some(V9) else None)
      && (p.pumpEligible <==> adapter == Hvdcp3 || (adapter == Hvdcp3P5 && qc35 == Qc35(true)))
    ensures V9.Raw() == 0x40
  {
  }
}
