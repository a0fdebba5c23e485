/** Error and result types shared by the SMB session (crates/core/src/error.rs). */
module Outcomes {
  import opened Widths

  datatype TransportErrorKind = Io | Timeout | Disconnected | Protocol | Unsupported

  datatype ChargerError =
    | Transport(kind: TransportErrorKind)
    | NotOpen
    | DetectionNotComplete
    | DetectionTimeout(waitedMs: nat)
    | UnknownAdapterPattern(raw: bv8)
    | AdapterCheckTimeout(rawStatus: bv8)
    | CurrentOutOfRange(requestedUa: u32, maxUa: u32)
    | VerifyFailed(addr: u16, wrote: bv8, read: bv8)
    | DeviceFault(status: bv8)

  datatype Result<+T> = Ok(value: T) | Err(error: ChargerError)

  datatype Option<+T> = None | Some(value: T)

  // The failures the session retries after resetting the link.
  predicate Recoverable(e: ChargerError) {
    e == Transport(Timeout) || e == Transport(Disconnected) || e == Transport(Io)
  }
}
