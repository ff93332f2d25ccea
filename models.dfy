/** The per-connection state record of src/models/connection.rs. */
module Models {
  import opened Wrappers

  /** `imei` is the authenticated device identifier; `partialAck` holds the first byte of an
      acknowledgment-count message that arrived alone in one read. */
  datatype ConnectionState = ConnectionState(imei: Option<string>, partialAck: Option<byte>)
  {
    predicate Authenticated() {
      imei.Some?
    }
  }

  /** `ConnectionState::new()`: a fresh session is unauthenticated and has no pending marker. */
  function New(): (s: ConnectionState)
    ensures !s.Authenticated() && s.imei == None
    ensures s.partialAck == None
  {
    ConnectionState(None, None)
  }
}
