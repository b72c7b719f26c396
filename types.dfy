/** Identifiers shared by the relay core: fingerprints, client ids, docks and
    socket endpoints. */
module Types {

  /** A relay or anonymous-identity fingerprint. The source compares
      fingerprints with the derived order on their fixed-width hash bytes; the
      model uses the order of the natural number those bytes spell. */
  type Fingerprint = nat

  /** A client id (a u64 in the source). */
  type ClientId = x: nat | x < 0x1_0000_0000_0000_0000

  /** A dock, the port number of an N2R socket (a u32 in the source). */
  const DOCK_COUNT: nat := 0x1_0000_0000
  type Dock = x: nat | x < DOCK_COUNT

  /** A byte string (`bytes::Bytes`, raw bodies and signatures). */
  type Bytes = seq<bv8>

  /** An N2R socket address: a fingerprint and a dock on it. */
  datatype Endpoint = Endpoint(fingerprint: Fingerprint, dock: Dock)

  /** The message carried inside an onion packet to an N2R socket. */
  datatype Message = Message(sourceDock: Dock, destDock: Dock, body: seq<Bytes>)
}
