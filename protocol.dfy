/**
 * The messages exchanged over the connection, as the dispatch code sees them
 * once the serialisation library has verified and decoded them. A decoded
 * inbound message is a datatype; a binary frame that fails verification
 * against a root type is `None` for that root type.
 */
module Protocol {
  import opened Wrappers
  import opened Buffers

  /** The magic of the outbound handshake. */
  const HandshakeMagic: CppString := "WS-GATEWAY"

  /** The magic the peer's handshake reply must carry. */
  const AcceptedMagic: CppString := "WS-GATEWAY OK"

  /** `HandshakeResponse`, the peer's reply to the handshake. */
  datatype HandshakeResponse = HandshakeResponse(magic: CppString)

  /** The union inside a `ReceivePacket`: a `Request`, or a variant the client does not act on. */
  datatype ReceivePacket =
    | Request(id: int, key: CppString, payload: seq<uint8>)
    | NotRequest

  /**
   * An inbound frame. A text frame carries text; a binary frame carries
   * bytes that the client reads as a `HandshakeResponse` before the
   * handshake completes and as a `ReceivePacket` after, so a binary frame is
   * given by what each verification yields.
   */
  datatype Frame =
    | Text(payload: CppString)
    | Binary(asHandshakeResponse: Option<HandshakeResponse>, asReceivePacket: Option<ReceivePacket>)

  /** The union inside an outbound `SendPacket`. */
  datatype Send =
    | Response(id: int, payload: seq<uint8>)
    | Exception(id: int, message: CppString)

  /** An outbound binary frame, by the root table it was finished with. */
  datatype Outbound =
    | Handshake(magic: CppString, protocolVersion: int, name: CppString, identifier: CppString, version: CppString)
    | SendPacket(packet: Send)
    | Broadcast(key: CppString, payload: seq<uint8>)

  /** The handshake the open handler sends: the descriptor is fixed in the client. */
  const ClientHandshake: Outbound := Handshake(HandshakeMagic, 0, "test", "test", "0.0.0")
}
