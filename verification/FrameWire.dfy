/** Frames as bytes: where each number stands, which bytes are which error, and how frames
    of messages, heartbeats and handshakes are told apart. */
module FrameWire {
  import opened Bytes
  import opened Frame
  import opened HandshakeWire

  /** Heartbeats are one byte; a data frame is a marker, an id, a length and the payload;
      a handshake frame a marker, a length and the payload. */
  lemma FrameLayout(frame: Frame)
    ensures var bytes := EncodeFrame(frame);
      match frame
      case Probe => bytes == [1]
      case Ack => bytes == [2]
      case Data(id, payload) =>
        && |bytes| == 11 + |payload| && bytes[..3] == [0, 0x43, 0x59] && Stands(bytes, 3, 4, id)
        && Stands(bytes, 7, 4, |payload|) && bytes[11..] == payload
      case Handshake(payload) =>
        |bytes| == 5 + |payload| && bytes[0] == 3 && Stands(bytes, 1, 4, |payload|) && bytes[5..] == payload
  {
  }

  /** The limit on messages: the one configured, unless that is zero or above 16 MiB. */
  lemma LimitOfMessages(configured: nat)
    ensures MessageLimit(configured) == if 0 < configured <= 16_777_216 then configured else 16_777_216
  {
  }

  /** The number that four bytes hold. */
  function Number(bytes: seq<byte>, at: nat): nat
    requires at + 4 <= |bytes|
  {
    var a: nat, b: nat, c: nat, d: nat := bytes[at], bytes[at + 1], bytes[at + 2], bytes[at + 3];
    a + 0x100 * b + 0x1_0000 * c + 0x100_0000 * d
  }

  lemma NumberIsRead(bytes: seq<byte>, at: nat)
    requires at + 4 <= |bytes|
    ensures ReadU32(bytes[at..at + 4]) == Number(bytes, at)
  {
    var four := bytes[at..at + 4];
    assert LeValue(four[1..]) == four[1] + 0x100 * LeValue(four[2..]) by { assert four[1..][1..] == four[2..]; }
    assert LeValue(four[2..]) == four[2] + 0x100 * LeValue(four[3..]) by { assert four[2..][1..] == four[3..]; }
    assert LeValue(four[3..]) == four[3] + 0x100 * LeValue(four[4..]) by { assert four[3..][1..] == four[4..]; }
  }

  /** Each error of a stream, by the bytes that give it, and there are no others: an unknown
      first byte, a wrong marker, and a length beyond the limit, of messages as configured
      and of handshakes 1 MiB. */
  lemma ErrorsAreExact(bytes: seq<byte>, configured: nat)
    ensures var d := DecodeFrame(bytes, configured);
      && (d == Bad(UnknownType) <==> |bytes| > 0 && bytes[0] > 3)
      && (d == Bad(BadMagic) <==> |bytes| >= 3 && bytes[0] == 0 && !(bytes[1] == 0x43 && bytes[2] == 0x59))
      && (d == Bad(MessageTooLarge) <==>
            |bytes| >= 11 && bytes[..3] == [0, 0x43, 0x59] && Number(bytes, 7) > MessageLimit(configured))
      && (d == Bad(HandshakeTooLarge) <==> |bytes| >= 5 && bytes[0] == 3 && Number(bytes, 1) > 1_048_576)
      && d != Bad(Truncated) && d != Bad(Trailing)
  {
    if |bytes| >= 11 { NumberIsRead(bytes, 7); }
    if |bytes| >= 5 { NumberIsRead(bytes, 1); }
    hide ReadU32; hide Number; hide MessageLimit;
    if |bytes| >= 3 { assert bytes[..3] == [bytes[0], bytes[1], bytes[2]]; }
  }

  /** A packet adds two: one that ends inside its frame, and one that goes on after it. */
  lemma PacketErrorsAreExact(bytes: seq<byte>, configured: nat)
    ensures var p, d := DecodePacket(bytes, configured), DecodeFrame(bytes, configured);
      && (p == BadPacket(Truncated) <==> d.Incomplete?)
      && (p == BadPacket(Trailing) <==> d.Decoded? && d.used < |bytes|)
      && (forall e | e != Truncated && e != Trailing :: p == BadPacket(e) <==> d == Bad(e))
  {
    ErrorsAreExact(bytes, configured);
    if DecodeFrame(bytes, configured).Decoded? { EncodeOfDecode(bytes, configured); }
    hide DecodeFrame;
  }
}
