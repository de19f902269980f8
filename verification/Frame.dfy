/** Frames: the printer and the parser of the wire format, and the laws that
    make a byte stream factor into frames in exactly one way. */
module Frame {
  import opened Bytes

  const MAGIC_C: byte := 0x43
  const MAGIC_Y: byte := 0x59
  const DATA_HEADER_LEN := 11
  const HANDSHAKE_HEADER_LEN := 5
  const MAX_MESSAGE_PAYLOAD := 16 * 1024 * 1024
  const MAX_HANDSHAKE_PAYLOAD := 1024 * 1024

  datatype Frame =
    | Data(id: u32, payload: seq<byte>)
    | Probe
    | Ack
    | Handshake(payload: seq<byte>)

  datatype FrameError =
    | UnknownType | BadMagic | MessageTooLarge | HandshakeTooLarge | Truncated | Trailing

  datatype Decoding = Decoded(frame: Frame, used: nat) | Incomplete | Bad(error: FrameError)

  datatype PacketDecoding = Packet(frame: Frame) | BadPacket(error: FrameError)

  /** A configured limit of zero, or above the ceiling, means the ceiling. */
  function MessageLimit(configured: nat): nat {
    if configured == 0 || configured > MAX_MESSAGE_PAYLOAD then MAX_MESSAGE_PAYLOAD else configured
  }

  function DecodeFrame(bytes: seq<byte>, configured: nat): Decoding {
    if |bytes| == 0 then Incomplete
    else if bytes[0] == 1 then Decoded(Probe, 1)
    else if bytes[0] == 2 then Decoded(Ack, 1)
    else if bytes[0] == 0 then DecodeData(bytes, MessageLimit(configured))
    else if bytes[0] == 3 then DecodeHandshake(bytes)
    else Bad(UnknownType)
  }

  function DecodeData(bytes: seq<byte>, limit: nat): Decoding
    requires |bytes| > 0
  {
    if |bytes| >= 3 && (bytes[1] != MAGIC_C || bytes[2] != MAGIC_Y) then Bad(BadMagic)
    else if |bytes| < DATA_HEADER_LEN then Incomplete
    else
      var declared := ReadU32(bytes[7..11]);
      if declared > limit then Bad(MessageTooLarge)
      else if |bytes| < DATA_HEADER_LEN + declared then Incomplete
      else Decoded(Data(ReadU32(bytes[3..7]), bytes[DATA_HEADER_LEN..DATA_HEADER_LEN + declared]),
                   DATA_HEADER_LEN + declared)
  }

  function DecodeHandshake(bytes: seq<byte>): Decoding
    requires |bytes| > 0
  {
    if |bytes| < HANDSHAKE_HEADER_LEN then Incomplete
    else
      var declared := ReadU32(bytes[1..5]);
      if declared > MAX_HANDSHAKE_PAYLOAD then Bad(HandshakeTooLarge)
      else if |bytes| < HANDSHAKE_HEADER_LEN + declared then Incomplete
      else Decoded(Handshake(bytes[HANDSHAKE_HEADER_LEN..HANDSHAKE_HEADER_LEN + declared]),
                   HANDSHAKE_HEADER_LEN + declared)
  }

  /** A packet must hold one frame and nothing else. */
  function DecodePacket(bytes: seq<byte>, configured: nat): PacketDecoding {
    match DecodeFrame(bytes, configured)
    case Incomplete => BadPacket(Truncated)
    case Bad(error) => BadPacket(error)
    case Decoded(frame, used) => if used != |bytes| then BadPacket(Trailing) else Packet(frame)
  }

  /** The bytes of a frame, as the four encoders write them. */
  function EncodeFrame(frame: Frame): (r: seq<byte>)
    ensures |r| > 0
  {
    match frame
    case Data(id, payload) =>
      [0, MAGIC_C, MAGIC_Y] + LeBytes(id, 4) + LeBytes(|payload|, 4) + payload
    case Probe => [1]
    case Ack => [2]
    case Handshake(payload) => [3] + LeBytes(|payload|, 4) + payload
  }

  /** The frames the encoders agree to print. */
  predicate Encodable(frame: Frame) {
    match frame
    case Data(_, payload) => |payload| <= MAX_MESSAGE_PAYLOAD
    case Handshake(payload) => |payload| <= MAX_HANDSHAKE_PAYLOAD
    case _ => true
  }

  /** The encodable frames a decoder with this configured limit lets through. */
  predicate Fits(frame: Frame, configured: nat) {
    Encodable(frame) && (frame.Data? ==> |frame.payload| <= MessageLimit(configured))
  }

  function EncodeAll(frames: seq<Frame>): seq<byte> {
    if frames == [] then [] else EncodeFrame(frames[0]) + EncodeAll(frames[1..])
  }

  // ---- The parser undoes the printer ------------------------------------------

  /** A printed frame, whatever follows it, parses to itself and to its own length. */
  lemma DecodeOfEncode(frame: Frame, tail: seq<byte>, configured: nat)
    requires Fits(frame, configured)
    ensures DecodeFrame(EncodeFrame(frame) + tail, configured) == Decoded(frame, |EncodeFrame(frame)|)
  {
    var bytes := EncodeFrame(frame) + tail;
    match frame
    case Probe =>
    case Ack =>
    case Data(id, payload) =>
      U32RoundTrip(id); U32RoundTrip(|payload|);
      assert bytes[3..7] == LeBytes(id, 4);
      assert bytes[7..11] == LeBytes(|payload|, 4);
      assert bytes[11..11 + |payload|] == payload;
    case Handshake(payload) =>
      U32RoundTrip(|payload|);
      assert bytes[1..5] == LeBytes(|payload|, 4);
      assert bytes[5..5 + |payload|] == payload;
  }

  /** A frame too large for this decoder's limit is refused, not skipped. */
  lemma DecodeOfOversize(frame: Frame, tail: seq<byte>, configured: nat)
    requires Encodable(frame) && !Fits(frame, configured)
    ensures DecodeFrame(EncodeFrame(frame) + tail, configured) == Bad(MessageTooLarge)
  {
    var bytes := EncodeFrame(frame) + tail;
    U32RoundTrip(|frame.payload|);
    assert bytes[7..11] == LeBytes(|frame.payload|, 4);
  }

  /** The printer undoes the parser: what was consumed is the printed frame. */
  lemma EncodeOfDecode(bytes: seq<byte>, configured: nat)
    requires DecodeFrame(bytes, configured).Decoded?
    ensures var d := DecodeFrame(bytes, configured);
      0 < d.used <= |bytes| && EncodeFrame(d.frame) == bytes[..d.used] && Fits(d.frame, configured)
  {
    var d := DecodeFrame(bytes, configured);
    match d.frame
    case Probe =>
    case Ack =>
    case Data(id, payload) =>
      LeBytesOfValue(bytes[3..7]); LeBytesOfValue(bytes[7..11]);
      assert bytes[..d.used] == bytes[..3] + bytes[3..7] + bytes[7..11] + payload;
    case Handshake(payload) =>
      LeBytesOfValue(bytes[1..5]);
      assert bytes[..d.used] == bytes[..1] + bytes[1..5] + payload;
  }

  /** A verdict, once reached, is not changed by bytes that arrive later. */
  lemma DecodeIsStable(bytes: seq<byte>, more: seq<byte>, configured: nat)
    requires !DecodeFrame(bytes, configured).Incomplete?
    ensures DecodeFrame(bytes + more, configured) == DecodeFrame(bytes, configured)
  {
    var all := bytes + more;
    assert all[0] == bytes[0];
    if bytes[0] == 0 && |bytes| >= 11 {
      assert all[3..7] == bytes[3..7] && all[7..11] == bytes[7..11];
      var declared := ReadU32(bytes[7..11]);
      if 11 + declared <= |bytes| {
        assert all[11..11 + declared] == bytes[11..11 + declared];
      }
    } else if bytes[0] == 3 {
      assert all[1..5] == bytes[1..5];
      var declared := ReadU32(bytes[1..5]);
      if 5 + declared <= |bytes| {
        assert all[5..5 + declared] == bytes[5..5 + declared];
      }
    }
  }

  /** Waiting for more is the answer to every proper prefix of a printed frame. */
  lemma ProperPrefixIsIncomplete(frame: Frame, cut: nat, configured: nat)
    requires Fits(frame, configured) && cut < |EncodeFrame(frame)|
    ensures DecodeFrame(EncodeFrame(frame)[..cut], configured) == Incomplete
  {
    var whole := EncodeFrame(frame);
    var head := whole[..cut];
    if !DecodeFrame(head, configured).Incomplete? {
      DecodeIsStable(head, whole[cut..], configured);
      assert head + whole[cut..] == whole == whole + [];
      DecodeOfEncode(frame, [], configured);
      EncodeOfDecode(head, configured);
    }
  }

  // ---- Hence the printed frames form a prefix code ----------------------------

  /** Two streams that are equal begin with the same frame. */
  lemma FirstFrameIsUnique(f: Frame, x: seq<byte>, g: Frame, y: seq<byte>)
    requires Encodable(f) && Encodable(g)
    requires EncodeFrame(f) + x == EncodeFrame(g) + y
    ensures f == g && x == y
  {
    DecodeOfEncode(f, x, 0);
    DecodeOfEncode(g, y, 0);
    assert x == (EncodeFrame(f) + x)[|EncodeFrame(f)|..];
    assert y == (EncodeFrame(g) + y)[|EncodeFrame(g)|..];
  }

  /** No printed frame is a proper prefix of another. */
  lemma NoProperPrefix(f: Frame, g: Frame)
    requires Encodable(f) && Encodable(g) && EncodeFrame(f) <= EncodeFrame(g)
    ensures f == g
  {
    FirstFrameIsUnique(f, EncodeFrame(g)[|EncodeFrame(f)|..], g, []);
  }

  /** Frames that were parsed off a stream whose bytes are (a beginning of) some
      printed frames are the first of those frames. */
  lemma {:induction false} FactoringIsUnique(parsed: seq<Frame>, rest: seq<byte>, missing: seq<byte>,
                                             printed: seq<Frame>)
    requires forall f | f in parsed :: Encodable(f)
    requires forall f | f in printed :: Encodable(f)
    requires EncodeAll(parsed) + rest + missing == EncodeAll(printed)
    ensures parsed <= printed
  {
    hide EncodeFrame;
    if parsed != [] {
      var first, after := EncodeFrame(parsed[0]), EncodeAll(parsed[1..]) + rest + missing;
      assert EncodeAll(parsed) + rest + missing == first + after;
      assert printed != [];
      FirstFrameIsUnique(parsed[0], after, printed[0], EncodeAll(printed[1..]));
      FactoringIsUnique(parsed[1..], rest, missing, printed[1..]);
      assert parsed == [parsed[0]] + parsed[1..];
      assert printed == [printed[0]] + printed[1..];
    }
  }

  lemma {:induction false} EncodeAllAppend(a: seq<Frame>, b: seq<Frame>)
    ensures EncodeAll(a + b) == EncodeAll(a) + EncodeAll(b)
  {
    hide EncodeFrame;
    if a == [] {
      assert a + b == b;
    } else {
      EncodeAllAppend(a[1..], b);
      assert (a + b)[1..] == a[1..] + b;
    }
  }

  lemma EncodeAllPush(a: seq<Frame>, f: Frame)
    ensures EncodeAll(a + [f]) == EncodeAll(a) + EncodeFrame(f)
  {
    EncodeAllAppend(a, [f]);
    assert EncodeAll([f]) == EncodeFrame(f) + EncodeAll([]);
  }

  // ---- The encoders, writing through an output buffer -------------------------

  method EncodeDataInto(id: u32, payload: seq<byte>, out: array<byte>)
    returns (error: Option<FrameError>, written: nat)
    modifies out
    ensures error == if |payload| > MAX_MESSAGE_PAYLOAD then Some(MessageTooLarge)
                     else if out.Length < |EncodeFrame(Data(id, payload))| then Some(Truncated) else None
    ensures error.None? ==> written == |EncodeFrame(Data(id, payload))| <= out.Length
    ensures error.None? ==> out[..] == EncodeFrame(Data(id, payload)) + old(out[..])[written..]
    ensures error.Some? ==> out[..] == old(out[..]) && written == 0
  {
    var total := DATA_HEADER_LEN + |payload|;
    written := 0;
    if |payload| > MAX_MESSAGE_PAYLOAD { return Some(MessageTooLarge), 0; }
    if out.Length < total { return Some(Truncated), 0; }
    ghost var was := out[..];
    CopyInto(out, 0, [0, MAGIC_C, MAGIC_Y]);
    assert out[..] == [0, MAGIC_C, MAGIC_Y] + was[3..];
    WriteLe(out, 3, id, 4);
    assert out[..] == [0, MAGIC_C, MAGIC_Y] + LeBytes(id, 4) + was[7..];
    WriteLe(out, 7, |payload|, 4);
    assert out[..] == [0, MAGIC_C, MAGIC_Y] + LeBytes(id, 4) + LeBytes(|payload|, 4) + was[11..];
    CopyInto(out, DATA_HEADER_LEN, payload);
    return None, total;
  }

  method EncodeHandshakeInto(payload: seq<byte>, out: array<byte>)
    returns (error: Option<FrameError>, written: nat)
    modifies out
    ensures error == if |payload| > MAX_HANDSHAKE_PAYLOAD then Some(HandshakeTooLarge)
                     else if out.Length < |EncodeFrame(Handshake(payload))| then Some(Truncated) else None
    ensures error.None? ==> written == |EncodeFrame(Handshake(payload))| <= out.Length
    ensures error.None? ==> out[..] == EncodeFrame(Handshake(payload)) + old(out[..])[written..]
    ensures error.Some? ==> out[..] == old(out[..]) && written == 0
  {
    var total := HANDSHAKE_HEADER_LEN + |payload|;
    written := 0;
    if |payload| > MAX_HANDSHAKE_PAYLOAD { return Some(HandshakeTooLarge), 0; }
    if out.Length < total { return Some(Truncated), 0; }
    ghost var was := out[..];
    out[0] := 3;
    assert out[..] == [3] + was[1..];
    WriteLe(out, 1, |payload|, 4);
    assert out[..] == [3] + LeBytes(|payload|, 4) + was[5..];
    CopyInto(out, HANDSHAKE_HEADER_LEN, payload);
    return None, total;
  }

  /** The one-byte frames; a buffer with no room gets nothing. */
  method EncodeControlInto(frame: Frame, out: array<byte>) returns (written: nat)
    requires frame.Probe? || frame.Ack?
    modifies out
    ensures out.Length < 1 ==> written == 0
    ensures out.Length >= 1 ==> written == 1 && out[..] == EncodeFrame(frame) + old(out[1..])
  {
    if out.Length < 1 { return 0; }
    out[0] := if frame.Probe? then 1 else 2;
    return 1;
  }
}
