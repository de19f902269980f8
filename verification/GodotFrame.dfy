/** The second implementation of the stream decoder, in GDScript, and its exact
    relation to the first: the same frames from the same stream. */
module GodotFrame {
  import opened Bytes
  import opened Frame
  import C = StreamDecoder

  /** `decode(bytes, offset)`: the marker is looked at once the header is complete. */
  function DecodeAt(bytes: seq<byte>, offset: nat): Decoding
    requires offset <= |bytes|
  {
    var available := |bytes| - offset;
    if available < 1 then Incomplete
    else if bytes[offset] == 1 then Decoded(Probe, 1)
    else if bytes[offset] == 2 then Decoded(Ack, 1)
    else if bytes[offset] == 0 then
      if available < DATA_HEADER_LEN then Incomplete
      else if bytes[offset + 1] != MAGIC_C || bytes[offset + 2] != MAGIC_Y then Bad(BadMagic)
      else
        var length := ReadU32(bytes[offset + 7..offset + 11]);
        if length > MAX_MESSAGE_PAYLOAD then Bad(MessageTooLarge)
        else if available < DATA_HEADER_LEN + length then Incomplete
        else Decoded(Data(ReadU32(bytes[offset + 3..offset + 7]),
                          bytes[offset + DATA_HEADER_LEN..offset + DATA_HEADER_LEN + length]),
                     DATA_HEADER_LEN + length)
    else if bytes[offset] == 3 then
      if available < HANDSHAKE_HEADER_LEN then Incomplete
      else
        var length := ReadU32(bytes[offset + 1..offset + 5]);
        if length > MAX_HANDSHAKE_PAYLOAD then Bad(HandshakeTooLarge)
        else if available < HANDSHAKE_HEADER_LEN + length then Incomplete
        else Decoded(Handshake(bytes[offset + HANDSHAKE_HEADER_LEN..offset + HANDSHAKE_HEADER_LEN + length]),
                     HANDSHAKE_HEADER_LEN + length)
    else Bad(UnknownType)
  }

  /** A data frame whose marker is already wrong. */
  predicate WrongMarker(bytes: seq<byte>) {
    |bytes| >= 3 && bytes[0] == 0 && (bytes[1] != MAGIC_C || bytes[2] != MAGIC_Y)
  }

  lemma OffsetIsSuffix(bytes: seq<byte>, offset: nat)
    requires offset <= |bytes|
    ensures DecodeAt(bytes, offset) == DecodeAt(bytes[offset..], 0)
  {
    var tail := bytes[offset..];
    if |tail| >= 11 && tail[0] == 0 {
      assert tail[3..7] == bytes[offset + 3..offset + 7];
      assert tail[7..11] == bytes[offset + 7..offset + 11];
      var length := ReadU32(tail[7..11]);
      if 11 + length <= |tail| {
        assert tail[11..11 + length] == bytes[offset + 11..offset + 11 + length];
      }
    } else if |tail| >= 5 && tail[0] == 3 {
      assert tail[1..5] == bytes[offset + 1..offset + 5];
      var length := ReadU32(tail[1..5]);
      if 5 + length <= |tail| {
        assert tail[5..5 + length] == bytes[offset + 5..offset + 5 + length];
      }
    }
  }

  /** The two decoders differ exactly on an unfinished header with a wrong marker,
      which the C decoder already refuses and this one still waits on. */
  lemma DecodersDifferOnlyOnEarlyMarker(bytes: seq<byte>)
    ensures DecodeAt(bytes, 0) != DecodeFrame(bytes, 0) <==> WrongMarker(bytes) && |bytes| < DATA_HEADER_LEN
    ensures WrongMarker(bytes) ==> DecodeFrame(bytes, 0) == Bad(BadMagic)
    ensures WrongMarker(bytes) ==>
      DecodeAt(bytes, 0) == if |bytes| < DATA_HEADER_LEN then Incomplete else Bad(BadMagic)
  {
  }

  /** `_buffer`, `_offset` and `_poison`, the first two seen as the pending bytes. */
  datatype State = State(pending: seq<byte>, poison: Option<FrameError>)

  datatype Run = Run(decoder: State, taken: seq<Frame>)

  function Step(r: Run, op: C.Op): Run {
    match op
    case FeedBytes(bytes) => r.(decoder := r.decoder.(pending := r.decoder.pending + bytes))
    case Take =>
      if r.decoder.poison.Some? then r
      else
        match DecodeAt(r.decoder.pending, 0)
        case Incomplete => r
        case Bad(error) => r.(decoder := r.decoder.(poison := Some(error)))
        case Decoded(frame, used) =>
          Run(r.decoder.(pending := if used <= |r.decoder.pending| then r.decoder.pending[used..] else []),
              r.taken + [frame])
  }

  function Steps(ops: seq<C.Op>): Run {
    if ops == [] then Run(State([], None), [])
    else Step(Steps(ops[..|ops| - 1]), ops[|ops| - 1])
  }

  /** Both have taken the same frames and hold the same bytes; an error is the same
      one, or the C decoder alone has already seen a wrong marker. */
  predicate Simulates(g: Run, c: C.Run) {
    && g.taken == c.taken
    && g.decoder.pending == c.decoder.buffer
    && c.decoder.limit == MAX_MESSAGE_PAYLOAD
    && C.PoisonIsReal(c.decoder)
    && (g.decoder.poison != c.decoder.poison ==>
          g.decoder.poison == None && WrongMarker(c.decoder.buffer))
  }

  lemma LimitZeroMeansCeiling(bytes: seq<byte>)
    ensures DecodeFrame(bytes, MAX_MESSAGE_PAYLOAD) == DecodeFrame(bytes, 0)
  {
  }

  lemma StepSimulates(g: Run, c: C.Run, op: C.Op)
    requires Simulates(g, c)
    ensures Simulates(Step(g, op), C.Step(c, op))
  {
    var buffer := c.decoder.buffer;
    match op
    case FeedBytes(bytes) =>
      if c.decoder.poison.Some? { DecodeIsStable(buffer, bytes, c.decoder.limit); }
      hide DecodeFrame; hide DecodeAt;
    case Take =>
      LimitZeroMeansCeiling(buffer);
      DecodersDifferOnlyOnEarlyMarker(buffer);
      if DecodeFrame(buffer, 0).Decoded? { EncodeOfDecode(buffer, 0); }
      hide DecodeFrame; hide DecodeAt; hide EncodeFrame;
  }

  /** Same frames as the C decoder on every run, with the 16 MiB limit; and if the
      two disagree on the error, the C decoder has met a wrong marker that this one
      reports as soon as eleven bytes are there and `next` is called. */
  lemma {:induction false} SameFramesAsC(ops: seq<C.Op>)
    ensures Simulates(Steps(ops), C.Steps(0, ops))
    ensures var g, c := Steps(ops).decoder, C.Steps(0, ops).decoder;
      g.poison != c.poison && |c.buffer| >= DATA_HEADER_LEN ==>
        c.poison == Some(BadMagic) && Step(Steps(ops), C.Take).decoder.poison == c.poison
  {
    if ops != [] {
      var before := ops[..|ops| - 1];
      SameFramesAsC(before);
      StepSimulates(Steps(before), C.Steps(0, before), ops[|ops| - 1]);
    }
    var c := C.Steps(0, ops).decoder;
    LimitZeroMeansCeiling(c.buffer);
    DecodersDifferOnlyOnEarlyMarker(c.buffer);
    hide DecodeFrame; hide DecodeAt;
  }

  /** The class itself: `feed` restarts the buffer when all of it has been taken. */
  class Decoder {
    var buffer: seq<byte>
    var offset: nat
    var poison: Option<FrameError>

    ghost predicate Valid()
      reads this
    {
      offset <= |buffer|
    }

    ghost function View(): State
      requires Valid()
      reads this
    {
      State(buffer[offset..], poison)
    }

    constructor ()
      ensures Valid() && View() == State([], None)
    {
      buffer, offset, poison := [], 0, None;
    }

    method FeedBytes(bytes: seq<byte>)
      requires Valid()
      modifies this
      ensures Valid() && View() == Step(Run(old(View()), []), C.FeedBytes(bytes)).decoder
    {
      if offset > 0 && offset == |buffer| {
        buffer := bytes;
        offset := 0;
        return;
      }
      if offset > 0 {
        buffer := buffer[offset..];
        offset := 0;
      }
      buffer := buffer + bytes;
    }

    /** A frame, or the error, or neither when more bytes are needed. */
    method Next() returns (frame: Option<Frame>, error: Option<FrameError>)
      requires Valid()
      modifies this
      ensures Valid()
      ensures var r := Step(Run(old(View()), []), C.Take);
        && View() == r.decoder && error == r.decoder.poison
        && r.taken == if frame.Some? then [frame.value] else []
    {
      if poison.Some? {
        return None, poison;
      }
      OffsetIsSuffix(buffer, offset);
      var result := DecodeAt(buffer, offset);
      match result
      case Incomplete => return None, None;
      case Bad(e) =>
        poison := Some(e);
        return None, poison;
      case Decoded(f, used) =>
        var tail := buffer[offset..];
        DecodersDifferOnlyOnEarlyMarker(tail);
        EncodeOfDecode(tail, 0);
        offset := offset + used;
        return Some(f), None;
    }
  }
}
