/** What every step of a connection over a stream transport keeps. */
module CoreLaws {
  import opened Bytes
  import opened Frame
  import opened Schema
  import opened Handshake
  import opened Session
  import opened Core
  import D = StreamDecoder
  import R = SessionRuns

  /** A stream transport takes any prefix of what it is given; it never calls a
      write too large. */
  predicate StreamLike(t: Transport) {
    t.stream && RefuseTooLarge !in t.sends
  }

  // ---- Outbox conservation -----------------------------------------------------

  /** Until the connection is shut down, what the transport took followed by what is
      waiting is the print of all committed frames; afterwards what it took is a
      beginning of that. What waits is bounded. */
  predicate Conserved(c: Core) {
    var printed := EncodeAll(c.history.committed);
    && (forall f | f in c.history.committed :: Encodable(f))
    && (!c.transport.shut ==> c.transport.accepted + c.outbox == printed)
    && (c.transport.shut ==> c.outbox == [] && c.dead.Some? && c.transport.accepted <= printed)
    && |c.outbox| <= Max(MAX_OUTBOX_BYTES, c.scratchCap)
  }

  /** Nothing but the outgoing side has moved, onward, and death is final. */
  predicate OnlySent(c: Core, c': Core) {
    && c' == c.(transport := c.transport.(sends := c'.transport.sends, accepted := c'.transport.accepted),
                outbox := c'.outbox, dead := c'.dead,
                history := c.history.(committed := c'.history.committed))
    && c.transport.accepted <= c'.transport.accepted
    && (c.dead.Some? ==> c'.dead == c.dead)
    && (StreamLike(c.transport) ==> StreamLike(c'.transport))
  }

  function Taken(result: SendResult, bytes: seq<byte>): nat {
    match result
    case Sent => |bytes|
    case Partial(n) => Min(n, |bytes|)
    case _ => 0
  }

  /** The transport takes a prefix, the one it reports. */
  lemma SendTakesPrefix(t: Transport, bytes: seq<byte>)
    ensures var (t', result) := TransportSend(t, bytes);
      && t' == t.(sends := t'.sends, accepted := t.accepted + bytes[..Taken(result, bytes)])
      && (result.Partial? ==> result.accepted <= |bytes|)
      && (StreamLike(t) ==> StreamLike(t') && !result.SendTooLarge?)
  {
    assert t.accepted + bytes[..0] == t.accepted;
    assert bytes[..|bytes|] == bytes;
  }

  predicate Sendable(c: Core, frame: Frame) {
    Encodable(frame) && |EncodeFrame(frame)| <= c.scratchCap
  }

  lemma WriteFrameConserves(c: Core, frame: Frame)
    requires StreamLike(c.transport) && Conserved(c) && c.outbox == [] && c.dead.None? && Sendable(c, frame)
    ensures var (c', result) := WriteFrame(c, frame);
      && OnlySent(c, c') && Conserved(c')
      && c'.history.committed == c.history.committed + (if result == Ok then [frame] else [])
      && (result == Ok <==> c'.dead.None?)
  {
    var bytes := EncodeFrame(frame);
    SendTakesPrefix(c.transport, bytes);
    EncodeAllPush(c.history.committed, frame);
    hide EncodeFrame; hide TransportSend; hide EncodeAll;
    var (t', result) := TransportSend(c.transport, bytes);
    var k := Taken(result, bytes);
    assert bytes[..k] + bytes[k..] == bytes;
    assert c.transport.accepted + (bytes[..k] + bytes[k..]) == (c.transport.accepted + bytes[..k]) + bytes[k..];
  }

  lemma SendControlConserves(c: Core, frame: Frame)
    requires StreamLike(c.transport) && Conserved(c) && Sendable(c, frame)
    ensures var c' := SendControl(c, frame);
      && OnlySent(c, c') && Conserved(c')
      && (c'.history.committed == c.history.committed || c'.history.committed == c.history.committed + [frame])
      && (c'.dead.None? ==> c'.history.committed == c.history.committed + [frame])
  {
    hide EncodeFrame; hide EncodeAll; hide WriteFrame;
    if c.dead.None? {
      if c.outbox == [] {
        WriteFrameConserves(c, frame);
      } else {
        EncodeAllPush(c.history.committed, frame);
        assert c.transport.accepted + (c.outbox + EncodeFrame(frame))
            == (c.transport.accepted + c.outbox) + EncodeFrame(frame);
      }
    }
  }

  /** What the transport takes moves from the outbox to what it has accepted. */
  lemma TakingConserves(c: Core, t': Transport, k: nat)
    requires Conserved(c) && !c.transport.shut && k <= |c.outbox|
    requires t' == c.transport.(sends := t'.sends, accepted := c.transport.accepted + c.outbox[..k])
    ensures Conserved(c.(transport := t', outbox := c.outbox[k..]))
  {
    hide EncodeAll; hide EncodeFrame; hide Encodable;
    assert c.outbox[..k] + c.outbox[k..] == c.outbox;
    assert c.transport.accepted + (c.outbox[..k] + c.outbox[k..])
        == (c.transport.accepted + c.outbox[..k]) + c.outbox[k..];
  }

  lemma {:induction false} FlushConserves(c: Core)
    requires StreamLike(c.transport) && Conserved(c) && c.dead.None?
    ensures OnlySent(c, Flush(c)) && Conserved(Flush(c)) && Flush(c).history == c.history
    decreases |c.outbox|
  {
    if c.outbox != [] {
      hide TransportSend;
      SendTakesPrefix(c.transport, c.outbox);
      var (t', result) := TransportSend(c.transport, c.outbox);
      var k := Taken(result, c.outbox);
      assert !c.transport.shut;
      TakingConserves(c, t', k);
      hide Conserved;
      assert c.outbox[0..] == c.outbox;
      assert c.outbox[|c.outbox|..] == [];
      if result.Partial? && result.accepted > 0 {
        FlushConserves(c.(transport := t', outbox := c.outbox[k..]));
      } else if result.SendIsClosed? || result.SendFails? {
        KillConserves(c.(transport := t'), if result.SendIsClosed? then PeerClosed else TransportError);
      }
    }
  }

  lemma KillConserves(c: Core, reason: Disconnect)
    requires Conserved(c)
    ensures Conserved(Kill(c, reason))
  {
  }

  lemma ShutdownConserves(c: Core)
    requires Conserved(c)
    ensures Conserved(Shutdown(c))
  {
    if !c.transport.shut {
      assert c.transport.accepted <= c.transport.accepted + c.outbox;
    }
  }

  // ---- Whatever the session says is sent ---------------------------------------

  /** The facts a connection starts with and never loses. */
  ghost predicate Sound(c: Core) {
    && R.Valid(c.session) && WellFormed(c.session.schema)
    && HelloLen(c.session.schema) <= MAX_HANDSHAKE_PAYLOAD
    && c.scratchCap == ScratchSize(c.session.schema, c.session.config)
    && c.decoder.limit == MessageLimit(c.session.config.maxMessageBytes)
    && (c.session.state == Handshaking ==> c.history.live == [] && c.history.late == [])
    && (c.session.state == Ready ==> c.history.late == [])
  }

  /** An output the scratch buffer has room for. */
  predicate Roomy(c: Core, out: Out) {
    out.OutHandshake? ==> 0 < |out.payload| <= HelloLen(c.session.schema)
  }

  /** `emit_out` never drops a reaction for lack of space. */
  lemma EmitOutNeverDrops(c: Core, out: Out)
    requires Sound(c) && Roomy(c, out) && out != NoOut
    ensures FrameOf(out, c.scratchCap).Some? && Sendable(c, FrameOf(out, c.scratchCap).value)
  {
  }

  /** What a reaction does to the outgoing side. */
  predicate Emitted(c: Core, out: Out, c': Core) {
    && OnlySent(c, c')
    && (out == NoOut ==> c' == c)
    && (out != NoOut ==>
          && FrameOf(out, c.scratchCap).Some?
          && (c'.history.committed == c.history.committed
              || c'.history.committed == c.history.committed + [FrameOf(out, c.scratchCap).value])
          && (c'.dead.None? ==> c'.history.committed == c.history.committed + [FrameOf(out, c.scratchCap).value]))
  }

  lemma EmitOutConserves(c: Core, out: Out)
    requires StreamLike(c.transport) && Conserved(c) && Sound(c) && Roomy(c, out)
    ensures Emitted(c, out, EmitOut(c, out)) && Conserved(EmitOut(c, out))
  {
    hide EncodeFrame; hide EncodeAll; hide SendControl;
    if out != NoOut {
      EmitOutNeverDrops(c, out);
      SendControlConserves(c, FrameOf(out, c.scratchCap).value);
    }
  }

  // ---- Where the laws end ------------------------------------------------------

  /** Whether a flush of so many waiting bytes comes upon "too large" before the
      transport stops taking. */
  predicate MeetsTooLarge(sends: seq<SendAnswer>, waiting: nat)
    decreases |sends|
  {
    waiting > 0 && sends != [] &&
    match sends[0]
    case RefuseTooLarge => true
    case TakeSome(count) => count > 0 && MeetsTooLarge(sends[1..], waiting - Min(count, waiting))
    case _ => false
  }

  lemma TooLargeBreaks(c: Core, sends: seq<SendAnswer>)
    requires Conserved(c) && !c.transport.shut && c.outbox != []
    ensures !Conserved(c.(transport := c.transport.(sends := sends), outbox := []))
  {
    hide EncodeAll; hide Encodable;
    assert |c.transport.accepted + c.outbox| > |c.transport.accepted + []|;
  }

  /** What becomes of a flush, answer by answer. */
  lemma FlushByAnswer(c: Core)
    requires c.outbox != [] && c.transport.sends != []
    ensures var t := c.transport.(sends := c.transport.sends[1..]);
      match c.transport.sends[0]
      case TakeAll => Flush(c) == c.(transport := t.(accepted := t.accepted + c.outbox), outbox := [])
      case TakeSome(count) =>
        var k := Min(count, |c.outbox|);
        var c' := c.(transport := t.(accepted := t.accepted + c.outbox[..k]), outbox := c.outbox[k..]);
        Flush(c) == if count == 0 then c' else Flush(c')
      case RefuseTooLarge => Flush(c) == c.(transport := t, outbox := [])
      case TakeNone => Flush(c) == c.(transport := t)
      case SendClosed => Flush(c) == Kill(c.(transport := t), PeerClosed)
      case SendBroken => Flush(c) == Kill(c.(transport := t), TransportError)
  {
    assert c.outbox[0..] == c.outbox;
  }

  lemma TransportIsNoMatter(c: Core, sends: seq<SendAnswer>)
    requires Conserved(c)
    ensures Conserved(c.(transport := c.transport.(sends := sends)))
  {
    hide EncodeAll; hide Encodable;
  }

  /** A flush loses nothing unless it comes upon "too large", which no stream transport
      answers; then it loses all that still waits. */
  lemma {:induction false} FlushConservesUnlessTooLarge(c: Core)
    requires Conserved(c) && !c.transport.shut
    ensures Conserved(Flush(c)) <==> !MeetsTooLarge(c.transport.sends, |c.outbox|)
    decreases |c.transport.sends|
  {
    if c.outbox != [] && c.transport.sends != [] {
      FlushByAnswer(c);
      var rest := c.transport.sends[1..];
      var t := c.transport.(sends := rest);
      TransportIsNoMatter(c, rest);
      hide Flush; hide Conserved;
      match c.transport.sends[0]
      case TakeAll =>
        TakingConserves(c, t.(accepted := t.accepted + c.outbox), |c.outbox|);
        assert c.outbox[..|c.outbox|] == c.outbox && c.outbox[|c.outbox|..] == [];
      case TakeSome(count) =>
        var k := Min(count, |c.outbox|);
        TakingConserves(c, t.(accepted := t.accepted + c.outbox[..k]), k);
        if count > 0 {
          FlushConservesUnlessTooLarge(
            c.(transport := t.(accepted := t.accepted + c.outbox[..k]), outbox := c.outbox[k..]));
        }
      case RefuseTooLarge => TooLargeBreaks(c, rest);
      case TakeNone =>
      case SendClosed => KillConserves(c.(transport := t), PeerClosed);
      case SendBroken => KillConserves(c.(transport := t), TransportError);
    }
  }

  /** The length of a verdict on the wire: the header and one byte. */
  const VERDICT_FRAME_LEN := HANDSHAKE_HEADER_LEN + 1

  function Refusal(verdict: Verdict, failure: HandshakeFailure): Reaction {
    Reaction(OutHandshake([VerdictByte(verdict)]), Some(HandshakeFailed(failure)))
  }

  lemma RefusalFrame(c: Core, verdict: Verdict)
    requires c.scratchCap >= VERDICT_FRAME_LEN
    ensures var frame := Handshake([VerdictByte(verdict)]);
      && FrameOf(OutHandshake([VerdictByte(verdict)]), c.scratchCap) == Some(frame)
      && |EncodeFrame(frame)| == VERDICT_FRAME_LEN
  {
  }

  /** What a written frame adds to what the transport has taken. */
  lemma WrittenPart(c: Core, frame: Frame)
    ensures var bytes := EncodeFrame(frame); var sends := c.transport.sends;
      WriteFrame(c, frame).0.transport.accepted == c.transport.accepted +
        (if sends == [] then []
         else match sends[0]
              case TakeAll => bytes
              case TakeSome(count) => bytes[..Min(count, |bytes|)]
              case _ => [])
  {
    hide EncodeFrame;
    assert c.transport.accepted + [] == c.transport.accepted;
  }

  lemma SentWhole(accepted: seq<byte>, bytes: seq<byte>, k: nat)
    requires k <= |bytes|
    ensures accepted + bytes[..k] == accepted + bytes <==> k == |bytes|
  {
    if k == |bytes| { assert bytes[..k] == bytes; }
    assert |accepted + bytes[..k]| == |accepted| + k;
  }

  /** A refusal reaches the transport whole exactly when nothing waits before it and
      the transport takes all of it at once. Failing the handshake shuts the connection
      down, and that empties the outbox, so whatever was not taken never leaves. */
  lemma RefusalIsSentExactly(c: Core, verdict: Verdict, failure: HandshakeFailure)
    requires c.dead.None? && c.scratchCap >= VERDICT_FRAME_LEN
    ensures var c' := Apply(c, Refusal(verdict, failure)); var sends := c.transport.sends;
      && c'.outbox == [] && c'.transport.shut
      && (c'.transport.accepted == c.transport.accepted + EncodeFrame(Handshake([VerdictByte(verdict)]))
          <==> c.outbox == [] && sends != []
               && (sends[0].TakeAll? || (sends[0].TakeSome? && sends[0].count >= VERDICT_FRAME_LEN)))
  {
    RefusalFrame(c, verdict);
    var frame := Handshake([VerdictByte(verdict)]);
    WrittenPart(c, frame);
    hide EncodeFrame; hide WriteFrame; hide FrameOf;
    var bytes := EncodeFrame(frame);
    var taken := if c.transport.sends != [] && c.transport.sends[0].TakeSome?
                 then Min(c.transport.sends[0].count, |bytes|) else 0;
    SentWhole(c.transport.accepted, bytes, taken);
    assert bytes[..0] == [] && c.transport.accepted + [] == c.transport.accepted;
    assert |c.transport.accepted + bytes| > |c.transport.accepted|;
  }

  // ---- Passing the ceiling -----------------------------------------------------

  /** A frame that would take the waiting bytes past the ceiling. */
  predicate PassesCeiling(outbox: seq<byte>, frame: Frame) {
    outbox != [] && |outbox| + |EncodeFrame(frame)| > MAX_OUTBOX_BYTES
  }

  /** Owing a control frame makes a live connection call its peer unresponsive exactly
      when the frame would pass the ceiling; the outbox is then left as it was. */
  lemma CeilingIsExact(c: Core, frame: Frame)
    requires c.dead.None?
    ensures SendControl(c, frame).dead == Some(Unresponsive) <==> PassesCeiling(c.outbox, frame)
    ensures PassesCeiling(c.outbox, frame) <==> c.outbox != [] && |c.outbox| + |EncodeFrame(frame)| > 65_536
    ensures PassesCeiling(c.outbox, frame) ==> SendControl(c, frame) == Kill(c, Unresponsive)
  {
    hide EncodeFrame;
    if c.outbox == [] { WritingIsNeverUnresponsive(c, frame); }
    hide WriteFrame;
  }

  lemma WritingIsNeverUnresponsive(c: Core, frame: Frame)
    requires c.dead.None?
    ensures WriteFrame(c, frame).0.dead != Some(Unresponsive)
  {
    hide EncodeFrame; hide TransportSend;
  }
}
