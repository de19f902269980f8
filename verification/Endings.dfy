/** How connections end: a peer's close and a broken transport are noticed in the call that
    meets them, reported under their own name, and reported for nothing else. */
module Endings {
  import opened Bytes
  import opened Frame
  import opened Schema
  import opened Handshake
  import opened Session
  import opened Core
  import D = StreamDecoder
  import E = EventGrammar
  import R = SessionRuns
  import S = SessionOfCore

  // ---- The answers used up -----------------------------------------------------

  /** What was taken off the front of a script. */
  predicate Rest<A(==)>(script: seq<A>, rest: seq<A>) {
    |rest| <= |script| && script[|script| - |rest|..] == rest
  }

  function Spent<A>(script: seq<A>, rest: seq<A>): seq<A> {
    if |rest| <= |script| then script[..|script| - |rest|] else []
  }

  lemma SpentTwice<A>(a: seq<A>, b: seq<A>, c: seq<A>)
    requires Rest(a, b) && Rest(b, c)
    ensures Rest(a, c) && Spent(a, c) == Spent(a, b) + Spent(b, c)
  {
    var n := |a| - |b|;
    assert a == a[..n] + b;
    assert a[n..][..|b| - |c|] == b[..|b| - |c|];
  }

  lemma SpentNothing<A>(a: seq<A>)
    ensures Rest(a, a) && Spent(a, a) == []
  {
  }

  lemma SpentOne<A>(a: seq<A>)
    requires a != []
    ensures Rest(a, a[1..]) && Spent(a, a[1..]) == [a[0]]
  {
  }

  /** A stream whose next bytes are no frame. */
  predicate Spoiled(c: Core) {
    c.transport.stream && c.decoder.poison.Some?
  }

  ghost predicate PeerHasClosed(c: Core, c': Core) {
    || SendClosed in Spent(c.transport.sends, c'.transport.sends)
    || RecvClosed in Spent(c.transport.recvs, c'.transport.recvs)
  }

  ghost predicate TransportHasBroken(c: Core, c': Core) {
    || SendBroken in Spent(c.transport.sends, c'.transport.sends)
    || RecvBroken in Spent(c.transport.recvs, c'.transport.recvs)
    || Spoiled(c')
  }

  /** A read has met an end. */
  ghost predicate ReadHasEnded(c: Core, c': Core) {
    || RecvClosed in Spent(c.transport.recvs, c'.transport.recvs)
    || RecvBroken in Spent(c.transport.recvs, c'.transport.recvs)
    || Spoiled(c')
  }

  predicate Open(c: Core) {
    c.session.state != Closed
  }

  /** From the living `c` to `c'`: dead of a close iff an answer closed, dead of an error
      iff an answer broke or the stream was bad. */
  ghost predicate Fated(c: Core, c': Core) {
    && Rest(c.transport.sends, c'.transport.sends) && Rest(c.transport.recvs, c'.transport.recvs)
    && (c'.dead == Some(PeerClosed) <==> PeerHasClosed(c, c'))
    && (c'.dead == Some(TransportError) <==> TransportHasBroken(c, c'))
    && (Spoiled(c') ==> DecodeFrame(c'.decoder.buffer, c'.decoder.limit).Bad?)
  }

  /** A session that was open is so as long as the connection lives, and when a read
      meets an end. */
  ghost predicate OpenToTheEnd(c: Core, c': Core) {
    R.Valid(c.session) ==>
      && R.Valid(c'.session)
      && (Open(c) && (c'.dead.None? || ReadHasEnded(c, c')) ==> Open(c'))
  }

  predicate Alive(c: Core) {
    c.dead.None? && !Spoiled(c)
  }

  lemma FatedTwice(a: Core, b: Core, c: Core)
    requires Fated(a, b) && OpenToTheEnd(a, b) && b.dead.None? && Fated(b, c) && OpenToTheEnd(b, c)
    ensures Fated(a, c) && OpenToTheEnd(a, c) && Alive(b)
  {
    SpentTwice(a.transport.sends, b.transport.sends, c.transport.sends);
    SpentTwice(a.transport.recvs, b.transport.recvs, c.transport.recvs);
    hide R.Valid; hide DecodeFrame;
  }

  /** Nothing was asked of the transport, and the connection is as it was. */
  lemma FatedSame(c: Core, c': Core)
    requires Alive(c) && !Spoiled(c') && c'.dead != Some(PeerClosed) && c'.dead != Some(TransportError)
    requires c'.transport.sends == c.transport.sends && c'.transport.recvs == c.transport.recvs
    ensures Fated(c, c')
  {
    SpentNothing(c.transport.sends);
    SpentNothing(c.transport.recvs);
    hide DecodeFrame;
  }

  // ---- Sending -----------------------------------------------------------------

  lemma SendMeans(t: Transport, bytes: seq<byte>)
    ensures var (t', result) := TransportSend(t, bytes); var spent := Spent(t.sends, t'.sends);
      && Rest(t.sends, t'.sends) && t'.recvs == t.recvs && t'.stream == t.stream
      && (SendClosed in spent <==> result.SendIsClosed?) && (SendBroken in spent <==> result.SendFails?)
      && (t.sends == [] ==> t'.sends == []) && (result.SendBlocks? ==> t.sends == [] || spent == [TakeNone])
      && (result == Partial(0) && bytes != [] ==> spent == [TakeSome(0)])
  {
    if t.sends == [] { SpentNothing(t.sends); } else { SpentOne(t.sends); }
    hide Rest; hide Spent;
  }

  lemma WriteFrameFated(c: Core, frame: Frame)
    requires Alive(c)
    ensures Fated(c, WriteFrame(c, frame).0)
    ensures WriteFrame(c, frame).0.transport.recvs == c.transport.recvs
  {
    SendMeans(c.transport, EncodeFrame(frame));
    SpentNothing(c.transport.recvs);
    hide EncodeFrame; hide TransportSend; hide Rest; hide Spent; hide DecodeFrame;
    var (t, result) := TransportSend(c.transport, EncodeFrame(frame));
    var c' := WriteFrame(c, frame).0;
    assert c'.transport == t && c'.decoder == c.decoder;
    assert c'.dead == (if result.SendIsClosed? then Some(PeerClosed)
                       else if result.SendFails? then Some(TransportError) else None);
  }

  lemma EmitOutFated(c: Core, out: Out)
    requires Alive(c)
    ensures Fated(c, EmitOut(c, out)) && EmitOut(c, out).transport.recvs == c.transport.recvs
  {
    hide FrameOf; hide WriteFrame; hide EncodeFrame; hide Fated;
    var frame := FrameOf(out, c.scratchCap);
    if frame.Some? {
      WriteFrameFated(c, frame.value);
      if c.outbox != [] { FatedSame(c, SendControl(c, frame.value)); }
    } else {
      FatedSame(c, c);
    }
  }

  /** Reporting and shutting down ask nothing of the transport. */
  lemma ApplyFated(c: Core, reaction: Reaction)
    requires Alive(c)
    ensures Fated(c, Apply(c, reaction)) && Apply(c, reaction).transport.recvs == c.transport.recvs
    ensures var e := reaction.event; e.Some? && e.value.HandshakeFailed? ==> Apply(c, reaction).dead.Some?
    ensures !Spoiled(Apply(c, reaction))
  {
    EmitOutFated(c, reaction.out);
    EmitOutKeepsDecoder(c, reaction.out);
    hide EmitOut; hide DecodeFrame;
  }

  lemma EmitOutKeepsDecoder(c: Core, out: Out)
    ensures EmitOut(c, out).decoder == c.decoder && EmitOut(c, out).transport.stream == c.transport.stream
  {
    hide FrameOf; hide EncodeFrame;
  }

  // ---- Listening ---------------------------------------------------------------

  /** A frame closes a session only by failing its handshake. */
  lemma FrameCloses(s: Session, frame: Frame, now: nat)
    requires R.Valid(s) && s.state != Closed
    ensures var (s', reaction) := OnFrame(s, frame, now);
      && R.Valid(s')
      && (s'.state == Closed ==> reaction.event.Some? && reaction.event.value.HandshakeFailed?)
  {
    R.StepIsForward(s, R.Hear(frame, now));
    if s.state == Handshaking && frame.Handshake? {
      var heard := s.(lastActivityMs := now, probing := false);
      ClientCloses(heard, frame.payload);
      ServerCloses(heard, frame.payload);
    }
    hide ClientHandshake; hide ServerHandshake; hide R.Valid;
  }

  lemma ClientCloses(s: Session, payload: seq<byte>)
    requires s.state == Handshaking
    ensures var (s', reaction) := ClientHandshake(s, payload);
      s'.state == Closed ==> reaction.event.Some? && reaction.event.value.HandshakeFailed?
  {
    hide ParseQuery; hide Answers; hide Answerable; hide ReplyBytes;
  }

  lemma ServerCloses(s: Session, payload: seq<byte>)
    requires s.state == Handshaking
    ensures var (s', reaction) := ServerHandshake(s, payload);
      s'.state == Closed ==> reaction.event.Some? && reaction.event.value.HandshakeFailed?
  {
    hide ParseHello; hide ParseReply; hide Decide; hide ReplyVerdict; hide QueryBytes;
  }

  lemma TakeInFated(c: Core, frame: Frame, now: nat)
    requires Alive(c)
    ensures var c' := TakeIn(c, frame, now);
      && Fated(c, c') && OpenToTheEnd(c, c') && c'.transport.recvs == c.transport.recvs
      && !Spoiled(c') && c'.transport.stream == c.transport.stream
  {
    var (s, reaction) := OnFrame(c.session, frame, now);
    var filed := c.(session := s, history := Note(c.history, c.session.state, frame));
    if R.Valid(c.session) {
      if c.session.state != Closed { FrameCloses(c.session, frame, now); }
    }
    E.ApplyReports(filed, reaction);
    EmitOutKeepsDecoder(filed, reaction.out);
    assert Apply(filed, reaction).transport.stream == c.transport.stream by { hide EmitOut; }
    hide OnFrame; hide Apply; hide R.Valid;
    ApplyFated(filed, reaction);
    SpentNothing(c.transport.recvs);
  }

  lemma RecvMeans(t: Transport, cap: nat)
    ensures var (t', result) := TransportRecv(t, cap); var spent := Spent(t.recvs, t'.recvs);
      && Rest(t.recvs, t'.recvs) && t'.sends == t.sends && t'.stream == t.stream
      && (RecvClosed in spent <==> result.RecvIsClosed?) && (RecvBroken in spent <==> result.RecvFails?)
  {
    if t.recvs == [] { SpentNothing(t.recvs); } else { SpentOne(t.recvs); }
    hide Rest; hide Spent;
  }

  /** One read and what it says of the transport; the rest of the connection is as it was. */
  lemma ReadFated(c: Core, c': Core)
    requires Alive(c)
    requires var (t, result) := TransportRecv(c.transport, c.recvCap);
      c' == c.(transport := t, decoder := c'.decoder, recvCap := c'.recvCap,
               dead := if result.RecvIsClosed? then Some(PeerClosed)
                       else if result.RecvFails? then Some(TransportError) else None)
    requires c'.decoder.poison == c.decoder.poison
    ensures Fated(c, c') && OpenToTheEnd(c, c')
  {
    RecvMeans(c.transport, c.recvCap);
    SpentNothing(c.transport.sends);
    hide TransportRecv; hide Rest; hide Spent; hide DecodeFrame; hide R.Valid;
  }

  lemma ReceiveFated(c: Core, now: nat)
    requires Alive(c)
    ensures Fated(c, Receive(c, now).0) && OpenToTheEnd(c, Receive(c, now).0)
  {
    var (t, result) := TransportRecv(c.transport, c.recvCap);
    var c' := Receive(c, now).0;
    RecvMeans(c.transport, c.recvCap);
    hide DecodePacket; hide D.Feed; hide TakeIn; hide TransportRecv; hide Fated; hide OpenToTheEnd;
    hide Rest; hide Spent;
    if result.Received? && !t.stream {
      var c1 := c.(transport := t);
      var packet := DecodePacket(result.bytes, c.session.config.maxMessageBytes);
      ReadFated(c, c1);
      if packet.Packet? {
        TakeInFated(c1, packet.frame, now);
        FatedTwice(c, c1, TakeIn(c1, packet.frame, now));
      }
    } else {
      if result.Received? { FeedKeepsPoison(c.decoder, result.bytes); }
      ReadFated(c, c');
    }
  }

  lemma FeedKeepsPoison(s: D.State, bytes: seq<byte>)
    ensures D.Feed(s, bytes).poison == s.poison
  {
  }

  lemma DrainStepFated(c: Core, now: nat)
    requires Alive(c)
    ensures Fated(c, DrainStep(c, now).0) && OpenToTheEnd(c, DrainStep(c, now).0)
  {
    SpentNothing(c.transport.sends);
    SpentNothing(c.transport.recvs);
    ReceiveFated(c, now);
    hide Receive; hide TakeIn; hide R.Valid; hide Rest; hide Spent; hide DecodeFrame;
    if c.transport.stream {
      match D.NextResult(c.decoder)
      case Decoded(frame, used) =>
        TakeInFated(c, frame, now);
        assert D.Advance(TakeIn(c, frame, now).decoder, used).poison == TakeIn(c, frame, now).decoder.poison;
      case Bad(_) =>
        assert D.NextResult(c.decoder) == DecodeFrame(c.decoder.buffer, c.decoder.limit);
      case Incomplete =>
    }
  }

  lemma {:induction false} DrainFated(c: Core, now: nat, frames: nat, turns: nat)
    requires Alive(c)
    ensures Fated(c, Drain(c, now, frames, turns)) && OpenToTheEnd(c, Drain(c, now, frames, turns))
    decreases frames + turns
  {
    if frames == 0 || turns == 0 {
      FatedSame(c, c);
    } else {
      DrainStepFated(c, now);
      var (c1, use) := DrainStep(c, now);
      hide DrainStep; hide OpenToTheEnd; hide Fated;
      if c1.dead.None? && !use.Stop? {
        AliveOn(c, c1);
        DrainFated(c1, now, if use.UsedFrame? then frames - 1 else frames, if use.UsedRead? then turns - 1 else turns);
        FatedTwice(c, c1, Drain(c, now, frames, turns));
      } else {
        assert Drain(c, now, frames, turns) == c1;
      }
    }
  }

  lemma AliveOn(c: Core, c': Core)
    requires Fated(c, c') && c'.dead.None?
    ensures Alive(c')
  {
    hide DecodeFrame;
  }

  lemma OpenStill(c: Core)
    requires Alive(c)
    ensures OpenToTheEnd(c, c)
  {
    SpentNothing(c.transport.recvs);
    hide R.Valid;
  }

  /** One offer of the outbox. */
  lemma OfferFated(c: Core, c': Core)
    requires Alive(c)
    requires var (t, result) := TransportSend(c.transport, c.outbox);
      c' == c.(transport := t, outbox := c'.outbox,
               dead := if result.SendIsClosed? then Some(PeerClosed)
                       else if result.SendFails? then Some(TransportError) else None)
    ensures Fated(c, c') && OpenToTheEnd(c, c')
  {
    SendMeans(c.transport, c.outbox);
    SpentNothing(c.transport.recvs);
    hide TransportSend; hide Rest; hide Spent; hide DecodeFrame; hide R.Valid;
  }

  lemma {:induction false} FlushFated(c: Core)
    requires Alive(c)
    ensures Fated(c, Flush(c)) && OpenToTheEnd(c, Flush(c)) && Flush(c).session == c.session
    decreases |c.outbox|
  {
    hide R.Valid; hide TransportSend; hide Fated; hide OpenToTheEnd;
    if c.outbox == [] {
      FatedSame(c, c);
      OpenStill(c);
    } else {
      var (t, result) := TransportSend(c.transport, c.outbox);
      if result.Partial? && result.accepted > 0 {
        var c1 := c.(transport := t,
          outbox := if result.accepted <= |c.outbox| then c.outbox[result.accepted..] else []);
        OfferFated(c, c1);
        AliveOn(c, c1);
        FlushFated(c1);
        FatedTwice(c, c1, Flush(c1));
      } else {
        OfferFated(c, Flush(c));
      }
    }
  }

  // ---- A tick ------------------------------------------------------------------

  lemma TickSessionFated(c: Core, now: nat)
    requires Alive(c)
    ensures Fated(c, TickSession(c, now)) && TickSession(c, now).transport.recvs == c.transport.recvs
    ensures !Spoiled(TickSession(c, now))
    ensures R.Valid(c.session) ==> R.Valid(TickSession(c, now).session)
  {
    var (s, reaction) := Tick(c.session, now);
    if R.Valid(c.session) { R.StepIsForward(c.session, R.Pass(now)); }
    E.ApplyReports(c.(session := s), reaction);
    hide Tick; hide Apply;
    ApplyFated(c.(session := s), reaction);
  }

  lemma BuryTells(c: Core)
    requires c.dead.Some? && R.Valid(c.session)
    ensures var c' := Bury(c);
      && c'.dead == c.dead && c'.session.state == Closed && c'.transport == c.transport && c'.decoder == c.decoder
      && c'.history.events == c.history.events + if Open(c) then [Disconnected(c.dead.value)] else []
  {
    if Open(c) {
      var (s, reaction) := TransportClosed(c.session, c.dead.value);
      assert reaction == Reaction(NoOut, Some(Disconnected(c.dead.value)));
      assert Bury(c) == Push(c.(session := s), Disconnected(c.dead.value));
    } else {
      assert c.history.events + [] == c.history.events;
    }
  }

  lemma BuryNothing(c: Core)
    requires c.dead.None?
    ensures Bury(c) == c
  {
  }

  predicate LastIs(events: seq<Event>, e: Event) {
    events != [] && events[|events| - 1] == e
  }

  /** A tick of a living connection: it dies of a close iff an answer it used up closed, and
      of an error iff one broke or the stream was bad; it is closed when it is dead, and a
      session that was open when a read met an end has that for its last event. */
  lemma TickNoticesTheEnd(c: Core, now: nat)
    requires Alive(c) && R.Valid(c.session)
    ensures var c' := CoreTick(c, now);
      && Fated(c, c')
      && (c'.dead.Some? ==> c'.session.state == Closed)
      && (Open(c) && RecvClosed in Spent(c.transport.recvs, c'.transport.recvs) ==>
            LastIs(c'.history.events, Disconnected(PeerClosed)))
      && (Open(c) && (RecvBroken in Spent(c.transport.recvs, c'.transport.recvs) || Spoiled(c')) ==>
            LastIs(c'.history.events, Disconnected(TransportError)))
  {
    hide Flush; hide Drain; hide TickSession; hide Bury; hide R.Valid; hide DecodeFrame;
    var a := Announce(c);
    FatedSame(c, a);
    FlushFated(a);
    var c2 := Flush(a);
    FatedTwice(c, a, c2);
    if c2.dead.None? {
      var n := c2.session.config.maxFramesPerTick;
      DrainFated(c2, now, n, n);
      FatedTwice(c, c2, Drain(c2, now, n, n));
    }
    var c3 := DrainIfAlive(c2, now);
    if c3.dead.None? {
      AliveOn(c, c3);
      TickSessionFated(c3, now);
      SpentNothing(c3.transport.recvs);
    }
    var c4 := TickIfAlive(c3, now);
    EndOfTick(c, c3, c4);
  }

  lemma EndOfTick(c: Core, c3: Core, c4: Core)
    requires Fated(c, c3) && OpenToTheEnd(c, c3) && R.Valid(c.session)
    requires c3.dead.Some? ==> c4 == c3
    requires c3.dead.None? ==>
      Fated(c3, c4) && c4.transport.recvs == c3.transport.recvs && !Spoiled(c4) && R.Valid(c4.session)
    ensures var c' := Bury(c4);
      && Fated(c, c') && (c'.dead.Some? ==> c'.session.state == Closed)
      && (Open(c) && RecvClosed in Spent(c.transport.recvs, c'.transport.recvs) ==>
            LastIs(c'.history.events, Disconnected(PeerClosed)))
      && (Open(c) && (RecvBroken in Spent(c.transport.recvs, c'.transport.recvs) || Spoiled(c')) ==>
            LastIs(c'.history.events, Disconnected(TransportError)))
  {
    hide R.Valid; hide DecodeFrame; hide Bury;
    if c3.dead.None? {
      SpentTwice(c.transport.sends, c3.transport.sends, c4.transport.sends);
      SpentTwice(c.transport.recvs, c3.transport.recvs, c4.transport.recvs);
      SpentNothing(c3.transport.recvs);
    }
    if c4.dead.Some? { BuryTells(c4); } else { BuryNothing(c4); }
  }

  /** A dead connection asks nothing more of its transport; if its session is still open,
      the next tick tells it why it died. */
  lemma DeadTick(c: Core, now: nat)
    requires c.dead.Some? && R.Valid(c.session)
    ensures var c' := CoreTick(c, now);
      && c'.dead == c.dead && c'.transport == c.transport && c'.session.state == Closed
      && c'.history.events == Announce(c).history.events + if Open(c) then [Disconnected(c.dead.value)] else []
  {
    BuryTells(Announce(c));
  }

  // ---- Every run ---------------------------------------------------------------

  /** The answers that a call has used up. */
  function SentIn(cores: seq<Core>, calls: seq<E.Call>, k: nat): seq<SendAnswer>
    requires k < |calls| && |cores| == |calls| + 1
  {
    match calls[k]
    case TickCall(_, sends, _, _) => Spent(sends, cores[k + 1].transport.sends)
    case SendCall(_, _, sends) => Spent(sends, cores[k + 1].transport.sends)
    case CloseCall => []
  }

  function ReadIn(cores: seq<Core>, calls: seq<E.Call>, k: nat): seq<RecvAnswer>
    requires k < |calls| && |cores| == |calls| + 1
  {
    match calls[k]
    case TickCall(_, _, recvs, _) => Spent(recvs, cores[k + 1].transport.recvs)
    case _ => []
  }

  /** In the call at `k` some answer closed; or broke, or the stream was bad. */
  predicate ClosedIn(cores: seq<Core>, calls: seq<E.Call>, k: nat)
    requires k < |calls| && |cores| == |calls| + 1
  {
    SendClosed in SentIn(cores, calls, k) || RecvClosed in ReadIn(cores, calls, k)
  }

  predicate BrokeIn(cores: seq<Core>, calls: seq<E.Call>, k: nat)
    requires k < |calls| && |cores| == |calls| + 1
  {
    SendBroken in SentIn(cores, calls, k) || RecvBroken in ReadIn(cores, calls, k) || Spoiled(cores[k + 1])
  }

  /** Some answer did so before the call at `k`. */
  ghost predicate ClosedBefore(t: Transport, cores: seq<Core>, calls: seq<E.Call>, k: nat)
    requires k <= |calls| && |cores| == |calls| + 1
  {
    SendClosed in Spent(t.sends, cores[0].transport.sends) || exists j | 0 <= j < k :: ClosedIn(cores, calls, j)
  }

  ghost predicate BrokeBefore(t: Transport, cores: seq<Core>, calls: seq<E.Call>, k: nat)
    requires k <= |calls| && |cores| == |calls| + 1
  {
    SendBroken in Spent(t.sends, cores[0].transport.sends) || exists j | 0 <= j < k :: BrokeIn(cores, calls, j)
  }

  /** What is known of a connection at every moment of a run. */
  ghost predicate Fates(t: Transport, cores: seq<Core>, calls: seq<E.Call>, k: nat)
    requires k <= |calls| && |cores| == |calls| + 1
  {
    var c := cores[k];
    && R.Valid(c.session)
    && (Spoiled(c) ==> c.dead == Some(TransportError))
    && (c.dead == Some(PeerClosed) <==> ClosedBefore(t, cores, calls, k))
    && (c.dead == Some(TransportError) <==> BrokeBefore(t, cores, calls, k))
  }

  lemma OneCallLater(t: Transport, cores: seq<Core>, calls: seq<E.Call>, k: nat)
    requires k < |calls| && |cores| == |calls| + 1
    ensures ClosedBefore(t, cores, calls, k + 1) <==> (ClosedBefore(t, cores, calls, k) || ClosedIn(cores, calls, k))
    ensures BrokeBefore(t, cores, calls, k + 1) <==> (BrokeBefore(t, cores, calls, k) || BrokeIn(cores, calls, k))
  {
    hide ClosedIn; hide BrokeIn; hide Spent;
  }

  /** One call. */
  ghost predicate CallFates(c: Core, c': Core, sent: seq<SendAnswer>, read: seq<RecvAnswer>) {
    if c.dead.None? then
      && (c'.dead == Some(PeerClosed) <==> SendClosed in sent || RecvClosed in read)
      && (c'.dead == Some(TransportError) <==> SendBroken in sent || RecvBroken in read || Spoiled(c'))
    else c'.dead == c.dead && sent == [] && read == [] && (Spoiled(c') <==> Spoiled(c))
  }

  lemma SendCallFates(cores: seq<Core>, calls: seq<E.Call>, k: nat)
    requires E.IsRun(cores, calls) && k < |calls| && calls[k].SendCall? && R.Valid(cores[k].session)
    requires Spoiled(cores[k]) ==> cores[k].dead == Some(TransportError)
    ensures CallFates(cores[k], cores[k + 1], SentIn(cores, calls, k), [])
    ensures cores[k + 1].session == cores[k].session
  {
    var call := calls[k];
    var w := cores[k].(transport := cores[k].transport.(sends := call.sends));
    assert cores[k + 1] == E.Perform(cores[k], call);
    var frame := Data(call.id, call.payload);
    if w.dead.None? { WriteFrameFated(w, frame); }
    E.WriteFrameIsSilent(w, frame);
    SpentNothing(w.transport.sends);
    SpentNothing(w.transport.recvs);
    hide WriteFrame; hide R.Valid; hide DecodeFrame; hide E.IsRun; hide Spent; hide Rest;
  }

  lemma TickCallFates(cores: seq<Core>, calls: seq<E.Call>, k: nat)
    requires E.IsRun(cores, calls) && k < |calls| && calls[k].TickCall? && R.Valid(cores[k].session)
    requires Spoiled(cores[k]) ==> cores[k].dead == Some(TransportError)
    ensures CallFates(cores[k], cores[k + 1], SentIn(cores, calls, k), ReadIn(cores, calls, k))
    ensures R.Valid(cores[k + 1].session)
  {
    var call, c := calls[k], cores[k];
    var w := c.(transport := c.transport.(sends := call.sends, recvs := call.recvs, inbound := call.inbound));
    assert cores[k + 1] == E.Perform(c, call) == CoreTick(w, call.now);
    TickKeepsValid(w, call.now);
    if c.dead.None? {
      TickNoticesTheEnd(w, call.now);
    } else {
      DeadTick(w, call.now);
      DeadTickKeepsDecoder(w, call.now);
      SpentNothing(call.sends);
      SpentNothing(call.recvs);
    }
    hide CoreTick; hide R.Valid; hide DecodeFrame; hide E.IsRun; hide Spent; hide Rest;
  }

  lemma DeadTickKeepsDecoder(c: Core, now: nat)
    requires c.dead.Some? && R.Valid(c.session)
    ensures CoreTick(c, now).decoder == c.decoder
  {
    BuryTells(Announce(c));
  }

  lemma TickKeepsValid(c: Core, now: nat)
    requires R.Valid(c.session)
    ensures R.Valid(CoreTick(c, now).session)
  {
    var inputs := S.CoreTickTells(c, now);
    R.RunIsForward(c.session, inputs, |inputs|);
    hide CoreTick; hide R.Valid;
  }

  lemma CallKeepsFates(t: Transport, cores: seq<Core>, calls: seq<E.Call>, k: nat)
    requires E.IsRun(cores, calls) && k < |calls| && Fates(t, cores, calls, k)
    ensures Fates(t, cores, calls, k + 1)
  {
    OneCallLater(t, cores, calls, k);
    match calls[k]
    case TickCall(_, _, _, _) => TickCallFates(cores, calls, k);
    case SendCall(_, _, _) => SendCallFates(cores, calls, k);
    case CloseCall => assert cores[k + 1] == CoreClose(cores[k]);
    hide ClosedBefore; hide BrokeBefore; hide E.IsRun; hide Spent;
  }

  lemma {:induction false} RunHasFates(t: Transport, schema: Schema, config: Config, role: Role, now: nat,
                                       cores: seq<Core>, calls: seq<E.Call>, k: nat)
    requires E.IsRun(cores, calls) && k < |cores| && Init(t, schema, config, role, now) == Some(cores[0])
    ensures Fates(t, cores, calls, k)
  {
    hide Fates; hide Init; hide E.Perform;
    if k == 0 {
      InitHasFates(t, schema, config, role, now, cores, calls);
    } else {
      RunHasFates(t, schema, config, role, now, cores, calls, k - 1);
      CallKeepsFates(t, cores, calls, k - 1);
    }
  }

  lemma InitHasFates(t: Transport, schema: Schema, config: Config, role: Role, now: nat,
                     cores: seq<Core>, calls: seq<E.Call>)
    requires |cores| == |calls| + 1 && Init(t, schema, config, role, now) == Some(cores[0])
    ensures Fates(t, cores, calls, 0)
  {
    var newborn := Newborn(t, schema, config, role, now);
    var opening := Create(role, schema, config, now).1.out;
    EmitOutFated(newborn, opening);
    EmitOutKeepsDecoder(newborn, opening);
    E.EmitOutIsSilent(newborn, opening);
    assert newborn.session == Create(role, schema, config, now).0 && R.Valid(newborn.session);
    SpentNothing(t.recvs);
    hide EmitOut; hide Create; hide HelloLen; hide ScratchSize; hide DecodeFrame;
  }

  /** Every end is noticed: in every run and over both kinds of transport, a tick in which a
      read answers that the peer has closed leaves the connection dead and closed of that,
      and if its session was open this is the last it reports; and likewise with an error,
      when a read breaks or the next bytes of the stream are no frame. */
  lemma EndingsAreNoticed(t: Transport, schema: Schema, config: Config, role: Role, now: nat,
                          cores: seq<Core>, calls: seq<E.Call>, k: nat)
    requires E.IsRun(cores, calls) && k < |calls| && Init(t, schema, config, role, now) == Some(cores[0])
    requires calls[k].TickCall?
    ensures var c, c', read := cores[k], cores[k + 1], ReadIn(cores, calls, k);
      && (RecvClosed in read ==>
            && c'.dead == Some(PeerClosed) && c'.session.state == Closed
            && (Open(c) ==> LastIs(c'.history.events, Disconnected(PeerClosed))))
      && (RecvBroken in read || (Spoiled(c') && !Spoiled(c)) ==>
            && c'.dead == Some(TransportError) && c'.session.state == Closed
            && (Open(c) ==> LastIs(c'.history.events, Disconnected(TransportError))))
  {
    RunHasFates(t, schema, config, role, now, cores, calls, k);
    var call, c := calls[k], cores[k];
    assert cores[k + 1] == E.Perform(c, call);
    var w := c.(transport := c.transport.(sends := call.sends, recvs := call.recvs, inbound := call.inbound));
    if c.dead.None? {
      TickNoticesTheEnd(w, call.now);
    } else {
      DeadTick(w, call.now);
      DeadTickKeepsDecoder(w, call.now);
      SpentNothing(call.recvs);
    }
    hide CoreTick; hide R.Valid; hide DecodeFrame; hide Init; hide ClosedBefore; hide BrokeBefore;
    hide Spent; hide Rest;
  }

  /** A connection that died between ticks says why in the next one. */
  lemma DeathIsReported(t: Transport, schema: Schema, config: Config, role: Role, now: nat,
                        cores: seq<Core>, calls: seq<E.Call>, k: nat)
    requires E.IsRun(cores, calls) && k < |calls| && Init(t, schema, config, role, now) == Some(cores[0])
    requires calls[k].TickCall? && cores[k].dead.Some? && Open(cores[k])
    ensures var c, c' := cores[k], cores[k + 1];
      && c'.dead == c.dead && c'.session.state == Closed
      && LastIs(c'.history.events, Disconnected(c.dead.value))
  {
    RunHasFates(t, schema, config, role, now, cores, calls, k);
    var call, c := calls[k], cores[k];
    assert cores[k + 1] == E.Perform(c, call);
    var w := c.(transport := c.transport.(sends := call.sends, recvs := call.recvs, inbound := call.inbound));
    DeadTick(w, call.now);
    hide CoreTick; hide R.Valid; hide Init; hide ClosedBefore; hide BrokeBefore;
  }

  // ---- No end without a cause --------------------------------------------------

  lemma {:induction false} EventsDisconnect(s: Session, inputs: seq<R.Input>, reason: Disconnect)
    requires Disconnected(reason) in S.EventsOf(s, inputs)
    ensures reason == Unresponsive || R.Lose(reason) in inputs
  {
    if inputs != [] {
      var before, last := inputs[..|inputs| - 1], inputs[|inputs| - 1];
      assert inputs == before + [last];
      if Disconnected(reason) in S.EventsOf(s, before) {
        EventsDisconnect(s, before, reason);
      } else {
        OneDisconnect(R.After(s, before), last, reason);
      }
    }
  }

  lemma OneDisconnect(s: Session, input: R.Input, reason: Disconnect)
    requires R.Respond(s, input).1.event == Some(Disconnected(reason))
    ensures reason == Unresponsive || input == R.Lose(reason)
  {
    if input.Hear? { E.FrameExplains(s, input.frame, input.now); HearingDisconnectsNobody(s, input.frame, input.now); }
    hide OnFrame;
  }

  lemma HearingDisconnectsNobody(s: Session, frame: Frame, now: nat)
    ensures var e := OnFrame(s, frame, now).1.event; e.Some? ==> !e.value.Disconnected?
  {
    hide ParseHello; hide ParseQuery; hide ParseReply; hide Decide; hide ReplyVerdict; hide Answers; hide Answerable;
    hide ReplyBytes; hide QueryBytes; hide Printed;
  }

  /** Every disconnection reported so far but for silence is what the connection died of. */
  ghost predicate Honest(c: Core) {
    forall reason | Disconnected(reason) in c.history.events :: reason == Unresponsive || c.dead == Some(reason)
  }

  lemma CallIsHonest(c: Core, c': Core, call: E.Call, inputs: seq<R.Input>)
    requires Honest(c) && S.CallTells(c, c', call, inputs) && (c.dead.Some? ==> c'.dead == c.dead)
    ensures Honest(c')
  {
    hide R.After; hide S.FramesOf; hide S.ControlOf; hide S.EventsOf;
    forall reason | Disconnected(reason) in c'.history.events
      ensures reason == Unresponsive || c'.dead == Some(reason)
    {
      if Disconnected(reason) !in c.history.events {
        EventsDisconnect(c.session, inputs, reason);
        if reason != Unresponsive && call.TickCall? { LoseIsDeath(c', inputs, call.now, reason); }
      }
    }
  }

  lemma LoseIsDeath(c: Core, inputs: seq<R.Input>, now: nat, reason: Disconnect)
    requires S.TickInputs(c, inputs, now) && R.Lose(reason) in inputs
    ensures c.dead == Some(reason)
  {
    var heard: seq<R.Input>, passed: bool, lost: bool :| S.Composed(c, inputs, now, heard, passed, lost);
  }

  lemma {:induction false} RunIsHonest(t: Transport, schema: Schema, config: Config, role: Role, now: nat,
                                       cores: seq<Core>, calls: seq<E.Call>, k: nat)
    requires E.IsRun(cores, calls) && k < |cores| && Init(t, schema, config, role, now) == Some(cores[0])
    ensures Honest(cores[k])
  {
    if k == 0 {
      E.NewbornIsTold(t, schema, config, role, now);
    } else {
      hide Honest; hide S.CallTells; hide Init; hide Fates; hide E.Perform;
      RunIsHonest(t, schema, config, role, now, cores, calls, k - 1);
      RunHasFates(t, schema, config, role, now, cores, calls, k - 1);
      var c, call := cores[k - 1], calls[k - 1];
      assert cores[k] == E.Perform(c, call);
      var inputs := S.CallIsTold(c, call);
      if c.dead.Some? { DeathIsFinal(t, cores, calls, k - 1); }
      CallIsHonest(c, cores[k], call, inputs);
    }
  }

  lemma DeathIsFinal(t: Transport, cores: seq<Core>, calls: seq<E.Call>, k: nat)
    requires E.IsRun(cores, calls) && k < |calls| && Fates(t, cores, calls, k) && cores[k].dead.Some?
    ensures cores[k + 1].dead == cores[k].dead
  {
    match calls[k]
    case TickCall(_, _, _, _) => TickCallFates(cores, calls, k);
    case SendCall(_, _, _) => SendCallFates(cores, calls, k);
    case CloseCall => assert cores[k + 1] == CoreClose(cores[k]);
    hide ClosedBefore; hide BrokeBefore;
  }

  /** No end without a cause: in every run, at every moment, a connection is dead of its
      peer's close iff some read or send has answered closed, and of an error iff one has
      answered broken or the stream was bad; and only then is that reported. */
  lemma EndingsHaveCauses(t: Transport, schema: Schema, config: Config, role: Role, now: nat,
                          cores: seq<Core>, calls: seq<E.Call>, k: nat)
    requires E.IsRun(cores, calls) && k < |cores| && Init(t, schema, config, role, now) == Some(cores[0])
    ensures var c := cores[k];
      && (c.dead == Some(PeerClosed) <==> ClosedBefore(t, cores, calls, k))
      && (c.dead == Some(TransportError) <==> BrokeBefore(t, cores, calls, k))
      && (Disconnected(PeerClosed) in c.history.events ==> ClosedBefore(t, cores, calls, k))
      && (Disconnected(TransportError) in c.history.events ==> BrokeBefore(t, cores, calls, k))
  {
    RunHasFates(t, schema, config, role, now, cores, calls, k);
    RunIsHonest(t, schema, config, role, now, cores, calls, k);
    hide Init; hide ClosedBefore; hide BrokeBefore; hide E.IsRun;
  }
}
