/** Every operation of a connection keeps its invariant. */
module ConnectionSteps {
  import opened Bytes
  import opened Frame
  import opened Schema
  import opened Handshake
  import opened Session
  import opened Core
  import opened CoreLaws
  import opened ConnectionRuns
  import D = StreamDecoder
  import R = SessionRuns

  // ---- Draining ----------------------------------------------------------------

  lemma Regroup<T>(a: seq<T>, b: seq<T>, k: nat)
    requires k <= |b|
    ensures a + b == (a + b[..k]) + b[k..]
  {
    assert b[..k] + b[k..] == b;
  }

  lemma NextIsAtFront(d: D.State, frame: Frame, used: nat)
    requires D.NextResult(d) == Decoded(frame, used)
    ensures 0 < used <= |d.buffer| && EncodeFrame(frame) == d.buffer[..used] && Encodable(frame)
    ensures D.Advance(d, used).buffer == d.buffer[used..]
  {
    EncodeOfDecode(d.buffer, d.limit);
    hide DecodeFrame; hide EncodeFrame;
  }

  lemma TakeOffBuffer(c: Core, c': Core, used: nat, frame: Frame)
    requires Accounted(c) && D.NextResult(c.decoder) == Decoded(frame, used)
    requires c'.decoder == c.decoder && c'.transport.received == c.transport.received
    requires Consumed(c'.history) == Consumed(c.history) + [frame]
    ensures Accounted(c'.(decoder := D.Advance(c'.decoder, used)))
  {
    hide EncodeFrame; hide EncodeAll; hide Encodable; hide Consumed; hide D.NextResult; hide D.Advance;
    NextIsAtFront(c.decoder, frame, used);
    EncodeAllPush(Consumed(c.history), frame);
    Regroup(EncodeAll(Consumed(c.history)), c.decoder.buffer, used);
  }

  lemma DecoderChangeIsSteady(c: Core, decoder: D.State)
    requires Steady(c) && decoder.limit == c.decoder.limit
    ensures Steady(c.(decoder := decoder)) && Progress(c, c.(decoder := decoder))
  {
    hide DataOf; hide MessagesOf; hide DataAfterAccept; hide EncodeAll;
  }

  lemma KillIsSteady(c: Core, reason: Disconnect)
    requires Inv(c)
    ensures Inv(Kill(c, reason)) && Progress(c, Kill(c, reason))
  {
    hide DataOf; hide MessagesOf; hide DataAfterAccept; hide EncodeAll;
  }

  lemma RecvFacts(t: Transport, cap: nat)
    ensures var (t', result) := TransportRecv(t, cap);
      var bytes := match result case Received(b) => b case _ => [];
      && t' == t.(recvs := t'.recvs, inbound := t'.inbound, received := t.received + bytes)
      && t.received + t.inbound == t'.received + t'.inbound
  {
    assert t.received + [] == t.received;
    forall k | 0 <= k <= |t.inbound|
      ensures t.received + t.inbound == (t.received + t.inbound[..k]) + t.inbound[k..]
    {
      assert t.inbound == t.inbound[..k] + t.inbound[k..];
    }
  }

  lemma ReceiveKeeps(c: Core, now: nat)
    requires Inv(c)
    ensures Inv(Receive(c, now).0) && Progress(c, Receive(c, now).0)
  {
    RecvFacts(c.transport, c.recvCap);
    hide TransportRecv; hide DataOf; hide MessagesOf; hide DataAfterAccept; hide EncodeAll; hide Sound; hide TakeIn;
    hide Encodable;
    var (t, result) := TransportRecv(c.transport, c.recvCap);
    if result.Received? {
      var before := EncodeAll(Consumed(c.history));
      assert (before + c.decoder.buffer) + result.bytes == before + (c.decoder.buffer + result.bytes);
    } else {
      assert c.transport.received + [] == c.transport.received;
    }
    TransportChangeIsSound(c, t, if result.NeedCapacity? then Max(result.needed, c.recvCap) else c.recvCap,
                           if result.Received? then D.Feed(c.decoder, result.bytes) else c.decoder);
  }

  lemma TransportChangeIsSound(c: Core, t: Transport, recvCap: nat, decoder: D.State)
    requires Sound(c) && decoder.limit == c.decoder.limit
    ensures forall d :: Sound(c.(transport := t, recvCap := recvCap, decoder := decoder, dead := d))
  {
  }

  lemma DrainStepKeeps(c: Core, now: nat)
    requires Inv(c)
    ensures Inv(DrainStep(c, now).0) && Progress(c, DrainStep(c, now).0)
  {
    hide TakeIn; hide Receive; hide Steady; hide Progress; hide Accounted; hide Consumed; hide DecodeFrame;
    assert c.transport.stream by { StreamOf(c); }
    match D.NextResult(c.decoder)
    case Decoded(frame, used) =>
      var c' := TakeIn(c, frame, now);
      TakeInKeeps(c, frame, now);
      TakeOffBuffer(c, c', used, frame);
      DecoderChangeIsSteady(c', D.Advance(c'.decoder, used));
      ProgressComposes(c, c', c'.(decoder := D.Advance(c'.decoder, used)));
    case Bad(_) =>
      var c' := c.(decoder := D.AfterNext(c.decoder));
      DecoderChangeIsSteady(c, D.AfterNext(c.decoder));
      PoisonKeepsAccount(c);
      KillIsSteady(c', TransportError);
      ProgressComposes(c, c', Kill(c', TransportError));
    case Incomplete => ReceiveKeeps(c, now);
  }

  lemma StreamOf(c: Core)
    requires Steady(c)
    ensures c.transport.stream
  {
  }

  lemma PoisonKeepsAccount(c: Core)
    requires Accounted(c)
    ensures Accounted(c.(decoder := D.AfterNext(c.decoder)))
  {
  }

  lemma {:induction false} DrainKeeps(c: Core, now: nat, frames: nat, turns: nat)
    requires Inv(c)
    ensures Inv(Drain(c, now, frames, turns)) && Progress(c, Drain(c, now, frames, turns))
    decreases frames + turns
  {
    hide DrainStep; hide Inv; hide Progress;
    ProgressIsReflexive(c);
    if frames != 0 && turns != 0 && c.dead.None? {
      DrainStepKeeps(c, now);
      var (c', use) := DrainStep(c, now);
      match use
      case UsedFrame =>
        DrainKeeps(c', now, frames - 1, turns);
        ProgressComposes(c, c', Drain(c', now, frames - 1, turns));
      case UsedRead =>
        DrainKeeps(c', now, frames, turns - 1);
        ProgressComposes(c, c', Drain(c', now, frames, turns - 1));
      case Stop =>
    }
  }

  lemma ProgressIsReflexive(c: Core)
    ensures Progress(c, c)
  {
    hide DataOf;
  }

  // ---- The other parts of a tick -----------------------------------------------

  lemma PushIsSteady(c: Core, event: Event)
    requires Inv(c) && !event.Message?
    ensures Inv(Push(c, event)) && Progress(c, Push(c, event))
  {
    MessagesOfPush(c.history.events, event);
    hide DataOf; hide MessagesOf; hide DataAfterAccept; hide EncodeAll;
  }

  lemma AnnounceKeeps(c: Core)
    requires Inv(c)
    ensures Inv(Announce(c)) && Progress(c, Announce(c))
  {
    hide Push; hide DataOf; hide MessagesOf; hide DataAfterAccept; hide EncodeAll; hide Sound; hide Conserved;
    hide Accounted;
    if !c.announced {
      AnnouncedIsSame(c);
      ProgressIsReflexive(c);
      PushIsSteady(c.(announced := true), Connected);
      ProgressComposes(c, c.(announced := true), Announce(c));
    } else {
      ProgressIsReflexive(c);
    }
  }

  lemma AnnouncedIsSame(c: Core)
    requires Inv(c)
    ensures Inv(c.(announced := true)) && Progress(c, c.(announced := true))
  {
    hide DataOf; hide MessagesOf; hide DataAfterAccept; hide EncodeAll;
  }

  lemma FlushKeeps(c: Core)
    requires Inv(c) && c.dead.None?
    ensures Inv(Flush(c)) && Progress(c, Flush(c))
  {
    FlushConserves(c);
    hide Flush; hide DataOf; hide MessagesOf; hide DataAfterAccept; hide EncodeAll; hide Conserved;
  }

  /** Reactions that report no message and are sent without hearing anything. */
  predicate Quiet(reaction: Reaction) {
    && (reaction.event.Some? ==> !reaction.event.value.Message?)
    && (reaction.out == NoOut || reaction.out == OutProbe)
  }

  /** The session has stayed where it was, or closed. */
  predicate Lingers(s: Session, s': Session) {
    && s'.role == s.role && s'.schema == s.schema && s'.config == s.config
    && (s'.state == s.state || s'.state == Closed)
  }

  lemma QuietIsReported(c: Core, s: Session, reaction: Reaction, c': Core)
    requires Reported(c) && Quiet(reaction) && Applied(c.(session := s), reaction, c')
    ensures Reported(c')
  {
    hide DataOf; hide MessagesOf; hide Conserved;
    if reaction.event.Some? {
      MessagesOfPush(c.history.events, reaction.event.value);
    } else {
      assert c.history.events + [] == c.history.events;
    }
  }

  lemma QuietKeepsVerdict(c: Core, s: Session, reaction: Reaction, c': Core)
    requires VerdictKept(c) && Quiet(reaction) && Lingers(c.session, s)
    requires Applied(c.(session := s), reaction, c')
    ensures VerdictKept(c') && DataOf(c'.history.committed) == DataOf(c.history.committed)
  {
    CommittedStaysTidy(c.(session := s), reaction, c');
    hide DataOf; hide DataAfterAccept; hide Conserved;
  }

  lemma QuietKeepsAccount(c: Core, s: Session, reaction: Reaction, c': Core)
    requires Accounted(c) && Applied(c.(session := s), reaction, c')
    ensures Accounted(c')
  {
    hide Conserved; hide EncodeAll; hide Encodable;
  }

  lemma QuietProgress(c: Core, s: Session, reaction: Reaction, c': Core)
    requires Lingers(c.session, s) && Applied(c.(session := s), reaction, c')
    requires DataOf(c'.history.committed) == DataOf(c.history.committed)
    ensures Progress(c, c')
  {
    hide Conserved; hide DataOf;
  }

  lemma LingeringIsSound(c: Core, s: Session, out: Out)
    requires Sound(c) && Conserved(c) && R.Valid(s) && Lingers(c.session, s) && (out == NoOut || out == OutProbe)
    ensures var c1 := c.(session := s); Sound(c1) && Conserved(c1) && Roomy(c1, out)
  {
    hide EncodeAll; hide HelloLen; hide ScratchSize;
  }

  lemma QuietApplyKeeps(c: Core, s: Session, reaction: Reaction)
    requires Inv(c) && Quiet(reaction) && R.Valid(s) && Lingers(c.session, s)
    ensures var c' := Apply(c.(session := s), reaction); Inv(c') && Progress(c, c')
  {
    hide Apply; hide Sound; hide Conserved; hide Reported; hide VerdictKept; hide Accounted; hide Lingers;
    hide Progress;
    var c1 := c.(session := s);
    var c' := Apply(c1, reaction);
    LingeringIsSound(c, s, reaction.out);
    ApplyKeeps(c1, reaction);
    SoundCarries(c1, reaction, c');
    QuietIsReported(c, s, reaction, c');
    QuietKeepsVerdict(c, s, reaction, c');
    QuietKeepsAccount(c, s, reaction, c');
    QuietProgress(c, s, reaction, c');
  }

  lemma TickSessionKeeps(c: Core, now: nat)
    requires Inv(c)
    ensures Inv(TickSession(c, now)) && Progress(c, TickSession(c, now))
  {
    var (s, reaction) := Tick(c.session, now);
    assert R.Valid(c.session);
    R.StepIsForward(c.session, R.Pass(now));
    assert Quiet(reaction) && Lingers(c.session, s);
    hide Tick; hide Apply; hide Inv; hide Progress;
    QuietApplyKeeps(c, s, reaction);
  }

  lemma BuryKeeps(c: Core)
    requires Inv(c)
    ensures Inv(Bury(c)) && Progress(c, Bury(c))
  {
    ProgressIsReflexive(c);
    if c.dead.Some? && c.session.state != Closed {
      var (s, reaction) := TransportClosed(c.session, c.dead.value);
      assert R.Valid(c.session);
      R.StepIsForward(c.session, R.Lose(c.dead.value));
      hide Apply; hide Inv; hide Progress;
      QuietApplyKeeps(c, s, reaction);
    }
  }

  /** A tick, with whatever the transport answers, keeps the invariant. */
  lemma CoreTickKeeps(c: Core, now: nat)
    requires Inv(c)
    ensures Inv(CoreTick(c, now)) && Progress(c, CoreTick(c, now))
  {
    hide Inv; hide Progress; hide Announce; hide Flush; hide Drain; hide TickSession; hide Bury;
    var c1 := Announce(c);
    AnnounceKeeps(c);
    var c2 := FlushIfAlive(c1);
    if c1.dead.None? { FlushKeeps(c1); } else { ProgressIsReflexive(c1); }
    var c3 := DrainIfAlive(c2, now);
    if c2.dead.None? {
      DrainKeeps(c2, now, c2.session.config.maxFramesPerTick, c2.session.config.maxFramesPerTick);
    } else {
      ProgressIsReflexive(c2);
    }
    var c4 := TickIfAlive(c3, now);
    if c3.dead.None? { TickSessionKeeps(c3, now); } else { ProgressIsReflexive(c3); }
    BuryKeeps(c4);
    ProgressComposes(c, c1, c2);
    ProgressComposes(c, c2, c3);
    ProgressComposes(c, c3, c4);
    ProgressComposes(c, c4, Bury(c4));
  }

  // ---- Sending, closing, starting ----------------------------------------------

  /** The checks before the write leave only sendable frames. */
  lemma CoreSendCases(c: Core, id: u32, payload: seq<byte>)
    requires Sound(c)
    ensures var (c', result) := CoreSend(c, id, payload);
      || (c' == c && result != Ok)
      || (&& (c', result) == WriteFrame(c, Data(id, payload)) && Sendable(c, Data(id, payload))
          && c.session.state == Ready && c.dead.None? && c.outbox == [])
  {
    hide WriteFrame; hide HelloLen;
  }

  /** What a send does to the history. */
  predicate SendRecorded(c: Core, id: u32, payload: seq<byte>, c': Core, result: Result) {
    && OnlySent(c, c') && Conserved(c')
    && c'.history.committed == c.history.committed + (if result == Ok then [Data(id, payload)] else [])
  }

  lemma CoreSendRecords(c: Core, id: u32, payload: seq<byte>)
    requires Inv(c)
    ensures var (c', result) := CoreSend(c, id, payload);
      SendRecorded(c, id, payload, c', result) && (result == Ok ==> c.session.state == Ready && c.dead.None?)
  {
    CoreSendCases(c, id, payload);
    hide CoreSend; hide WriteFrame; hide EncodeAll; hide Sound; hide Reported; hide VerdictKept; hide Accounted;
    var (c', result) := CoreSend(c, id, payload);
    if c' == c && result != Ok {
      assert c.history.committed + [] == c.history.committed;
    } else {
      WriteFrameConserves(c, Data(id, payload));
    }
  }

  lemma SendKeepsVerdict(c: Core, id: u32, payload: seq<byte>, c': Core, result: Result)
    requires VerdictKept(c) && SendRecorded(c, id, payload, c', result)
    requires result == Ok ==> c.session.state == Ready && c.dead.None?
    ensures VerdictKept(c')
    ensures DataOf(c'.history.committed) == DataOf(c.history.committed) + (if result == Ok then [(id, payload)] else [])
  {
    hide DataOf; hide DataAfterAccept; hide Conserved;
    var frame := Data(id, payload);
    DataOfPush(c.history.committed, frame);
    DataAfterReady(c.history.committed, frame);
    assert DataOf(c.history.committed) + [] == DataOf(c.history.committed);
    assert c.history.committed + [] == c.history.committed;
    assert frame != ACCEPT;
  }

  lemma SendKeepsRest(c: Core, id: u32, payload: seq<byte>, c': Core, result: Result)
    requires Inv(c) && SendRecorded(c, id, payload, c', result)
    ensures Sound(c') && Reported(c') && Accounted(c') && StreamLike(c'.transport)
  {
    hide DataOf; hide MessagesOf; hide DataAfterAccept; hide EncodeAll; hide Conserved; hide Encodable;
  }

  /** A send that returns OK has committed exactly this payload; any other has
      committed nothing. */
  lemma CoreSendKeeps(c: Core, id: u32, payload: seq<byte>)
    requires Inv(c)
    ensures var (c', result) := CoreSend(c, id, payload);
      && Inv(c') && OnlySent(c, c')
      && DataOf(c'.history.committed) == DataOf(c.history.committed) + (if result == Ok then [(id, payload)] else [])
  {
    hide CoreSend; hide Sound; hide Conserved; hide Reported; hide VerdictKept; hide Accounted; hide DataOf;
    var (c', result) := CoreSend(c, id, payload);
    CoreSendRecords(c, id, payload);
    SendKeepsVerdict(c, id, payload, c', result);
    SendKeepsRest(c, id, payload, c', result);
  }

  lemma DataAfterReady(frames: seq<Frame>, frame: Frame)
    ensures DataAfterAccept(frames) && ACCEPT in frames ==> DataAfterAccept(frames + [frame])
  {
    var all := frames + [frame];
    if DataAfterAccept(frames) && ACCEPT in frames {
      forall i | 0 <= i < |all| && all[i].Data? ensures ACCEPT in all[..i] {
        assert all[..i] == frames[..i];
      }
    }
  }

  lemma CoreCloseKeeps(c: Core)
    requires Inv(c)
    ensures Inv(CoreClose(c)) && Progress(c, CoreClose(c))
  {
    hide DataOf; hide MessagesOf; hide DataAfterAccept; hide Conserved; hide EncodeAll; hide Encodable; hide Consumed;
    var c1 := c.(session := Close(c.session));
    assert Conserved(c1) by { SessionIsNoMatter(c, Close(c.session)); }
    ShutdownConserves(c1);
    assert Sound(c1);
  }

  lemma SessionIsNoMatter(c: Core, s: Session)
    requires Conserved(c)
    ensures Conserved(c.(session := s))
  {
    hide EncodeAll;
  }

  /** A fresh connection satisfies the invariant, whatever becomes of its hello. */
  lemma InitKeeps(t: Transport, schema: Schema, config: Config, role: Role, now: nat)
    requires WellFormed(schema) && HelloLen(schema) <= MAX_HANDSHAKE_PAYLOAD && StreamLike(t)
    requires t.accepted == [] && t.received == [] && !t.shut
    ensures Init(t, schema, config, role, now).Some?
    ensures var c := Init(t, schema, config, role, now).value;
      && Inv(c) && c.session == Create(role, schema, config, now).0
      && c.history.early == [] && c.history.events == []
      && DataOf(c.history.committed) == [] && c.transport.received == [] && c.transport.inbound == t.inbound
  {
    var (session, opening) := Create(role, schema, config, now);
    var newborn := Newborn(t, schema, config, role, now);
    if role.Client? { R.HelloFits(schema, config, now); }
    assert Conserved(newborn) && Sound(newborn) && Roomy(newborn, opening.out);
    EmitOutConserves(newborn, opening.out);
    var c := EmitOut(newborn, opening.out);
    HelloIsNoVerdict(newborn, role, schema, config, now);
    hide EmitOut; hide HelloBytes; hide Conserved; hide EncodeAll;
  }

  lemma HelloIsNoVerdict(c: Core, role: Role, schema: Schema, config: Config, now: nat)
    requires c.history.committed == []
    requires StreamLike(c.transport) && Conserved(c) && Sound(c) && Roomy(c, Create(role, schema, config, now).1.out)
    ensures var c' := EmitOut(c, Create(role, schema, config, now).1.out);
      && DataOf(c'.history.committed) == [] && DataAfterAccept(c'.history.committed)
      && (role.Server? ==> c'.history.committed == [])
  {
    var out := Create(role, schema, config, now).1.out;
    EmitOutConserves(c, out);
    hide EmitOut; hide HelloBytes; hide Conserved;
    NotHandshake(out, c.scratchCap);
    if out != NoOut { PushControl([], FrameOf(out, c.scratchCap).value); }
  }
}
