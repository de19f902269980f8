/** The invariant of one connection over a stream: nothing sent or received is lost,
    repeated or reordered, and messages are what was taken in while ready. */
module ConnectionRuns {
  import opened Bytes
  import opened Frame
  import opened Schema
  import opened Handshake
  import opened Session
  import opened Core
  import opened CoreLaws
  import D = StreamDecoder
  import R = SessionRuns

  type Payload = (u32, seq<byte>)

  /** The application data among the frames. */
  function DataOf(frames: seq<Frame>): seq<Payload> {
    if frames == [] then []
    else
      DataOf(frames[..|frames| - 1])
      + match frames[|frames| - 1] case Data(id, payload) => [(id, payload)] case _ => []
  }

  /** The application data among the events. */
  function MessagesOf(events: seq<Event>): seq<Payload> {
    if events == [] then []
    else
      MessagesOf(events[..|events| - 1])
      + match events[|events| - 1] case Message(id, payload) => [(id, payload)] case _ => []
  }

  lemma DataOfPush(frames: seq<Frame>, f: Frame)
    ensures DataOf(frames + [f]) == DataOf(frames) + match f case Data(id, payload) => [(id, payload)] case _ => []
  {
    assert (frames + [f])[..|frames|] == frames;
  }

  lemma MessagesOfPush(events: seq<Event>, e: Event)
    ensures MessagesOf(events + [e])
         == MessagesOf(events) + match e case Message(id, payload) => [(id, payload)] case _ => []
  {
    assert (events + [e])[..|events|] == events;
  }

  lemma {:induction false} DataOfAppend(a: seq<Frame>, b: seq<Frame>)
    ensures DataOf(a + b) == DataOf(a) + DataOf(b)
  {
    if b == [] {
      assert a + b == a;
    } else {
      var init, last := b[..|b| - 1], b[|b| - 1];
      DataOfAppend(a, init);
      DataOfPush(a + init, last);
      assert a + b == a + init + [last];
    }
  }

  /** All frames taken in, in order. */
  function Consumed(h: History): seq<Frame> {
    h.early + h.live + h.late
  }

  /** The bytes received are the frames taken in and what is still buffered. */
  ghost predicate Accounted(c: Core) {
    && c.transport.received == EncodeAll(Consumed(c.history)) + c.decoder.buffer
    && forall f | f in Consumed(c.history) :: Encodable(f)
  }

  /** The messages reported are the data frames taken in while ready. */
  predicate Reported(c: Core) {
    MessagesOf(c.history.events) == DataOf(c.history.live)
  }

  // ---- Who may send data, and when ---------------------------------------------

  const ACCEPT: Frame := Handshake([0])

  ghost predicate DataAfterAccept(frames: seq<Frame>) {
    forall i | 0 <= i < |frames| && frames[i].Data? :: ACCEPT in frames[..i]
  }

  /** A client is ready, and sends data, only once it has taken in an acceptance -
      the last frame it takes in while handshaking. */
  predicate ClientKeeps(c: Core) {
    && (c.session.state == Ready ==> ACCEPT in c.history.early)
    && (DataOf(c.history.committed) != [] ==> ACCEPT in c.history.early)
    && (ACCEPT in c.history.early ==> c.session.state != Handshaking)
    && (c.history.early != [] ==> ACCEPT !in c.history.early[..|c.history.early| - 1])
  }

  /** A server commits an acceptance when it becomes ready, and data only after it. */
  ghost predicate ServerKeeps(c: Core) {
    && DataAfterAccept(c.history.committed)
    && (c.session.state == Ready && c.dead.None? ==> ACCEPT in c.history.committed)
    && (ACCEPT in c.history.committed ==> c.session.state != Handshaking)
  }

  ghost predicate VerdictKept(c: Core) {
    if c.session.role.Client? then ClientKeeps(c) else ServerKeeps(c)
  }

  /** Everything but the account of received bytes, which a step restores at its end. */
  ghost predicate Steady(c: Core) {
    Sound(c) && StreamLike(c.transport) && Conserved(c) && Reported(c) && VerdictKept(c)
  }

  ghost predicate Inv(c: Core) {
    Steady(c) && Accounted(c)
  }

  /** How a connection may change between two moments without sending data. */
  predicate Progress(c: Core, c': Core) {
    && c'.session.role == c.session.role && c'.session.schema == c.session.schema
    && c'.session.config == c.session.config
    && (c.session.state != Handshaking ==> c'.session.state != Handshaking && c'.history.early == c.history.early)
    && (c'.session.state == Ready ==> c.session.state != Closed)
    && c.transport.accepted <= c'.transport.accepted
    && c.transport.received + c.transport.inbound == c'.transport.received + c'.transport.inbound
    && DataOf(c'.history.committed) == DataOf(c.history.committed)
    && (c.dead.Some? ==> c'.dead.Some?)
  }

  lemma ProgressComposes(a: Core, b: Core, c: Core)
    requires Progress(a, b) && Progress(b, c)
    ensures Progress(a, c)
  {
    hide DataOf;
  }

  // ---- The facts about the session that matter here ----------------------------

  /** An acceptance is what makes a client ready, and what a server sends when it is. */
  lemma VerdictFacts(s: Session, frame: Frame, now: nat)
    ensures var (s', reaction) := OnFrame(s, frame, now);
      && (s.role.Client? && s.state == Handshaking ==> (s'.state == Ready <==> frame == ACCEPT))
      && (s.role.Server? && s.state == Handshaking && s'.state == Ready ==> reaction.out == OutHandshake([0]))
      && (s.role.Server? && reaction.out == OutHandshake([0]) ==> s'.state != Handshaking)
  {
    if s.state == Handshaking && frame.Handshake? {
      var heard := s.(lastActivityMs := now, probing := false);
      ClientVerdictFacts(heard, frame.payload);
      ServerVerdictFacts(heard, frame.payload);
    }
    hide ClientHandshake; hide ServerHandshake;
  }

  lemma ClientVerdictFacts(s: Session, payload: seq<byte>)
    requires s.state == Handshaking
    ensures ClientHandshake(s, payload).0.state == Ready <==> payload == [0]
  {
    hide ParseQuery; hide Answers; hide Answerable; hide ReplyBytes;
    assert |payload| == 1 && payload[0] == 0 ==> payload == [0];
  }

  lemma ServerVerdictFacts(s: Session, payload: seq<byte>)
    requires s.state == Handshaking
    ensures var (s', reaction) := ServerHandshake(s, payload);
      && (s'.state == Ready ==> reaction.out == OutHandshake([0]))
      && (reaction.out == OutHandshake([0]) ==> s'.state != Handshaking)
  {
    hide ParseHello; hide ParseReply; hide Decide; hide ReplyVerdict; hide Rows;
  }

  /** A message is reported exactly for data heard while ready. */
  lemma EventFacts(s: Session, frame: Frame, now: nat)
    ensures var (s', reaction) := OnFrame(s, frame, now);
      && (reaction.event.Some? && reaction.event.value.HandshakeFailed? ==> s'.state == Closed)
      && (if frame.Data? && s.state == Ready
          then reaction.event == Some(Message(frame.id, frame.payload))
          else reaction.event.Some? ==> !reaction.event.value.Message?)
  {
    if s.state == Handshaking && frame.Handshake? {
      var heard := s.(lastActivityMs := now, probing := false);
      HandshakeEvents(heard, frame.payload);
    }
    hide ClientHandshake; hide ServerHandshake;
  }

  lemma HandshakeEvents(s: Session, payload: seq<byte>)
    ensures forall p | p == ClientHandshake(s, payload) || p == ServerHandshake(s, payload) ::
      p.1.event.Some? ==>
        !p.1.event.value.Message? && (p.1.event.value.HandshakeFailed? ==> p.0.state == Closed)
  {
    hide ParseHello; hide ParseQuery; hide ParseReply; hide Decide; hide ReplyVerdict; hide Answers; hide Answerable;
    hide ReplyBytes; hide QueryBytes; hide Printed;
  }

  // ---- Applying a reaction -----------------------------------------------------

  /** Only the outgoing side, the event log and the shutdown flag have moved. */
  predicate Applied(c: Core, reaction: Reaction, c': Core) {
    var frame := FrameOf(reaction.out, c.scratchCap);
    && c' == c.(transport := c.transport.(sends := c'.transport.sends, accepted := c'.transport.accepted,
                                          shut := c'.transport.shut),
                outbox := c'.outbox, dead := c'.dead,
                history := c.history.(committed := c'.history.committed,
                                      events := c.history.events + OneEvent(reaction.event)))
    && StreamLike(c'.transport) && Conserved(c')
    && c.transport.accepted <= c'.transport.accepted
    && (c.dead.Some? ==> c'.dead.Some?)
    && (c'.history.committed == c.history.committed
        || (frame.Some? && c'.history.committed == c.history.committed + [frame.value]))
    && (c'.dead.None? && reaction.out != NoOut ==>
          frame.Some? && c'.history.committed == c.history.committed + [frame.value])
  }

  lemma ApplyKeeps(c: Core, reaction: Reaction)
    requires StreamLike(c.transport) && Conserved(c) && Sound(c) && Roomy(c, reaction.out)
    ensures Applied(c, reaction, Apply(c, reaction))
  {
    hide EmitOut; hide EncodeAll; hide Sound;
    EmitOutConserves(c, reaction.out);
    var c' := EmitOut(c, reaction.out);
    match reaction.event
    case None => assert c.history.events + [] == c.history.events;
    case Some(event) =>
      var pushed := Push(c', event);
      assert Conserved(pushed);
      ShutdownConserves(pushed);
  }

  // ---- One frame ---------------------------------------------------------------

  /** The connection as the session has just heard a frame, nothing sent yet. */
  function Heard(c: Core, frame: Frame, now: nat): Core {
    c.(session := OnFrame(c.session, frame, now).0, history := Note(c.history, c.session.state, frame))
  }

  lemma HeardIsSound(c: Core, frame: Frame, now: nat)
    requires Sound(c) && StreamLike(c.transport) && Conserved(c)
    ensures var c' := Heard(c, frame, now);
      && Sound(c') && StreamLike(c'.transport) && Conserved(c')
      && Roomy(c', OnFrame(c.session, frame, now).1.out)
      && R.Forward(c.session, c'.session)
  {
    R.StepIsForward(c.session, R.Hear(frame, now));
    R.PayloadsFit(c.session, R.Hear(frame, now));
    hide OnFrame; hide HelloLen; hide ScratchSize;
  }

  lemma NotHandshake(out: Out, scratchCap: nat)
    ensures var f := FrameOf(out, scratchCap);
      f.Some? ==> !f.value.Data? && (f.value == ACCEPT <==> out == OutHandshake([0]))
  {
  }

  lemma PushControl(frames: seq<Frame>, f: Frame)
    requires !f.Data?
    ensures DataOf(frames + [f]) == DataOf(frames)
    ensures DataAfterAccept(frames) ==> DataAfterAccept(frames + [f])
  {
    DataOfPush(frames, f);
    var all := frames + [f];
    if DataAfterAccept(frames) {
      forall i | 0 <= i < |all| && all[i].Data? ensures ACCEPT in all[..i] {
        assert all[..i] == frames[..i];
      }
    }
  }

  /** Control frames change neither the data committed nor its place. */
  lemma CommittedStaysTidy(c: Core, reaction: Reaction, c': Core)
    requires Applied(c, reaction, c')
    ensures DataOf(c'.history.committed) == DataOf(c.history.committed)
    ensures DataAfterAccept(c.history.committed) ==> DataAfterAccept(c'.history.committed)
    ensures ACCEPT in c'.history.committed ==> ACCEPT in c.history.committed || reaction.out == OutHandshake([0])
    ensures ACCEPT in c.history.committed ==> ACCEPT in c'.history.committed
    ensures c'.dead.None? && reaction.out == OutHandshake([0]) ==> ACCEPT in c'.history.committed
  {
    hide DataAfterAccept; hide Conserved; hide DataOf;
    var frame := FrameOf(reaction.out, c.scratchCap);
    NotHandshake(reaction.out, c.scratchCap);
    hide FrameOf;
    if frame.Some? { PushControl(c.history.committed, frame.value); }
  }

  lemma ClientStillKeeps(c: Core, frame: Frame, now: nat, c': Core)
    requires c.session.role.Client? && ClientKeeps(c) && R.Valid(c.session)
    requires Applied(Heard(c, frame, now), OnFrame(c.session, frame, now).1, c')
    ensures ClientKeeps(c')
  {
    VerdictFacts(c.session, frame, now);
    R.StepIsForward(c.session, R.Hear(frame, now));
    CommittedStaysTidy(Heard(c, frame, now), OnFrame(c.session, frame, now).1, c');
    hide OnFrame; hide DataOf; hide Conserved;
    if c.session.state == Handshaking {
      assert c'.history.early == c.history.early + [frame];
      assert c'.history.early[..|c.history.early|] == c.history.early;
    }
  }

  lemma ServerStillKeeps(c: Core, frame: Frame, now: nat, c': Core)
    requires c.session.role.Server? && ServerKeeps(c) && R.Valid(c.session)
    requires Applied(Heard(c, frame, now), OnFrame(c.session, frame, now).1, c')
    ensures ServerKeeps(c')
  {
    VerdictFacts(c.session, frame, now);
    R.StepIsForward(c.session, R.Hear(frame, now));
    CommittedStaysTidy(Heard(c, frame, now), OnFrame(c.session, frame, now).1, c');
    hide OnFrame; hide DataOf; hide Conserved; hide DataAfterAccept;
  }

  lemma StillReported(c: Core, frame: Frame, now: nat, c': Core)
    requires Reported(c) && Applied(Heard(c, frame, now), OnFrame(c.session, frame, now).1, c')
    ensures Reported(c')
  {
    EventFacts(c.session, frame, now);
    hide OnFrame; hide Conserved; hide MessagesOf; hide DataOf;
    var event := OnFrame(c.session, frame, now).1.event;
    if event.Some? {
      MessagesOfPush(c.history.events, event.value);
    } else {
      assert c.history.events + [] == c.history.events;
    }
    DataOfPush(c.history.live, frame);
  }

  /** A frame heard keeps everything steady and is filed where it belongs. */
  lemma TakeInKeeps(c: Core, frame: Frame, now: nat)
    requires Steady(c)
    ensures var c' := TakeIn(c, frame, now);
      && Steady(c') && Progress(c, c') && c'.decoder == c.decoder
      && c'.transport.received == c.transport.received
      && Consumed(c'.history) == Consumed(c.history) + [frame]
  {
    var reaction := OnFrame(c.session, frame, now).1;
    var heard := Heard(c, frame, now);
    var c' := TakeIn(c, frame, now);
    HeardIsSound(c, frame, now);
    ApplyKeeps(heard, reaction);
    hide Apply; hide OnFrame; hide DataAfterAccept; hide Conserved; hide Sound;
    StillReported(c, frame, now, c');
    CommittedStaysTidy(heard, reaction, c');
    SoundCarries(heard, reaction, c');
    NoteAppends(c, frame);
    if c.session.role.Client? { ClientStillKeeps(c, frame, now, c'); } else { ServerStillKeeps(c, frame, now, c'); }
  }

  lemma SoundCarries(c: Core, reaction: Reaction, c': Core)
    requires Sound(c) && Applied(c, reaction, c')
    ensures Sound(c')
  {
    hide Conserved;
  }

  lemma NoteAppends(c: Core, frame: Frame)
    requires Sound(c)
    ensures Consumed(Note(c.history, c.session.state, frame)) == Consumed(c.history) + [frame]
  {
  }
}
