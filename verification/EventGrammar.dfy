/** The order of the events a connection reports, over every run and over both kinds
    of transport, whatever the transport does. */
module EventGrammar {
  import opened Bytes
  import opened Frame
  import opened Schema
  import opened Handshake
  import opened Session
  import opened Core
  import D = StreamDecoder
  import R = SessionRuns

  // ---- The grammar -------------------------------------------------------------

  predicate Terminal(e: Event) {
    e.HandshakeFailed? || e.Disconnected?
  }

  /** CONNECTED first and only first; READY, if at all, second; traffic only after
      READY; one terminal event, last, and a failed handshake only without READY. */
  ghost predicate InGrammar(events: seq<Event>) {
    forall i | 0 <= i < |events| ::
      match events[i]
      case Connected => i == 0
      case BecameReady => i == 1
      case HandshakeFailed(_) => i == 1 == |events| - 1
      case Disconnected(_) => 1 <= i == |events| - 1 && (i == 1 || events[1] == BecameReady)
      case _ => i >= 2 && events[1] == BecameReady
  }

  predicate Ended(events: seq<Event>) {
    events != [] && Terminal(events[|events| - 1])
  }

  predicate SaidReady(events: seq<Event>) {
    |events| >= 2 && events[1] == BecameReady
  }

  /** The next event a connection may report. */
  predicate MayFollow(events: seq<Event>, e: Event) {
    match e
    case Connected => events == []
    case BecameReady => |events| == 1
    case HandshakeFailed(_) => |events| == 1
    case Disconnected(_) => |events| == 1 || SaidReady(events)
    case _ => SaidReady(events)
  }

  lemma GrammarGrows(events: seq<Event>, e: Event)
    requires InGrammar(events) && !Ended(events) && MayFollow(events, e)
    ensures InGrammar(events + [e]) && (Ended(events + [e]) <==> Terminal(e))
  {
    var all := events + [e];
    forall i | 0 <= i < |events| ensures all[i] == events[i] && (Terminal(events[i]) ==> i != |events| - 1) {}
  }

  // ---- The invariant -----------------------------------------------------------

  /** What is known of the past of a connection: whether the application has closed
      it, how far its state and its events had come at some moment. */
  datatype Mark = Mark(left: bool, rank: nat, past: seq<Event>)

  /** From the mark on, state and events have only moved on; a closed and announced
      connection has said its last. */
  predicate Onward(c: Core, mark: Mark) {
    && mark.rank <= R.Rank(c.session.state)
    && mark.past <= c.history.events
    && (mark.rank == R.Rank(Closed) && mark.past != [] ==> c.history.events == mark.past)
  }

  /** How far the events have come says where the session is. */
  ghost predicate Told(c: Core, mark: Mark) {
    var events := c.history.events;
    && R.Valid(c.session)
    && InGrammar(events)
    && (c.announced <==> events != [])
    && (c.session.state == Handshaking ==> |events| <= 1)
    && (c.session.state == Ready ==> SaidReady(events))
    && (c.session.state == Closed <==> Ended(events) || mark.left)
    && Onward(c, mark)
  }

  /** What a reaction's event says about the step that caused it. */
  predicate Explained(s: Session, event: Option<Event>, s': Session) {
    match event
    case None => s'.state == s.state
    case Some(e) =>
      match e
      case Connected => false
      case BecameReady => s.state == Handshaking && s'.state == Ready
      case HandshakeFailed(_) => s.state == Handshaking && s'.state == Closed
      case Disconnected(_) => s.state != Closed && s'.state == Closed
      case _ => s.state == Ready && s'.state == Ready
  }

  lemma ClientExplains(s: Session, payload: seq<byte>)
    requires s.state == Handshaking
    ensures var (s', r) := ClientHandshake(s, payload); Explained(s, r.event, s')
  {
    hide ParseQuery; hide Answers; hide Answerable; hide ReplyBytes;
  }

  lemma ServerExplains(s: Session, payload: seq<byte>)
    requires s.state == Handshaking
    ensures var (s', r) := ServerHandshake(s, payload); Explained(s, r.event, s')
  {
    hide ParseHello; hide ParseReply; hide Decide; hide ReplyVerdict; hide QueryBytes;
  }

  lemma FrameExplains(s: Session, frame: Frame, now: nat)
    ensures var (s', r) := OnFrame(s, frame, now); Explained(s, r.event, s')
  {
    hide ClientHandshake; hide ServerHandshake;
    if s.state == Handshaking && frame.Handshake? {
      var heard := s.(lastActivityMs := now, probing := false);
      ClientExplains(heard, frame.payload);
      ServerExplains(heard, frame.payload);
    }
  }

  // ---- One reaction ------------------------------------------------------------

  /** Neither the session nor the events have moved, and death is final. */
  predicate Unheard(c: Core, c': Core) {
    && c'.session == c.session && c'.announced == c.announced
    && c'.history == c.history.(committed := c'.history.committed)
    && (c.dead.Some? ==> c'.dead.Some?)
  }

  lemma WriteFrameIsSilent(c: Core, frame: Frame)
    ensures Unheard(c, WriteFrame(c, frame).0)
  {
    hide EncodeFrame; hide TransportSend;
  }

  lemma SendControlIsSilent(c: Core, frame: Frame)
    ensures Unheard(c, SendControl(c, frame))
  {
    hide EncodeFrame; hide WriteFrame;
    WriteFrameIsSilent(c, frame);
  }

  lemma EmitOutIsSilent(c: Core, out: Out)
    ensures Unheard(c, EmitOut(c, out))
  {
    hide FrameOf; hide SendControl;
    if FrameOf(out, c.scratchCap).Some? { SendControlIsSilent(c, FrameOf(out, c.scratchCap).value); }
  }

  lemma {:induction false} FlushIsSilent(c: Core)
    ensures Unheard(c, Flush(c))
    decreases |c.outbox|
  {
    hide TransportSend;
    if c.outbox != [] {
      var (t, result) := TransportSend(c.transport, c.outbox);
      if result.Partial? && result.accepted > 0 {
        FlushIsSilent(c.(transport := t,
          outbox := if result.accepted <= |c.outbox| then c.outbox[result.accepted..] else []));
      }
    }
  }

  /** Applying a reaction adds its event and nothing else; a failed handshake kills. */
  lemma ApplyReports(c: Core, reaction: Reaction)
    ensures var c' := Apply(c, reaction);
      && c'.session == c.session && c'.announced == c.announced && (c.dead.Some? ==> c'.dead.Some?)
      && c'.history.events == c.history.events + OneEvent(reaction.event)
  {
    EmitOutIsSilent(c, reaction.out);
    hide EmitOut;
  }

  /** A reaction that its event explains leaves the story told. */
  lemma ReactionIsTold(c: Core, s: Session, reaction: Reaction, mark: Mark)
    requires Told(c, mark) && c.announced && R.Valid(s) && Explained(c.session, reaction.event, s)
    ensures Told(Apply(c.(session := s), reaction), mark) && Apply(c.(session := s), reaction).announced
    ensures c.dead.Some? ==> Apply(c.(session := s), reaction).dead.Some?
  {
    ApplyReports(c.(session := s), reaction);
    hide Apply; hide InGrammar;
    match reaction.event
    case None => assert c.history.events + [] == c.history.events;
    case Some(e) => GrammarGrows(c.history.events, e);
  }

  lemma UnheardIsTold(c: Core, c': Core, mark: Mark)
    requires Told(c, mark) && Unheard(c, c')
    ensures Told(c', mark)
  {
  }

  lemma TakeInIsTold(c: Core, frame: Frame, now: nat, mark: Mark)
    requires Told(c, mark) && c.announced
    ensures Told(TakeIn(c, frame, now), mark) && TakeIn(c, frame, now).announced
  {
    var filed := c.(history := Note(c.history, c.session.state, frame));
    var (s, reaction) := OnFrame(c.session, frame, now);
    R.StepIsForward(c.session, R.Hear(frame, now));
    FrameExplains(c.session, frame, now);
    hide OnFrame; hide Apply;
    ReactionIsTold(filed, s, reaction, mark);
  }

  lemma ReceiveIsTold(c: Core, now: nat, mark: Mark)
    requires Told(c, mark) && c.announced
    ensures Told(Receive(c, now).0, mark) && Receive(c, now).0.announced
  {
    hide TransportRecv; hide TakeIn; hide DecodePacket; hide D.Feed; hide InGrammar;
    var (t, result) := TransportRecv(c.transport, c.recvCap);
    if result.Received? && !t.stream {
      var d := DecodePacket(result.bytes, c.session.config.maxMessageBytes);
      if d.Packet? { TakeInIsTold(c.(transport := t), d.frame, now, mark); }
    }
  }

  lemma DrainStepIsTold(c: Core, now: nat, mark: Mark)
    requires Told(c, mark) && c.announced
    ensures Told(DrainStep(c, now).0, mark) && DrainStep(c, now).0.announced
  {
    hide Receive; hide TakeIn; hide D.NextResult; hide D.Advance; hide InGrammar; hide D.AfterNext;
    ReceiveIsTold(c, now, mark);
    match D.NextResult(c.decoder)
    case Decoded(frame, _) => TakeInIsTold(c, frame, now, mark);
    case _ =>
  }

  lemma {:induction false} DrainIsTold(c: Core, now: nat, frames: nat, turns: nat, mark: Mark)
    requires Told(c, mark) && c.announced
    ensures Told(Drain(c, now, frames, turns), mark) && Drain(c, now, frames, turns).announced
    decreases frames + turns
  {
    hide DrainStep; hide Told;
    if frames != 0 && turns != 0 && c.dead.None? {
      DrainStepIsTold(c, now, mark);
      var (c', use) := DrainStep(c, now);
      match use
      case UsedFrame => DrainIsTold(c', now, frames - 1, turns, mark);
      case UsedRead => DrainIsTold(c', now, frames, turns - 1, mark);
      case Stop =>
    }
  }

  lemma AnnounceIsTold(c: Core, mark: Mark)
    requires Told(c, mark)
    ensures Told(Announce(c), mark) && Announce(c).announced
  {
    if !c.announced {
      assert Announce(c).history.events == [Connected];
      assert c.session.state != Ready;
    }
  }

  lemma TickSessionIsTold(c: Core, now: nat, mark: Mark)
    requires Told(c, mark) && c.announced
    ensures Told(TickSession(c, now), mark) && TickSession(c, now).announced
  {
    var (s, reaction) := Tick(c.session, now);
    assert Explained(c.session, reaction.event, s);
    R.StepIsForward(c.session, R.Pass(now));
    hide Tick; hide Apply;
    ReactionIsTold(c, s, reaction, mark);
  }

  lemma BuryIsTold(c: Core, mark: Mark)
    requires Told(c, mark) && c.announced
    ensures Told(Bury(c), mark) && Bury(c).announced
    ensures c.dead.Some? ==> Bury(c).session.state == Closed && Bury(c).dead.Some?
    ensures c.dead.None? ==> Bury(c) == c
  {
    if c.dead.Some? && c.session.state != Closed {
      var (s, reaction) := TransportClosed(c.session, c.dead.value);
      assert Explained(c.session, reaction.event, s) && s.state == Closed;
      R.StepIsForward(c.session, R.Lose(c.dead.value));
      ApplyReports(c.(session := s), reaction);
      hide Apply;
      ReactionIsTold(c, s, reaction, mark);
    }
  }

  /** A tick reports in grammar, and leaves no dead connection unreported. */
  lemma CoreTickIsTold(c: Core, now: nat, mark: Mark)
    requires Told(c, mark)
    ensures var c' := CoreTick(c, now);
      Told(c', mark) && c'.announced && (Finished(c') <==> c'.dead.Some?)
  {
    hide Told; hide Announce; hide Flush; hide Drain; hide TickSession; hide Bury;
    var c1 := Announce(c);
    AnnounceIsTold(c, mark);
    var c2 := FlushIfAlive(c1);
    FlushIsSilent(c1);
    if c1.dead.None? { UnheardIsTold(c1, c2, mark); }
    var c3 := DrainIfAlive(c2, now);
    if c2.dead.None? {
      DrainIsTold(c2, now, c2.session.config.maxFramesPerTick, c2.session.config.maxFramesPerTick, mark);
    }
    var c4 := TickIfAlive(c3, now);
    if c3.dead.None? { TickSessionIsTold(c3, now, mark); }
    BuryIsTold(c4, mark);
  }

  lemma CoreSendIsTold(c: Core, id: u32, payload: seq<byte>, mark: Mark)
    requires Told(c, mark)
    ensures Told(CoreSend(c, id, payload).0, mark)
  {
    WriteFrameIsSilent(c, Data(id, payload));
    hide WriteFrame; hide InGrammar;
  }

  lemma CoreCloseIsTold(c: Core, mark: Mark)
    requires Told(c, mark)
    ensures Told(CoreClose(c), mark.(left := true))
  {
    hide InGrammar;
  }

  // ---- Every run ---------------------------------------------------------------

  /** One call, with what its transport will answer and could deliver meanwhile. */
  datatype Call =
    | TickCall(now: nat, sends: seq<SendAnswer>, recvs: seq<RecvAnswer>, inbound: seq<byte>)
    | SendCall(id: u32, payload: seq<byte>, sends: seq<SendAnswer>)
    | CloseCall

  function Perform(c: Core, call: Call): Core {
    match call
    case TickCall(now, sends, recvs, inbound) =>
      CoreTick(c.(transport := c.transport.(sends := sends, recvs := recvs, inbound := inbound)), now)
    case SendCall(id, payload, sends) =>
      CoreSend(c.(transport := c.transport.(sends := sends)), id, payload).0
    case CloseCall => CoreClose(c)
  }

  /** A run: each state follows from the one before by one call. */
  ghost predicate IsRun(cores: seq<Core>, calls: seq<Call>) {
    && |cores| == |calls| + 1
    && forall i | 0 <= i < |calls| :: cores[i + 1] == Perform(cores[i], calls[i])
  }

  lemma PerformIsTold(c: Core, call: Call, mark: Mark)
    requires Told(c, mark)
    ensures Told(Perform(c, call), mark.(left := mark.left || call.CloseCall?))
  {
    hide CoreTick; hide CoreSend; hide CoreClose; hide InGrammar;
    match call
    case TickCall(now, sends, recvs, inbound) =>
      var t := c.transport.(sends := sends, recvs := recvs, inbound := inbound);
      CoreTickIsTold(c.(transport := t), now, mark);
    case SendCall(id, payload, sends) =>
      CoreSendIsTold(c.(transport := c.transport.(sends := sends)), id, payload, mark);
    case CloseCall => CoreCloseIsTold(c, mark);
  }

  lemma {:induction false} RunIsTold(cores: seq<Core>, calls: seq<Call>, j: nat, k: nat, mark: Mark)
    requires IsRun(cores, calls) && j <= k < |cores| && Told(cores[j], mark)
    ensures Told(cores[k], mark.(left := mark.left || CloseCall in calls[j..k]))
    decreases k
  {
    hide Told; hide Perform;
    if j < k {
      RunIsTold(cores, calls, j, k - 1, mark);
      assert calls[j..k] == calls[j..k - 1] + [calls[k - 1]];
      PerformIsTold(cores[k - 1], calls[k - 1], mark.(left := mark.left || CloseCall in calls[j..k - 1]));
    }
  }

  const NEWBORN := Mark(false, 0, [])

  lemma NewbornIsTold(t: Transport, schema: Schema, config: Config, role: Role, now: nat)
    requires Init(t, schema, config, role, now).Some?
    ensures var c := Init(t, schema, config, role, now).value;
      Told(c, NEWBORN) && c.history.events == [] && c.session.state == Handshaking
  {
    EmitOutIsSilent(Newborn(t, schema, config, role, now), Create(role, schema, config, now).1.out);
    hide EmitOut; hide HelloBytes; hide HelloLen;
  }

  lemma RunFromInit(t: Transport, schema: Schema, config: Config, role: Role, now: nat,
                    cores: seq<Core>, calls: seq<Call>, k: nat)
    requires IsRun(cores, calls) && k < |cores| && Init(t, schema, config, role, now) == Some(cores[0])
    ensures Told(cores[k], Mark(CloseCall in calls[..k], 0, []))
  {
    NewbornIsTold(t, schema, config, role, now);
    hide Init; hide Told;
    RunIsTold(cores, calls, 0, k, NEWBORN);
  }

  /** Event grammar: at every moment of every run of any connection, over either kind of
      transport, the events are in the grammar; `terminated` means closed; and the
      session is closed exactly when a terminal event was reported or the application
      closed it. */
  lemma EventsFollowTheGrammar(t: Transport, schema: Schema, config: Config, role: Role, now: nat,
                               cores: seq<Core>, calls: seq<Call>, k: nat)
    requires IsRun(cores, calls) && k < |cores| && Init(t, schema, config, role, now) == Some(cores[0])
    ensures var c := cores[k]; var events := c.history.events;
      && InGrammar(events)
      && (c.session.terminated <==> c.session.state == Closed)
      && (c.session.state == Closed <==> Ended(events) || CloseCall in calls[..k])
      && (c.session.state == Ready ==> SaidReady(events))
      && (c.session.state == Handshaking ==> events == [] || events == [Connected])
  {
    RunFromInit(t, schema, config, role, now, cores, calls, k);
    hide Init; hide IsRun;
    var events := cores[k].history.events;
    if |events| == 1 { assert events[0] == Connected; }
  }

  /** Only forward: between any two moments of a run the state never moves back and no
      event is taken back; and once an announced connection is closed, it reports
      nothing more. */
  lemma RunsOnlyAdvance(t: Transport, schema: Schema, config: Config, role: Role, now: nat,
                        cores: seq<Core>, calls: seq<Call>, j: nat, k: nat)
    requires IsRun(cores, calls) && j <= k < |cores| && Init(t, schema, config, role, now) == Some(cores[0])
    ensures var c, c' := cores[j], cores[k];
      && R.Rank(c.session.state) <= R.Rank(c'.session.state)
      && c.history.events <= c'.history.events
      && (c.session.state == Closed && c.history.events != [] ==> c'.history.events == c.history.events)
  {
    RunFromInit(t, schema, config, role, now, cores, calls, j);
    hide Init; hide IsRun; hide InGrammar;
    var c := cores[j];
    RunIsTold(cores, calls, j, k, Mark(CloseCall in calls[..j], R.Rank(c.session.state), c.history.events));
  }

  /** A tick leaves no connection dead and unreported. */
  lemma TickReportsDeath(t: Transport, schema: Schema, config: Config, role: Role, now: nat,
                         cores: seq<Core>, calls: seq<Call>, k: nat)
    requires IsRun(cores, calls) && k < |calls| && Init(t, schema, config, role, now) == Some(cores[0])
    requires calls[k].TickCall?
    ensures var c := cores[k + 1];
      && (c.dead.Some? ==> c.session.state == Closed)
      && (c.dead.Some? && CloseCall !in calls[..k] ==> Ended(c.history.events))
  {
    RunFromInit(t, schema, config, role, now, cores, calls, k);
    hide Init; hide InGrammar; hide CoreTick;
    var c, call := cores[k], calls[k];
    var t' := c.transport.(sends := call.sends, recvs := call.recvs, inbound := call.inbound);
    CoreTickIsTold(c.(transport := t'), call.now, Mark(CloseCall in calls[..k], 0, []));
    assert cores[k + 1] == Perform(c, call);
  }

  /** An unresponsive peer is reported but not reaped: the session closes without the
      connection dying, so it is not finished until its transport ends. */
  lemma UnresponsiveIsNotFinished(c: Core, now: nat)
    requires c.dead.None? && Tick(c.session, now).1.event == Some(Disconnected(Unresponsive))
    ensures var c' := TickSession(c, now);
      c'.session.state == Closed && c'.dead.None? && !Finished(c') && Bury(c') == c'
  {
  }
}
