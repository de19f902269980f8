/** Why a connection calls its peer unresponsive: because the peer has been silent for
    long enough, or because a control frame owed to it would take the outbox past its
    ceiling - and the second can happen in the very call that hears the peer. */
module UnresponsiveCauses {
  import opened Bytes
  import opened Frame
  import opened Schema
  import opened Handshake
  import opened Session
  import opened Core
  import opened CoreLaws
  import B = Budget
  import D = StreamDecoder
  import E = EventGrammar
  import R = SessionRuns
  import T = SessionTiming

  // ---- A peer that answers is called unresponsive --------------------------------

  /** A blocked send of the largest default message leaves the outbox over the ceiling. */
  lemma BlockedSendFillsOutbox(c: Core, id: u32, payload: seq<byte>)
    requires c.session.state == Ready && c.dead.None? && c.outbox == []
    requires |payload| == 64 * 1024 == c.session.config.maxMessageBytes
    requires c.scratchCap >= DATA_HEADER_LEN + |payload|
    requires c.transport.sends != [] && c.transport.sends[0] == TakeNone
    ensures var (c', result) := CoreSend(c, id, payload);
      && result == Ok && c'.dead.None? && c'.session == c.session
      && c'.history.events == c.history.events && |c'.outbox| == DATA_HEADER_LEN + |payload| >= MAX_OUTBOX_BYTES
  {
    assert |EncodeFrame(Data(id, payload))| == DATA_HEADER_LEN + |payload|;
    hide EncodeFrame;
  }

  /** With the outbox at the ceiling, a probe heard is reported together with the
      disconnection of the peer that sent it: the acknowledgement does not fit. */
  lemma HeardYetUnresponsive(c: Core, now: nat)
    requires c.session.state == Ready && !c.session.terminated && c.dead.None? && c.scratchCap >= 1
    requires |c.outbox| >= MAX_OUTBOX_BYTES
    ensures var c' := Bury(TakeIn(c, Probe, now));
      && c'.history.events == c.history.events + [ProbeSeen, Disconnected(Unresponsive)]
      && c'.session.state == Closed && c'.session.lastActivityMs == now
  {
    var (s, reaction) := OnFrame(c.session, Probe, now);
    assert reaction == Reaction(OutAck, Some(ProbeSeen));
    assert |EncodeFrame(Ack)| == 1;
    var filed := c.(session := s, history := Note(c.history, Ready, Probe));
    CeilingIsExact(filed, Ack);
    var c1 := TakeIn(c, Probe, now);
    assert c1 == Push(Kill(filed, Unresponsive), ProbeSeen);
    assert Bury(c1) == Push(c1.(session := Close(s)), Disconnected(Unresponsive));
    assert c.history.events + [ProbeSeen] + [Disconnected(Unresponsive)]
        == c.history.events + [ProbeSeen, Disconnected(Unresponsive)];
  }

  /** Exactly then: a ready connection that hears a probe calls the peer unresponsive
      iff at least the ceiling is waiting. */
  lemma ProbeAtTheCeiling(c: Core, now: nat)
    requires c.session.state == Ready && c.dead.None? && c.scratchCap >= 1
    ensures TakeIn(c, Probe, now).dead == Some(Unresponsive) <==> |c.outbox| >= MAX_OUTBOX_BYTES
  {
    var (s, reaction) := OnFrame(c.session, Probe, now);
    assert reaction == Reaction(OutAck, Some(ProbeSeen));
    assert |EncodeFrame(Ack)| == 1;
    var filed := c.(session := s, history := Note(c.history, Ready, Probe));
    CeilingIsExact(filed, Ack);
    assert TakeIn(c, Probe, now) == Push(SendControl(filed, Ack), ProbeSeen);
    hide SendControl;
  }

  /** The same through a whole tick: one byte arrives, a probe, and the tick that reads
      it reports both the probe and an unresponsive peer. */
  lemma OneTickHearsAndBuries(c: Core, now: nat)
    requires c.session.state == Ready && !c.session.terminated && c.dead.None? && c.announced
    requires c.scratchCap >= 1 && c.recvCap >= 1 && c.session.config.maxFramesPerTick >= 2
    requires |c.outbox| >= MAX_OUTBOX_BYTES && c.decoder.buffer == [] && c.decoder.poison.None?
    requires c.transport.stream && c.transport.sends == [] && c.transport.recvs == [Give(1)]
    requires c.transport.inbound == [1]
    ensures CoreTick(c, now).history.events == c.history.events + [ProbeSeen, Disconnected(Unresponsive)]
  {
    var n := c.session.config.maxFramesPerTick;
    assert Flush(c) == c;
    var fed := Receive(c, now).0;
    var t := c.transport.(recvs := [], inbound := [], received := c.transport.received + [1]);
    assert [1][..1] == [1] && [1][1..] == [] && c.transport.recvs[1..] == [] && [] + [1] == [1];
    assert fed == c.(transport := t, decoder := D.Feed(c.decoder, [1]));
    assert DrainStep(c, now) == (fed, UsedRead);
    assert D.NextResult(fed.decoder) == Decoded(Probe, 1);
    ProbeAtTheCeiling(fed, now);
    HeardYetUnresponsive(fed, now);
    var heard := TakeIn(fed, Probe, now);
    TakeInKeepsOpen(fed, now);
    hide TakeIn;
    var taken := heard.(decoder := D.Advance(heard.decoder, 1));
    assert DrainStep(fed, now) == (taken, UsedFrame);
    assert Drain(fed, now, n, n - 1) == Drain(taken, now, n - 1, n - 1) == taken;
    assert Drain(c, now, n, n) == taken;
    BuryIgnoresDecoder(heard, D.Advance(heard.decoder, 1));
  }

  /** A connection with nothing on its way in either direction, ready for a message of the
      largest default size. */
  predicate Idle(c: Core) {
    && c.session.state == Ready && !c.session.terminated && c.dead.None? && c.announced && c.outbox == []
    && c.session.config.maxMessageBytes == 64 * 1024 && c.session.config.maxFramesPerTick >= 2
    && c.scratchCap >= DATA_HEADER_LEN + 64 * 1024 && c.recvCap >= 1
    && c.decoder.buffer == [] && c.decoder.poison.None? && c.transport.stream && c.transport.recvs == []
  }

  /** The input that shows it, as two calls of a run: a send of the largest default
      message that is wholly blocked, and a tick in which the peer's probe arrives. */
  lemma PeerIsHeardAndBuried(c: Core, id: u32, payload: seq<byte>, now: nat)
    requires Idle(c) && |payload| == 64 * 1024
    ensures var blocked := E.Perform(c, E.SendCall(id, payload, [TakeNone]));
      var c' := E.Perform(blocked, E.TickCall(now, [], [Give(1)], [1]));
      c'.history.events == c.history.events + [ProbeSeen, Disconnected(Unresponsive)]
  {
    var w := c.(transport := c.transport.(sends := [TakeNone]));
    BlockedSendFillsOutbox(w, id, payload);
    SendKeepsRest(w, id, payload);
    hide CoreSend; hide CoreTick;
    var blocked := CoreSend(w, id, payload).0;
    OneTickHearsAndBuries(
      blocked.(transport := blocked.transport.(sends := [], recvs := [Give(1)], inbound := [1])), now);
  }

  const ACCEPTANCE := Handshake([VerdictByte(VAccept)])

  /** A client that waits for its verdict, with nothing to send and an acceptance to read. */
  predicate AwaitsAcceptance(c: Core) {
    && c.session.role == Client && c.session.state == Handshaking && !c.session.terminated
    && c.dead.None? && c.outbox == [] && c.recvCap >= 6
    && c.decoder == D.Init(c.session.config.maxMessageBytes)
    && c.transport.stream && c.transport.sends == [] && c.transport.recvs == [Give(6)]
    && c.transport.inbound == EncodeFrame(ACCEPTANCE)
  }

  /** What it has then taken in, and what it still holds of the bytes. */
  function Opened(c: Core, now: nat): Core
    requires AwaitsAcceptance(c)
  {
    var bytes := EncodeFrame(ACCEPTANCE);
    var t := c.transport.(recvs := [], inbound := [], received := c.transport.received + bytes);
    Push(c.(session := c.session.(lastActivityMs := now, probing := false, state := Ready), transport := t,
            decoder := c.decoder.(buffer := []), history := Note(c.history, Handshaking, ACCEPTANCE)), BecameReady)
  }

  lemma AcceptanceArrives(c: Core, now: nat)
    requires AwaitsAcceptance(c)
    ensures var (fed, use) := DrainStep(c, now);
      && use == UsedRead && fed.transport == Opened(c, now).transport
      && fed == c.(transport := fed.transport, decoder := D.Feed(c.decoder, EncodeFrame(ACCEPTANCE)))
  {
    var bytes := EncodeFrame(ACCEPTANCE);
    assert |bytes| == 6 && bytes[..6] == bytes && bytes[6..] == [] && c.transport.recvs[1..] == [];
    hide EncodeFrame;
  }

  lemma AcceptanceIsTaken(c: Core, now: nat)
    requires AwaitsAcceptance(c)
    ensures DrainStep(DrainStep(c, now).0, now) == (Opened(c, now), UsedFrame)
  {
    AcceptanceArrives(c, now);
    var fed, bytes := DrainStep(c, now).0, EncodeFrame(ACCEPTANCE);
    assert |bytes| == 6 && [] + bytes == bytes && bytes + [] == bytes;
    DecodeOfEncode(ACCEPTANCE, [], c.session.config.maxMessageBytes);
    AcceptanceOpens(fed, now);
    hide EncodeFrame; hide TakeIn; hide Receive;
  }

  lemma AcceptanceIsDrained(c: Core, now: nat, n: nat)
    requires AwaitsAcceptance(c) && n >= 2
    ensures Drain(c, now, n, n) == Opened(c, now)
  {
    var fed, ready := DrainStep(c, now).0, Opened(c, now);
    AcceptanceArrives(c, now);
    AcceptanceIsTaken(c, now);
    assert DrainStep(ready, now) == (ready, Stop);
    hide DrainStep; hide Opened; hide AwaitsAcceptance;
    assert Drain(ready, now, n - 1, n - 1) == ready;
    assert Drain(fed, now, n, n - 1) == ready;
  }

  /** A client that has sent its hello and has nothing waiting: the tick that reads an
      acceptance leaves it ready, with nothing waiting still. */
  lemma OneTickOpens(c: Core, now: nat)
    requires AwaitsAcceptance(c) && !c.announced
    requires c.session.config.maxFramesPerTick >= 2 && c.session.config.heartbeatIntervalMs > 0
    ensures CoreTick(c, now) == Opened(Announce(c), now)
  {
    var c1 := Announce(c);
    assert Flush(c1) == c1;
    AcceptanceIsDrained(c1, now, c.session.config.maxFramesPerTick);
    hide Drain; hide EncodeFrame;
    assert Tick(Opened(c1, now).session, now) == (Opened(c1, now).session, SILENCE);
  }

  lemma AcceptanceOpens(c: Core, now: nat)
    requires c.session.role == Client && c.session.state == Handshaking && c.dead.None?
    ensures TakeIn(c, ACCEPTANCE, now) ==
      Push(c.(session := c.session.(lastActivityMs := now, probing := false, state := Ready),
              history := Note(c.history, Handshaking, ACCEPTANCE)), BecameReady)
  {
  }

  lemma GreetedClient(t: Transport, schema: Schema, config: Config, start: nat)
    requires HelloLen(schema) <= MAX_HANDSHAKE_PAYLOAD && t.stream && t.sends == [TakeAll]
    ensures var init := Init(t, schema, config, Client, start);
      && init.Some? && init.value.session == Create(Client, schema, config, start).0
      && var c := init.value;
      && c.dead.None? && !c.announced && c.outbox == [] && c.recvCap == RECV_BASE_CAP
      && c.decoder == D.Init(config.maxMessageBytes) && c.scratchCap == ScratchSize(schema, config)
      && c.transport.stream && c.history.events == []
  {
    hide HelloBytes; hide HelloLen; hide EncodeFrame; hide ScratchSize;
  }

  lemma GreetedBecomesIdle(t: Transport, schema: Schema, config: Config, start: nat, now: nat)
    requires HelloLen(schema) <= MAX_HANDSHAKE_PAYLOAD && t.stream && t.sends == [TakeAll]
    requires config.maxMessageBytes == 64 * 1024
    requires config.maxFramesPerTick >= 2 && config.heartbeatIntervalMs > 0
    ensures var init := Init(t, schema, config, Client, start);
      && init.Some?
      && var c := E.Perform(init.value, E.TickCall(now, [], [Give(6)], EncodeFrame(ACCEPTANCE)));
      Idle(c) && c.history.events == [Connected, BecameReady]
  {
    GreetedClient(t, schema, config, start);
    hide Init; hide EncodeFrame; hide CoreTick; hide HelloLen;
    var c := Init(t, schema, config, Client, start).value;
    OneTickOpens(c.(transport := c.transport.(sends := [], recvs := [Give(6)], inbound := EncodeFrame(ACCEPTANCE))),
                 now);
  }

  /** From the start, for every schema: a client whose hello is taken and answered by an
      acceptance sends one message of the largest default size, which is wholly blocked,
      and then reports its peer unresponsive in the tick that hears the peer's probe. */
  lemma LivelyPeerIsBuried(t: Transport, schema: Schema, config: Config, start: nat, accepted: nat,
                           id: u32, payload: seq<byte>, probed: nat, cores: seq<Core>, calls: seq<E.Call>)
    requires HelloLen(schema) <= MAX_HANDSHAKE_PAYLOAD && t.stream && t.sends == [TakeAll]
    requires |payload| == 64 * 1024 == config.maxMessageBytes
    requires config.maxFramesPerTick >= 2 && config.heartbeatIntervalMs > 0
    requires calls == [E.TickCall(accepted, [], [Give(6)], EncodeFrame(ACCEPTANCE)),
                       E.SendCall(id, payload, [TakeNone]),
                       E.TickCall(probed, [], [Give(1)], EncodeFrame(Probe))]
    requires E.IsRun(cores, calls) && Init(t, schema, config, Client, start) == Some(cores[0])
    ensures cores[3].history.events == [Connected, BecameReady, ProbeSeen, Disconnected(Unresponsive)]
  {
    GreetedBecomesIdle(t, schema, config, start, accepted);
    assert EncodeFrame(Probe) == [1];
    hide E.Perform; hide Init; hide EncodeFrame; hide HelloLen;
    assert cores[1] == E.Perform(cores[0], calls[0]);
    assert cores[2] == E.Perform(cores[1], calls[1]) && cores[3] == E.Perform(cores[2], calls[2]);
    PeerIsHeardAndBuried(cores[1], id, payload, probed);
    assert [Connected, BecameReady] + [ProbeSeen, Disconnected(Unresponsive)]
        == [Connected, BecameReady, ProbeSeen, Disconnected(Unresponsive)];
  }

  lemma SendKeepsRest(c: Core, id: u32, payload: seq<byte>)
    ensures var c' := CoreSend(c, id, payload).0;
      && c'.decoder == c.decoder && c'.announced == c.announced && c'.scratchCap == c.scratchCap
      && c'.recvCap == c.recvCap && c'.transport.stream == c.transport.stream
  {
    hide EncodeFrame;
  }

  lemma TakeInKeepsOpen(c: Core, now: nat)
    requires c.session.state == Ready && c.dead.None?
    ensures TakeIn(c, Probe, now).session.state == Ready
  {
    B.TakeInTakesOne(c, Probe, now);
    hide TakeIn;
  }

  lemma BuryIgnoresDecoder(c: Core, decoder: D.State)
    requires c.dead.Some?
    ensures Bury(c.(decoder := decoder)).history == Bury(c).history
  {
    if c.session.state != Closed {
      var (s, reaction) := TransportClosed(c.session, c.dead.value);
      assert reaction.out == NoOut;
    }
  }

  // ---- Within one call -----------------------------------------------------------

  /** The frame `out` asks for would take the waiting bytes past the ceiling. */
  predicate Exceeds(c: Core, out: Out) {
    var frame := FrameOf(out, c.scratchCap);
    frame.Some? && PassesCeiling(c.outbox, frame.value)
  }

  /** The frames and the ticks of `inputs` filed behind what `c` has taken in. */
  function Filed(c: Core, inputs: seq<R.Input>): History {
    if inputs == [] then c.history
    else
      var before := inputs[..|inputs| - 1];
      match inputs[|inputs| - 1]
      case Hear(frame, _) => Note(Filed(c, before), R.After(c.session, before).state, frame)
      case _ => Filed(c, before)
  }

  /** From `c` to `c'` exactly the frames of `inputs` were taken in, all at `now`. */
  ghost predicate TookIn(c: Core, c': Core, inputs: seq<R.Input>, now: nat) {
    && (forall i | 0 <= i < |inputs| :: T.Clock(inputs[i]) == Some(now))
    && (forall i | 0 <= i < |inputs| - 1 :: inputs[i].Hear?)
    && c'.history == Filed(c, inputs).(committed := c'.history.committed, events := c'.history.events)
  }

  /** The frame owed to the last of `inputs` would pass the ceiling. */
  predicate Owes(c: Core, c': Core, inputs: seq<R.Input>) {
    inputs != [] && Exceeds(c', R.LastReaction(c.session, inputs).out)
  }

  lemma InputsGrow(c: Core, inputs: seq<R.Input>, input: R.Input)
    ensures R.After(c.session, inputs + [input]) == R.Respond(R.After(c.session, inputs), input).0
    ensures R.LastReaction(c.session, inputs + [input]) == R.Respond(R.After(c.session, inputs), input).1
    ensures Filed(c, inputs + [input]) ==
      match input
      case Hear(frame, _) => Note(Filed(c, inputs), R.After(c.session, inputs).state, frame)
      case _ => Filed(c, inputs)
  {
    assert (inputs + [input])[..|inputs|] == inputs;
    hide R.Respond;
  }

  predicate Said(c: Core) {
    Disconnected(Unresponsive) in c.history.events
  }

  /** Past the handshake a connection owes probes and acknowledgements only, of one byte each. */
  lemma OwingWhenReady(c: Core, c': Core, inputs: seq<R.Input>, now: nat)
    requires TookIn(c, c', inputs, now) && Owes(c, c', inputs) && c.session.state != Handshaking
    ensures |c'.outbox| >= MAX_OUTBOX_BYTES
  {
    PastStaysPast(c.session, inputs[..|inputs| - 1], now);
    var s, last := R.After(c.session, inputs[..|inputs| - 1]), inputs[|inputs| - 1];
    hide R.After;
    assert T.Clock(last) == Some(now);
    var out := R.LastReaction(c.session, inputs).out;
    assert out == R.Respond(s, last).1.out;
    assert !out.OutHandshake?;
  }

  lemma {:induction false} PastStaysPast(s: Session, inputs: seq<R.Input>, now: nat)
    requires s.state != Handshaking && forall i | 0 <= i < |inputs| :: T.Clock(inputs[i]) == Some(now)
    ensures R.After(s, inputs).state != Handshaking
  {
    if inputs != [] { PastStaysPast(s, inputs[..|inputs| - 1], now); }
  }

  lemma EmitOutAccounts(c: Core, out: Out)
    requires c.dead.None?
    ensures EmitOut(c, out).dead == Some(Unresponsive) ==> Exceeds(EmitOut(c, out), out)
  {
    var frame := FrameOf(out, c.scratchCap);
    if frame.Some? { CeilingIsExact(c, frame.value); }
    hide SendControl; hide EncodeFrame; hide FrameOf;
  }

  /** After a reaction: what was said, and why the connection is dead if it is. */
  lemma ApplyAccounts(c: Core, reaction: Reaction)
    requires c.dead.None?
    requires reaction.event.Some? && reaction.event.value.HandshakeFailed? ==> c.session.state == Closed
    ensures var c' := Apply(c, reaction);
      && c'.session == c.session
      && c'.history == c.history.(committed := c'.history.committed, events := c'.history.events)
      && (c'.dead == Some(Unresponsive) ==> c'.session.state == Closed || Exceeds(c', reaction.out))
      && (Said(c') ==> Said(c) || reaction.event == Some(Disconnected(Unresponsive)))
      && (reaction.out == NoOut && reaction.event == Some(Disconnected(Unresponsive)) ==> c'.dead.None?)
  {
    EmitOutAccounts(c, reaction.out);
    E.EmitOutIsSilent(c, reaction.out);
    hide EmitOut; hide EncodeFrame; hide FrameOf;
  }

  /** How the part of a tick that only listens may change a connection. */
  ghost predicate Listens(c: Core, c': Core, heard: seq<R.Input>, now: nat) {
    && TookIn(c, c', heard, now) && (forall input | input in heard :: input.Hear?)
    && c'.session == R.After(c.session, heard)
    && (c'.dead == Some(Unresponsive) ==> c'.session.state == Closed || Owes(c, c', heard))
    && (Said(c') ==> Said(c))
    && (c'.session.state != Closed ==>
          && c.session.state != Closed && T.ClockInv(c'.session, now)
          && ((c'.session.lastActivityMs == now && !c'.session.probing)
              || (c'.session == c.session && B.Taken(c'.history) == B.Taken(c.history))))
  }

  predicate OnTime(c: Core, now: nat) {
    c.session.state != Closed ==> T.ClockInv(c.session, now)
  }

  lemma HearingIsActivity(s: Session, frame: Frame, now: nat)
    requires s.state != Closed
    ensures var s' := OnFrame(s, frame, now).0; s'.lastActivityMs == now && !s'.probing
    ensures OnFrame(s, frame, now).1.event != Some(Disconnected(Unresponsive))
  {
    var heard := s.(lastActivityMs := now, probing := false);
    if frame.Handshake? && s.state == Handshaking {
      R.HandshakeIsForward(heard, frame.payload);
      NoDisconnectInHandshake(heard, frame.payload);
    }
    hide ClientHandshake; hide ServerHandshake;
  }

  lemma NoDisconnectInHandshake(s: Session, payload: seq<byte>)
    requires s.state == Handshaking
    ensures ClientHandshake(s, payload).1.event != Some(Disconnected(Unresponsive))
    ensures ServerHandshake(s, payload).1.event != Some(Disconnected(Unresponsive))
  {
    hide ParseHello; hide ParseQuery; hide ParseReply; hide Decide; hide ReplyVerdict; hide Answers; hide Answerable;
    hide ReplyBytes; hide QueryBytes; hide Printed;
  }

  lemma TookOneMore(c: Core, c1: Core, c2: Core, heard: seq<R.Input>, input: R.Input, now: nat)
    requires TookIn(c, c1, heard, now) && (forall i | i in heard :: i.Hear?) && T.Clock(input) == Some(now)
    requires c2.history == Filed(c, heard + [input]).(committed := c2.history.committed, events := c2.history.events)
    ensures TookIn(c, c2, heard + [input], now)
  {
    hide Filed;
  }

  lemma TakeInListens(c: Core, c1: Core, heard: seq<R.Input>, frame: Frame, now: nat)
    requires Listens(c, c1, heard, now) && c1.dead.None?
    ensures Listens(c, TakeIn(c1, frame, now), heard + [R.Hear(frame, now)], now)
  {
    var input, c2 := R.Hear(frame, now), TakeIn(c1, frame, now);
    var filed := c1.(history := Note(c1.history, c1.session.state, frame));
    var (s, reaction) := OnFrame(c1.session, frame, now);
    InputsGrow(c, heard, input);
    E.FrameExplains(c1.session, frame, now);
    if c1.session.state != Closed {
      HearingIsActivity(c1.session, frame, now);
      T.StepKeepsClock(c1.session, input, now);
    }
    hide OnFrame; hide Apply; hide B.Taken; hide T.ClockInv; hide R.After; hide R.LastReaction; hide Filed;
    hide Exceeds;
    ApplyAccounts(filed.(session := s), reaction);
    TookOneMore(c, c1, c2, heard, input, now);
  }

  lemma NoMatter(c: Core, c1: Core, c2: Core, heard: seq<R.Input>, now: nat)
    requires Listens(c, c1, heard, now)
    requires c2.session == c1.session && c2.history == c1.history
    requires c2.outbox == c1.outbox && c2.scratchCap == c1.scratchCap
    requires c2.dead == Some(Unresponsive) ==> c1.dead == Some(Unresponsive)
    ensures Listens(c, c2, heard, now)
  {
    hide R.After; hide Filed; hide T.ClockInv; hide B.Taken; hide R.LastReaction; hide EncodeFrame;
  }

  lemma ReceiveListens(c: Core, c1: Core, heard: seq<R.Input>, now: nat) returns (more: seq<R.Input>)
    requires Listens(c, c1, heard, now) && c1.dead.None?
    ensures Listens(c, Receive(c1, now).0, more, now)
  {
    hide TransportRecv; hide TakeIn; hide DecodePacket; hide D.Feed; hide Listens;
    var (t, result) := TransportRecv(c1.transport, c1.recvCap);
    NoMatter(c, c1, c1.(transport := t), heard, now);
    more := heard;
    if result.Received? && !t.stream {
      var packet := DecodePacket(result.bytes, c1.session.config.maxMessageBytes);
      if packet.Packet? {
        TakeInListens(c, c1.(transport := t), heard, packet.frame, now);
        return heard + [R.Hear(packet.frame, now)];
      }
    }
    if !(result.Received? && !t.stream) { NoMatter(c, c1, Receive(c1, now).0, heard, now); }
  }

  lemma DrainStepListens(c: Core, c1: Core, heard: seq<R.Input>, now: nat) returns (more: seq<R.Input>)
    requires Listens(c, c1, heard, now) && c1.dead.None?
    ensures Listens(c, DrainStep(c1, now).0, more, now)
  {
    hide Receive; hide TakeIn; hide D.NextResult; hide D.Advance; hide D.AfterNext; hide Listens;
    more := ReceiveListens(c, c1, heard, now);
    if c1.transport.stream {
      match D.NextResult(c1.decoder)
      case Decoded(frame, used) =>
        more := heard + [R.Hear(frame, now)];
        TakeInListens(c, c1, heard, frame, now);
        NoMatter(c, TakeIn(c1, frame, now), DrainStep(c1, now).0, more, now);
      case Bad(_) =>
        more := heard;
        NoMatter(c, c1, DrainStep(c1, now).0, heard, now);
      case Incomplete =>
    }
  }

  lemma {:induction false} DrainListens(c: Core, c1: Core, heard: seq<R.Input>, now: nat, frames: nat, turns: nat)
    returns (more: seq<R.Input>)
    requires Listens(c, c1, heard, now)
    ensures Listens(c, Drain(c1, now, frames, turns), more, now)
    decreases frames + turns
  {
    hide DrainStep; hide Listens;
    more := heard;
    if frames != 0 && turns != 0 && c1.dead.None? {
      more := DrainStepListens(c, c1, heard, now);
      var (c2, use) := DrainStep(c1, now);
      match use
      case UsedFrame => more := DrainListens(c, c2, more, now, frames - 1, turns);
      case UsedRead => more := DrainListens(c, c2, more, now, frames, turns - 1);
      case Stop =>
    }
  }

  lemma {:induction false} FlushIsNeverUnresponsive(c: Core)
    requires c.dead.None?
    ensures Flush(c).dead != Some(Unresponsive)
    decreases |c.outbox|
  {
    hide TransportSend;
    if c.outbox != [] {
      var (t, result) := TransportSend(c.transport, c.outbox);
      if result.Partial? && result.accepted > 0 {
        FlushIsNeverUnresponsive(c.(transport := t,
          outbox := if result.accepted <= |c.outbox| then c.outbox[result.accepted..] else []));
      }
    }
  }

  /** The peer has been silent for the window and the timeout when a tick says so. */
  predicate SilentAt(s: Session, now: nat) {
    s.state != Closed && s.lastActivityMs + SilenceMs(s) + s.config.heartbeatTimeoutMs <= now
  }

  lemma SessionTickSays(s: Session, now: nat)
    requires s.state != Closed ==> T.ClockInv(s, now)
    ensures Tick(s, now).1.event == Some(Disconnected(Unresponsive)) ==> s.probing && SilentAt(s, now)
    ensures Tick(s, now).1.event == Some(Disconnected(Unresponsive)) ==> Tick(s, now).1.out == NoOut
    ensures var (s', reaction) := Tick(s, now);
      && (reaction.event.Some? && reaction.event.value.HandshakeFailed? ==> s'.state == Closed)
      && (s'.state != Closed ==> s.state != Closed && T.ClockInv(s', now) && s'.lastActivityMs == s.lastActivityMs)
  {
    if s.state != Closed { T.StepKeepsClock(s, R.Pass(now), now); }
  }

  /** Why a connection has just called its peer unresponsive: the frame owed to the last
      frame it took in, or the probe due when no more came, would pass the ceiling; or
      the peer was silent and nothing was taken in. */
  ghost predicate Because(c: Core, c': Core, inputs: seq<R.Input>, now: nat) {
    || (c'.dead == Some(Unresponsive) && Owes(c, c', inputs))
    || (c'.dead.None? && SilentAt(c.session, now) && B.Taken(c'.history) == B.Taken(c.history))
  }

  /** What a tick does to the account of silence. */
  ghost predicate Ticked(c: Core, c': Core, inputs: seq<R.Input>, now: nat) {
    && TookIn(c, c', inputs, now)
    && (Said(c') ==> Said(c) || Because(c, c', inputs, now))
    && (c'.dead == Some(Unresponsive) ==> c'.session.state == Closed)
    && (c'.session.state != Closed ==>
          && c.session.state != Closed && T.ClockInv(c'.session, now)
          && (c'.session.lastActivityMs == now
              || (c'.session.lastActivityMs == c.session.lastActivityMs
                  && B.Taken(c'.history) == B.Taken(c.history))))
  }

  /** As far as the session's tick: the same, with the dead not yet buried. */
  ghost predicate HalfTicked(c: Core, c': Core, inputs: seq<R.Input>, now: nat) {
    && TookIn(c, c', inputs, now)
    && (c'.dead == Some(Unresponsive) ==> c'.session.state == Closed || Owes(c, c', inputs))
    && (Said(c') ==> Said(c) || (c'.dead.None? && Because(c, c', inputs, now)))
    && (c'.session.state != Closed ==>
          && c.session.state != Closed && T.ClockInv(c'.session, now)
          && (c'.session.lastActivityMs == now
              || (c'.session.lastActivityMs == c.session.lastActivityMs
                  && B.Taken(c'.history) == B.Taken(c.history))))
  }

  lemma SessionTicks(c: Core, c3: Core, heard: seq<R.Input>, now: nat) returns (inputs: seq<R.Input>)
    requires Listens(c, c3, heard, now)
    ensures HalfTicked(c, TickIfAlive(c3, now), inputs, now)
  {
    hide Tick; hide Apply; hide T.ClockInv; hide R.After; hide R.LastReaction; hide Filed; hide Exceeds;
    inputs := heard;
    if c3.dead.None? {
      inputs := heard + [R.Pass(now)];
      var (s, reaction) := Tick(c3.session, now);
      var c4 := TickIfAlive(c3, now);
      SessionTickSays(c3.session, now);
      ApplyAccounts(c3.(session := s), reaction);
      InputsGrow(c, heard, R.Pass(now));
      TookOneMore(c, c3, c4, heard, R.Pass(now), now);
      assert B.Taken(c4.history) == B.Taken(c3.history);
      hide B.Taken;
    } else {
      hide B.Taken;
    }
  }

  lemma BurialIsTicked(c: Core, c4: Core, inputs: seq<R.Input>, now: nat)
    requires HalfTicked(c, c4, inputs, now)
    ensures Ticked(c, Bury(c4), inputs, now)
  {
    hide T.ClockInv; hide R.After; hide R.LastReaction; hide Filed; hide EncodeFrame;
    if c4.dead.Some? && c4.session.state != Closed {
      var (s, reaction) := TransportClosed(c4.session, c4.dead.value);
      assert c4.session.terminated || reaction == Reaction(NoOut, Some(Disconnected(c4.dead.value)));
      if c4.session.terminated {
        assert Bury(c4) == c4.(session := s);
      } else {
        assert Bury(c4) == Push(c4.(session := s), Disconnected(c4.dead.value));
      }
    }
  }

  lemma AnnouncedListens(c: Core, c2: Core, now: nat)
    requires OnTime(c, now) && c2.session == c.session
    requires c2.history == Announce(c).history.(committed := c2.history.committed)
    requires c2.dead == Some(Unresponsive) ==> c.session.state == Closed
    ensures Listens(c, c2, [], now)
  {
  }

  lemma CoreTickIsTicked(c: Core, now: nat) returns (inputs: seq<R.Input>)
    requires OnTime(c, now) && (c.dead == Some(Unresponsive) ==> c.session.state == Closed)
    ensures Ticked(c, CoreTick(c, now), inputs, now)
  {
    var c1 := Announce(c);
    var c2 := FlushIfAlive(c1);
    if c1.dead.None? {
      E.FlushIsSilent(c1);
      FlushIsNeverUnresponsive(c1);
    }
    hide Flush; hide Drain; hide TickIfAlive; hide Bury; hide Listens; hide HalfTicked; hide Ticked;
    var c3 := DrainIfAlive(c2, now);
    var n := c.session.config.maxFramesPerTick;
    AnnouncedListens(c, c2, now);
    inputs := [];
    if c2.dead.None? { inputs := DrainListens(c, c2, inputs, now, n, n); }
    inputs := SessionTicks(c, c3, inputs, now);
    BurialIsTicked(c, TickIfAlive(c3, now), inputs, now);
  }

  // ---- Every run -----------------------------------------------------------------

  /** The time of the last tick before the call at `k`. */
  function Latest(start: nat, calls: seq<E.Call>, k: nat): nat
    requires k <= |calls|
  {
    if k == 0 then start
    else if calls[k - 1].TickCall? then calls[k - 1].now
    else Latest(start, calls, k - 1)
  }

  /** The clock does not run backwards. */
  ghost predicate Monotone(start: nat, calls: seq<E.Call>) {
    forall k | 0 <= k < |calls| && calls[k].TickCall? :: Latest(start, calls, k) <= calls[k].now
  }

  /** No frame was taken in by a call before `k` that came later than `t`. */
  ghost predicate HeardBy(cores: seq<Core>, calls: seq<E.Call>, k: nat, t: nat)
    requires k <= |calls| && |cores| == |calls| + 1
  {
    forall j | 0 <= j < k && B.Taken(cores[j + 1].history) > B.Taken(cores[j].history) ::
      calls[j].TickCall? && calls[j].now <= t
  }

  /** An open connection was last active no earlier than it last took a frame in. */
  ghost predicate Followed(start: nat, cores: seq<Core>, calls: seq<E.Call>, k: nat)
    requires k <= |calls| && |cores| == |calls| + 1
  {
    var c := cores[k];
    && (c.dead == Some(Unresponsive) ==> c.session.state == Closed)
    && (c.session.state != Closed ==>
          && T.ClockInv(c.session, Latest(start, calls, k))
          && start <= c.session.lastActivityMs && HeardBy(cores, calls, k, c.session.lastActivityMs))
  }

  lemma SendIsNothing(c: Core, id: u32, payload: seq<byte>)
    requires c.dead == Some(Unresponsive) ==> c.session.state == Closed
    ensures var c' := CoreSend(c, id, payload).0;
      && c'.session == c.session && B.Taken(c'.history) == B.Taken(c.history) && Said(c') == Said(c)
      && (c'.dead == Some(Unresponsive) ==> c'.session.state == Closed)
  {
    E.WriteFrameIsSilent(c, Data(id, payload));
    if c.dead.None? { WritingIsNeverUnresponsive(c, Data(id, payload)); }
    hide WriteFrame;
  }

  lemma ClockLater(s: Session, early: nat, late: nat)
    requires T.ClockInv(s, early) && early <= late
    ensures T.ClockInv(s, late)
  {
  }

  lemma HeardOneMore(cores: seq<Core>, calls: seq<E.Call>, k: nat, early: nat, late: nat)
    requires k < |calls| && |cores| == |calls| + 1 && HeardBy(cores, calls, k, early) && early <= late
    requires B.Taken(cores[k + 1].history) > B.Taken(cores[k].history) ==> calls[k].TickCall? && calls[k].now <= late
    ensures HeardBy(cores, calls, k + 1, late)
  {
    hide B.Taken;
  }

  /** One call: the peer is newly called unresponsive only in a tick, and for a cause. */
  ghost predicate Justified(c: Core, c': Core, call: E.Call, inputs: seq<R.Input>) {
    Said(c') && !Said(c) ==>
      call.TickCall? && TookIn(c, c', inputs, call.now) && Because(c, c', inputs, call.now)
  }

  /** Neither what was filed nor what is owed depends on the transport. */
  lemma {:induction false} FiledAlike(c: Core, w: Core, inputs: seq<R.Input>)
    requires w.session == c.session && w.history == c.history
    ensures Filed(w, inputs) == Filed(c, inputs)
  {
    if inputs != [] { FiledAlike(c, w, inputs[..|inputs| - 1]); }
  }

  lemma CallIsFollowed(start: nat, cores: seq<Core>, calls: seq<E.Call>, k: nat) returns (inputs: seq<R.Input>)
    requires E.IsRun(cores, calls) && Monotone(start, calls) && k < |calls| && Followed(start, cores, calls, k)
    ensures Followed(start, cores, calls, k + 1) && Justified(cores[k], cores[k + 1], calls[k], inputs)
  {
    var c, c', call := cores[k], cores[k + 1], calls[k];
    inputs := [];
    assert c' == E.Perform(c, call);
    hide CoreTick; hide CoreSend; hide B.Taken; hide T.ClockInv; hide E.IsRun; hide HeardBy; hide SilentAt;
    hide Filed; hide Exceeds; hide R.LastReaction;
    match call
    case TickCall(now, sends, recvs, inbound) =>
      assert Latest(start, calls, k) <= now;
      var w := c.(transport := c.transport.(sends := sends, recvs := recvs, inbound := inbound));
      if c.session.state != Closed { ClockLater(c.session, Latest(start, calls, k), now); }
      inputs := CoreTickIsTicked(w, now);
      FiledAlike(c, w, inputs);
      if c'.session.state != Closed {
        LastActivityIsPast(c.session, Latest(start, calls, k));
        HeardOneMore(cores, calls, k, c.session.lastActivityMs, c'.session.lastActivityMs);
      }
    case SendCall(id, payload, sends) =>
      SendIsNothing(c.(transport := c.transport.(sends := sends)), id, payload);
      if c'.session.state != Closed {
        HeardOneMore(cores, calls, k, c.session.lastActivityMs, c.session.lastActivityMs);
      }
    case CloseCall =>
  }

  lemma LastActivityIsPast(s: Session, latest: nat)
    requires T.ClockInv(s, latest)
    ensures s.lastActivityMs <= latest
  {
  }

  lemma {:induction false} RunIsFollowed(start: nat, cores: seq<Core>, calls: seq<E.Call>, k: nat)
    requires E.IsRun(cores, calls) && Monotone(start, calls) && k <= |calls| && Followed(start, cores, calls, 0)
    ensures Followed(start, cores, calls, k)
  {
    hide Followed; hide E.IsRun; hide Monotone;
    if k > 0 {
      RunIsFollowed(start, cores, calls, k - 1);
      var _ := CallIsFollowed(start, cores, calls, k - 1);
    }
  }

  lemma InitIsFollowed(t: Transport, schema: Schema, config: Config, role: Role, start: nat,
                       cores: seq<Core>, calls: seq<E.Call>)
    requires |cores| == |calls| + 1 && Init(t, schema, config, role, start) == Some(cores[0])
    ensures Followed(start, cores, calls, 0)
  {
    var newborn := Newborn(t, schema, config, role, start);
    var out := Create(role, schema, config, start).1.out;
    E.EmitOutIsSilent(newborn, out);
    var frame := FrameOf(out, newborn.scratchCap);
    if frame.Some? { CeilingIsExact(newborn, frame.value); }
    hide SendControl; hide HelloBytes; hide HelloLen; hide FrameOf; hide EncodeFrame;
    assert newborn.outbox == [];
  }

  /** Every cause: whenever a call of any run makes a connection report its peer
      unresponsive, it is a tick. Either the connection is dead because the frame it owed
      to the last of the `inputs` of this tick - the frames taken in, and the passing of
      time once no more came - would have taken the waiting bytes past the ceiling, which
      past the handshake means that at least the ceiling was waiting; or it lives on, and
      the tick comes at least the silence window plus the heartbeat timeout after the
      start and after every call that took a frame in. */
  lemma UnresponsiveHasACause(t: Transport, schema: Schema, config: Config, role: Role, start: nat,
                              cores: seq<Core>, calls: seq<E.Call>, k: nat) returns (inputs: seq<R.Input>)
    requires E.IsRun(cores, calls) && Monotone(start, calls) && k < |calls|
    requires Init(t, schema, config, role, start) == Some(cores[0])
    requires Said(cores[k + 1]) && !Said(cores[k])
    ensures calls[k].TickCall? && TookIn(cores[k], cores[k + 1], inputs, calls[k].now)
    ensures var c, c' := cores[k], cores[k + 1];
            var quiet := SilenceMs(c.session) + c.session.config.heartbeatTimeoutMs;
      || (c'.dead == Some(Unresponsive) && Owes(c, c', inputs)
          && (c.session.state != Handshaking ==> |c'.outbox| >= MAX_OUTBOX_BYTES))
      || (c'.dead.None? && start + quiet <= calls[k].now
          && forall j | 0 <= j <= k && B.Taken(cores[j + 1].history) > B.Taken(cores[j].history) ::
               calls[j].TickCall? && calls[j].now + quiet <= calls[k].now)
  {
    InitIsFollowed(t, schema, config, role, start, cores, calls);
    hide Init; hide E.IsRun; hide Said; hide Owes; hide TookIn; hide B.Taken; hide T.ClockInv; hide Monotone;
    hide SilenceMs;
    RunIsFollowed(start, cores, calls, k);
    inputs := CallIsFollowed(start, cores, calls, k);
    var c, c' := cores[k], cores[k + 1];
    if c.session.state != Handshaking && Owes(c, c', inputs) { OwingWhenReady(c, c', inputs, calls[k].now); }
  }
}
