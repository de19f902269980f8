/** A connection is its session: whatever happens on the transport, the session of a
    connection goes through an ordinary run of inputs, everything that run reports is
    reported, in order, and everything it asks to send is sent, in order. */
module SessionOfCore {
  import opened Bytes
  import opened Frame
  import opened Schema
  import opened Handshake
  import opened Session
  import opened Core
  import opened CoreLaws
  import D = StreamDecoder
  import E = EventGrammar
  import R = SessionRuns
  import U = UnresponsiveCauses

  /** The events and the frames a run of inputs gives rise to. */
  function EventsOf(s: Session, inputs: seq<R.Input>): seq<Event> {
    if inputs == [] then []
    else EventsOf(s, inputs[..|inputs| - 1]) + OneEvent(R.LastReaction(s, inputs).event)
  }

  function OneFrame(out: Out, cap: nat): seq<Frame> {
    match FrameOf(out, cap) case None => [] case Some(frame) => [frame]
  }

  function FramesOf(s: Session, inputs: seq<R.Input>, cap: nat): seq<Frame> {
    if inputs == [] then []
    else FramesOf(s, inputs[..|inputs| - 1], cap) + OneFrame(R.LastReaction(s, inputs).out, cap)
  }

  /** The frames that carry no data of the application. */
  function ControlOf(frames: seq<Frame>): seq<Frame> {
    if frames == [] then []
    else
      var last := frames[|frames| - 1];
      ControlOf(frames[..|frames| - 1]) + if last.Data? then [] else [last]
  }

  lemma ControlPush(frames: seq<Frame>, frame: Frame)
    ensures ControlOf(frames + [frame]) == ControlOf(frames) + if frame.Data? then [] else [frame]
  {
    assert (frames + [frame])[..|frames|] == frames;
  }

  /** Every answer still to come was to come before. */
  predicate Fewer(t: Transport, t': Transport) {
    (RefuseTooLarge in t'.sends ==> RefuseTooLarge in t.sends) && t'.stream == t.stream
  }

  /** From `c` to `c'` the session went through `inputs`, and the connection told and, as
      long as it lives and no packet is too large, sent what it asked for. */
  ghost predicate Tells(c: Core, c': Core, inputs: seq<R.Input>) {
    && c'.session == R.After(c.session, inputs)
    && c'.history == U.Filed(c, inputs).(committed := c'.history.committed, events := c'.history.events)
    && c'.history.events == c.history.events + EventsOf(c.session, inputs)
    && c'.scratchCap == c.scratchCap && Fewer(c.transport, c'.transport)
    && (c'.dead.None? ==> c.dead.None?)
    && (c'.dead.None? && RefuseTooLarge !in c.transport.sends ==>
          ControlOf(c'.history.committed) == ControlOf(c.history.committed) + FramesOf(c.session, inputs, c.scratchCap))
  }

  lemma TellsItself(c: Core)
    ensures Tells(c, c, [])
  {
    assert c.history.events + [] == c.history.events;
    assert ControlOf(c.history.committed) + [] == ControlOf(c.history.committed);
  }

  // ---- One reaction ------------------------------------------------------------

  lemma SendFewer(t: Transport, bytes: seq<byte>)
    ensures Fewer(t, TransportSend(t, bytes).0)
  {
    assert t.sends != [] ==> forall a | a in t.sends[1..] :: a in t.sends;
  }

  /** What one frame or none does, handed to a living connection. */
  predicate Hands(c: Core, c': Core, frames: seq<Frame>) {
    && c'.session == c.session && c'.scratchCap == c.scratchCap && Fewer(c.transport, c'.transport)
    && c'.history == c.history.(committed := c'.history.committed)
    && (c'.dead.None? ==> c.dead.None?)
    && (c'.dead.None? && RefuseTooLarge !in c.transport.sends ==> c'.history.committed == c.history.committed + frames)
  }

  lemma WriteFrameHands(c: Core, frame: Frame)
    requires c.dead.None?
    ensures Hands(c, WriteFrame(c, frame).0, [frame])
  {
    SendFewer(c.transport, EncodeFrame(frame));
    assert c.transport.sends != [] ==> c.transport.sends[0] in c.transport.sends;
    hide EncodeFrame;
  }

  lemma EmitOutHands(c: Core, out: Out)
    requires c.dead.None?
    ensures Hands(c, EmitOut(c, out), OneFrame(out, c.scratchCap))
  {
    var frame := FrameOf(out, c.scratchCap);
    if frame.Some? { WriteFrameHands(c, frame.value); }
    hide WriteFrame; hide EncodeFrame; hide FrameOf;
    assert c.history.committed + [] == c.history.committed;
  }

  /** A reaction told and sent. */
  predicate Reacts(c: Core, c': Core, s: Session, reaction: Reaction) {
    && c'.session == s && c'.scratchCap == c.scratchCap && Fewer(c.transport, c'.transport)
    && c'.history.events == c.history.events + OneEvent(reaction.event)
    && c'.history == c.history.(committed := c'.history.committed, events := c'.history.events)
    && (c'.dead.None? ==> c.dead.None?)
    && (c'.dead.None? && RefuseTooLarge !in c.transport.sends ==>
          c'.history.committed == c.history.committed + OneFrame(reaction.out, c.scratchCap))
  }

  lemma ApplyReacts(c: Core, s: Session, reaction: Reaction)
    requires c.dead.None? || reaction.out == NoOut
    ensures Reacts(c, Apply(c.(session := s), reaction), s, reaction)
  {
    if c.dead.None? { EmitOutHands(c.(session := s), reaction.out); }
    E.ApplyReports(c.(session := s), reaction);
    hide EmitOut; hide OneFrame;
    assert OneFrame(NoOut, c.scratchCap) == [] by { assert FrameOf(NoOut, c.scratchCap) == None; }
    EmitNothing(c.(session := s));
  }

  lemma EmitNothing(c: Core)
    ensures EmitOut(c, NoOut) == c
  {
  }

  lemma InputsPush(c: Core, inputs: seq<R.Input>, input: R.Input)
    ensures EventsOf(c.session, inputs + [input])
         == EventsOf(c.session, inputs) + OneEvent(R.Respond(R.After(c.session, inputs), input).1.event)
    ensures FramesOf(c.session, inputs + [input], c.scratchCap)
         == FramesOf(c.session, inputs, c.scratchCap)
            + OneFrame(R.Respond(R.After(c.session, inputs), input).1.out, c.scratchCap)
  {
    assert (inputs + [input])[..|inputs|] == inputs;
    U.InputsGrow(c, inputs, input);
    hide R.Respond; hide R.After; hide R.LastReaction; hide OneFrame;
  }

  lemma ControlOfOne(frames: seq<Frame>, out: Out, cap: nat)
    ensures ControlOf(frames + OneFrame(out, cap)) == ControlOf(frames) + OneFrame(out, cap)
  {
    var frame := FrameOf(out, cap);
    if frame.Some? {
      ControlPush(frames, frame.value);
    } else {
      assert frames + [] == frames && ControlOf(frames) + [] == ControlOf(frames);
    }
  }

  /** One more input and its reaction. */
  lemma TellsOneMore(c: Core, c1: Core, c2: Core, inputs: seq<R.Input>, input: R.Input, noted: History)
    requires Tells(c, c1, inputs) && (c1.dead.None? || R.Respond(c1.session, input).1.out == NoOut)
    requires noted == (match input
                       case Hear(frame, _) => Note(c1.history, c1.session.state, frame)
                       case _ => c1.history)
    requires var (s, reaction) := R.Respond(c1.session, input); Reacts(c1.(history := noted), c2, s, reaction)
    ensures Tells(c, c2, inputs + [input])
  {
    var reaction := R.Respond(c1.session, input).1;
    U.InputsGrow(c, inputs, input);
    InputsPush(c, inputs, input);
    ControlOfOne(c1.history.committed, reaction.out, c.scratchCap);
    hide R.Respond; hide R.After; hide R.LastReaction; hide OneFrame; hide U.Filed; hide EventsOf; hide FramesOf;
    hide ControlOf; hide OneEvent;
    var told := EventsOf(c.session, inputs);
    assert c.history.events + told + OneEvent(reaction.event) == c.history.events + (told + OneEvent(reaction.event));
    var sent := FramesOf(c.session, inputs, c.scratchCap);
    assert ControlOf(c.history.committed) + sent + OneFrame(reaction.out, c.scratchCap)
        == ControlOf(c.history.committed) + (sent + OneFrame(reaction.out, c.scratchCap));
  }

  // ---- One tick ----------------------------------------------------------------

  lemma TakeInTells(c: Core, c1: Core, inputs: seq<R.Input>, frame: Frame, now: nat)
    requires Tells(c, c1, inputs) && c1.dead.None?
    ensures Tells(c, TakeIn(c1, frame, now), inputs + [R.Hear(frame, now)])
  {
    var (s, reaction) := OnFrame(c1.session, frame, now);
    var noted := Note(c1.history, c1.session.state, frame);
    ApplyReacts(c1.(history := noted), s, reaction);
    hide OnFrame; hide Apply; hide Tells; hide Reacts; hide Note;
    TellsOneMore(c, c1, TakeIn(c1, frame, now), inputs, R.Hear(frame, now), noted);
  }

  lemma NothingTold(c: Core, c1: Core, c2: Core, inputs: seq<R.Input>)
    requires Tells(c, c1, inputs)
    requires c2.session == c1.session && c2.history == c1.history && c2.scratchCap == c1.scratchCap
    requires Fewer(c1.transport, c2.transport) && (c2.dead.None? ==> c1.dead.None?)
    ensures Tells(c, c2, inputs)
  {
    hide R.After; hide U.Filed; hide EventsOf; hide FramesOf; hide ControlOf;
  }

  ghost predicate AllHeard(heard: seq<R.Input>, now: nat) {
    forall i | 0 <= i < |heard| :: heard[i].Hear? && heard[i].now == now
  }

  lemma ReceiveTells(c: Core, c1: Core, heard: seq<R.Input>, now: nat) returns (more: seq<R.Input>)
    requires Tells(c, c1, heard) && c1.dead.None? && AllHeard(heard, now)
    ensures Tells(c, Receive(c1, now).0, more) && AllHeard(more, now)
  {
    hide TakeIn; hide DecodePacket; hide D.Feed; hide Tells;
    var (t, result) := TransportRecv(c1.transport, c1.recvCap);
    assert Fewer(c1.transport, t);
    hide TransportRecv;
    NothingTold(c, c1, c1.(transport := t), heard);
    more := heard;
    if result.Received? && !t.stream {
      var packet := DecodePacket(result.bytes, c1.session.config.maxMessageBytes);
      if packet.Packet? {
        TakeInTells(c, c1.(transport := t), heard, packet.frame, now);
        return heard + [R.Hear(packet.frame, now)];
      }
    } else {
      NothingTold(c, c1, Receive(c1, now).0, heard);
    }
  }

  lemma DrainStepTells(c: Core, c1: Core, heard: seq<R.Input>, now: nat) returns (more: seq<R.Input>)
    requires Tells(c, c1, heard) && c1.dead.None? && AllHeard(heard, now)
    ensures Tells(c, DrainStep(c1, now).0, more) && AllHeard(more, now)
  {
    hide Receive; hide TakeIn; hide D.NextResult; hide D.Advance; hide D.AfterNext; hide Tells;
    more := ReceiveTells(c, c1, heard, now);
    if c1.transport.stream {
      match D.NextResult(c1.decoder)
      case Decoded(frame, used) =>
        more := heard + [R.Hear(frame, now)];
        TakeInTells(c, c1, heard, frame, now);
        NothingTold(c, TakeIn(c1, frame, now), DrainStep(c1, now).0, more);
      case Bad(_) =>
        more := heard;
        NothingTold(c, c1, DrainStep(c1, now).0, heard);
      case Incomplete =>
    }
  }

  lemma {:induction false} DrainTells(c: Core, c1: Core, heard: seq<R.Input>, now: nat, frames: nat, turns: nat)
    returns (more: seq<R.Input>)
    requires Tells(c, c1, heard) && AllHeard(heard, now)
    ensures Tells(c, Drain(c1, now, frames, turns), more) && AllHeard(more, now)
    decreases frames + turns
  {
    hide DrainStep; hide Tells; hide AllHeard;
    more := heard;
    if frames != 0 && turns != 0 && c1.dead.None? {
      more := DrainStepTells(c, c1, heard, now);
      var (c2, use) := DrainStep(c1, now);
      match use
      case UsedFrame => more := DrainTells(c, c2, more, now, frames - 1, turns);
      case UsedRead => more := DrainTells(c, c2, more, now, frames, turns - 1);
      case Stop =>
    }
  }

  lemma {:induction false} FlushTells(c: Core)
    ensures var c' := Flush(c);
      && c'.session == c.session && c'.history == c.history && c'.scratchCap == c.scratchCap
      && Fewer(c.transport, c'.transport) && (c'.dead.None? ==> c.dead.None?)
    decreases |c.outbox|
  {
    hide TransportSend;
    if c.outbox != [] {
      var (t, result) := TransportSend(c.transport, c.outbox);
      SendFewer(c.transport, c.outbox);
      if result.Partial? && result.accepted > 0 {
        FlushTells(c.(transport := t,
          outbox := if result.accepted <= |c.outbox| then c.outbox[result.accepted..] else []));
      }
    }
  }

  /** What a tick leaves behind: the session was ticked, last, unless the connection died
      before that; and a connection that is dead has told its session so. */
  ghost predicate TickInputs(c: Core, inputs: seq<R.Input>, now: nat) {
    exists heard: seq<R.Input>, passed: bool, lost: bool :: Composed(c, inputs, now, heard, passed, lost)
  }

  ghost predicate Composed(c: Core, inputs: seq<R.Input>, now: nat, heard: seq<R.Input>, passed: bool, lost: bool) {
    && AllHeard(heard, now)
    && (c.dead.None? ==> passed && !lost) && (lost ==> c.dead.Some?) && (c.dead.Some? ==> c.session.state == Closed)
    && inputs == heard + (if passed then [R.Pass(now)] else []) + (if lost then [R.Lose(c.dead.value)] else [])
  }

  lemma CoreTickTells(c: Core, now: nat) returns (inputs: seq<R.Input>)
    ensures Tells(Announce(c), CoreTick(c, now), inputs) && TickInputs(CoreTick(c, now), inputs, now)
  {
    hide Flush; hide Drain; hide Tells; hide Tick; hide TransportClosed;
    var a := Announce(c);
    var c2 := FlushIfAlive(a);
    TellsItself(a);
    FlushTells(a);
    NothingTold(a, a, c2, []);
    var n := c2.session.config.maxFramesPerTick;
    var c3, heard := DrainIfAlive(c2, now), [];
    if c2.dead.None? { heard := DrainTells(a, c2, [], now, n, n); }
    var c4 := TickIfAlive(c3, now);
    inputs := heard;
    if c3.dead.None? {
      ApplyReacts(c3, Tick(c3.session, now).0, Tick(c3.session, now).1);
      hide Apply; hide Reacts;
      TellsOneMore(a, c3, c4, inputs, R.Pass(now), c3.history);
      inputs := inputs + [R.Pass(now)];
    }
    var lost := c4.dead.Some? && c4.session.state != Closed;
    if lost {
      TransportClosedIsQuiet(c4.session, c4.dead.value);
      var (s, reaction) := TransportClosed(c4.session, c4.dead.value);
      ApplyReacts(c4, s, reaction);
      BuryIsDead(c4);
      hide Apply; hide Reacts;
      TellsOneMore(a, c4, Bury(c4), inputs, R.Lose(c4.dead.value), c4.history);
      inputs := inputs + [R.Lose(c4.dead.value)];
    }
    assert Bury(c4).dead == c4.dead;
    assert Composed(Bury(c4), inputs, now, heard, c3.dead.None?, lost);
  }

  lemma TransportClosedIsQuiet(s: Session, reason: Disconnect)
    ensures TransportClosed(s, reason).1.out == NoOut && TransportClosed(s, reason).0.state == Closed
    ensures var event := TransportClosed(s, reason).1.event; event.Some? ==> event.value.Disconnected?
  {
  }

  lemma BuryIsDead(c: Core)
    requires c.dead.Some? && c.session.state != Closed
    ensures Bury(c).dead == c.dead && Bury(c).session.state == Closed
  {
  }

  // ---- Every run ---------------------------------------------------------------

  /** The whole story of a connection, from the first session on. */
  ghost predicate Story(start: Session, opening: seq<Frame>, cap: nat, c: Core, inputs: seq<R.Input>, tame: bool) {
    && c.session == R.After(start, inputs) && c.scratchCap == cap
    && c.history.events == (if c.announced then [Connected] else []) + EventsOf(start, inputs)
    && (!c.announced ==> EventsOf(start, inputs) == [])
    && (c.dead.None? && tame ==> ControlOf(c.history.committed) == opening + FramesOf(start, inputs, cap))
  }

  lemma {:induction false} AfterComposes(s: Session, a: seq<R.Input>, b: seq<R.Input>)
    ensures R.After(s, a + b) == R.After(R.After(s, a), b)
    decreases |b|
  {
    hide R.Respond;
    if b == [] {
      assert a + b == a;
    } else {
      AfterComposes(s, a, b[..|b| - 1]);
      assert (a + b)[..|a + b| - 1] == a + b[..|b| - 1];
    }
  }

  lemma Regroup<A>(x: seq<A>, y: seq<A>, z: seq<A>)
    ensures x + y + z == x + (y + z)
  {
  }

  lemma NothingYet(s: Session, cap: nat)
    ensures EventsOf(s, []) == [] && FramesOf(s, [], cap) == []
  {
  }

  lemma {:induction false} StoriesCompose(s: Session, a: seq<R.Input>, b: seq<R.Input>, cap: nat)
    ensures EventsOf(s, a + b) == EventsOf(s, a) + EventsOf(R.After(s, a), b)
    ensures FramesOf(s, a + b, cap) == FramesOf(s, a, cap) + FramesOf(R.After(s, a), b, cap)
    decreases |b|
  {
    hide R.After; hide EventsOf; hide FramesOf; hide R.Respond; hide OneEvent; hide OneFrame;
    var mid := R.After(s, a);
    if b == [] {
      NothingYet(mid, cap);
      assert a + b == a;
    } else {
      var init, last := b[..|b| - 1], b[|b| - 1];
      StoriesCompose(s, a, init, cap);
      AfterComposes(s, a, init);
      RunGrows(s, a + init, last, cap);
      RunGrows(mid, init, last, cap);
      assert init + [last] == b;
      Regroup(a, init, [last]);
      var reaction := R.Respond(R.After(mid, init), last).1;
      Regroup(EventsOf(s, a), EventsOf(mid, init), OneEvent(reaction.event));
      Regroup(FramesOf(s, a, cap), FramesOf(mid, init, cap), OneFrame(reaction.out, cap));
    }
  }

  lemma RunsCompose(s: Session, a: seq<R.Input>, b: seq<R.Input>, cap: nat)
    ensures R.After(s, a + b) == R.After(R.After(s, a), b)
    ensures EventsOf(s, a + b) == EventsOf(s, a) + EventsOf(R.After(s, a), b)
    ensures FramesOf(s, a + b, cap) == FramesOf(s, a, cap) + FramesOf(R.After(s, a), b, cap)
  {
    AfterComposes(s, a, b);
    StoriesCompose(s, a, b, cap);
    hide *;
  }

  lemma RunGrows(s: Session, inputs: seq<R.Input>, input: R.Input, cap: nat)
    ensures var (s', reaction) := R.Respond(R.After(s, inputs), input);
      && R.After(s, inputs + [input]) == s'
      && EventsOf(s, inputs + [input]) == EventsOf(s, inputs) + OneEvent(reaction.event)
      && FramesOf(s, inputs + [input], cap) == FramesOf(s, inputs, cap) + OneFrame(reaction.out, cap)
  {
    hide R.Respond; hide OneFrame; hide OneEvent;
    assert (inputs + [input])[..|inputs|] == inputs;
  }

  /** No packet of the run is too large for its transport. */
  ghost predicate Tame(t: Transport, calls: seq<E.Call>) {
    && RefuseTooLarge !in t.sends
    && forall i | 0 <= i < |calls| ::
         match calls[i]
         case TickCall(_, sends, _, _) => RefuseTooLarge !in sends
         case SendCall(_, _, sends) => RefuseTooLarge !in sends
         case CloseCall => true
  }

  /** What one call makes of the session, and what is told and sent of it. */
  ghost predicate CallTells(c: Core, c': Core, call: E.Call, inputs: seq<R.Input>) {
    && c'.session == R.After(c.session, inputs) && c'.scratchCap == c.scratchCap
    && (call.TickCall? ==> TickInputs(c', inputs, call.now) && c'.announced)
    && (call.SendCall? ==> inputs == []) && (call.CloseCall? ==> inputs == [R.Shut] && c'.dead.Some?)
    && (!call.TickCall? ==> c'.announced == c.announced)
    && c'.history.events == c.history.events + (if call.TickCall? && !c.announced then [Connected] else [])
                            + EventsOf(c.session, inputs)
    && (c'.dead.None? ==> c.dead.None?)
    && (c'.dead.None? && (call.TickCall? || call.SendCall? ==> RefuseTooLarge !in call.sends) ==>
          ControlOf(c'.history.committed) == ControlOf(c.history.committed) + FramesOf(c.session, inputs, c.scratchCap))
  }

  lemma TickCallTells(c: Core, call: E.Call) returns (inputs: seq<R.Input>)
    requires call.TickCall?
    ensures CallTells(c, E.Perform(c, call), call, inputs)
  {
    var w := c.(transport := c.transport.(sends := call.sends, recvs := call.recvs, inbound := call.inbound));
    inputs := CoreTickTells(w, call.now);
    TickAnnounces(w, call.now);
    hide CoreTick; hide TickInputs; hide EventsOf; hide FramesOf; hide ControlOf; hide R.After; hide U.Filed;
    assert w.history.events + [] == w.history.events;
  }

  lemma TickAnnounces(c: Core, now: nat)
    ensures CoreTick(c, now).announced
  {
    E.FlushIsSilent(Announce(c));
    var c2 := FlushIfAlive(Announce(c));
    DrainKeepsAnnounced(c2, now, c2.session.config.maxFramesPerTick, c2.session.config.maxFramesPerTick);
    var c3 := DrainIfAlive(c2, now);
    var c4 := TickIfAlive(c3, now);
    E.ApplyReports(c3.(session := Tick(c3.session, now).0), Tick(c3.session, now).1);
    if c4.dead.Some? {
      var (s, reaction) := TransportClosed(c4.session, c4.dead.value);
      E.ApplyReports(c4.(session := s), reaction);
    }
    hide Flush; hide Drain; hide Apply; hide Tick; hide TransportClosed;
  }

  lemma {:induction false} DrainKeepsAnnounced(c: Core, now: nat, frames: nat, turns: nat)
    ensures Drain(c, now, frames, turns).announced == c.announced
    decreases frames + turns
  {
    hide DrainStep;
    if frames != 0 && turns != 0 && c.dead.None? {
      StepKeepsAnnounced(c, now);
      var (c', use) := DrainStep(c, now);
      match use
      case UsedFrame => DrainKeepsAnnounced(c', now, frames - 1, turns);
      case UsedRead => DrainKeepsAnnounced(c', now, frames, turns - 1);
      case Stop =>
    }
  }

  lemma TakeInKeepsAnnounced(c: Core, frame: Frame, now: nat)
    ensures TakeIn(c, frame, now).announced == c.announced
  {
    var (s, reaction) := OnFrame(c.session, frame, now);
    E.ApplyReports(c.(session := s, history := Note(c.history, c.session.state, frame)), reaction);
    hide OnFrame; hide Apply;
  }

  lemma StepKeepsAnnounced(c: Core, now: nat)
    ensures DrainStep(c, now).0.announced == c.announced
  {
    hide TakeIn; hide DecodePacket; hide D.Feed; hide D.NextResult; hide D.Advance; hide D.AfterNext;
    var (t, result) := TransportRecv(c.transport, c.recvCap);
    if result.Received? {
      var packet := DecodePacket(result.bytes, c.session.config.maxMessageBytes);
      if packet.Packet? { TakeInKeepsAnnounced(c.(transport := t), packet.frame, now); }
    }
    match D.NextResult(c.decoder)
    case Decoded(frame, _) => TakeInKeepsAnnounced(c, frame, now);
    case _ =>
  }

  lemma SendCallTells(c: Core, call: E.Call)
    requires call.SendCall?
    ensures CallTells(c, E.Perform(c, call), call, [])
  {
    var w := c.(transport := c.transport.(sends := call.sends));
    var frame := Data(call.id, call.payload);
    E.WriteFrameIsSilent(w, frame);
    if w.dead.None? { WriteFrameHands(w, frame); }
    ControlPush(c.history.committed, frame);
    hide WriteFrame; hide ControlOf;
    assert c.history.events + [] + [] == c.history.events;
    assert ControlOf(c.history.committed) + [] == ControlOf(c.history.committed);
  }

  lemma CloseCallTells(c: Core)
    ensures CallTells(c, E.Perform(c, E.CloseCall), E.CloseCall, [R.Shut])
  {
    assert [R.Shut][..0] == [];
    assert EventsOf(c.session, [R.Shut]) == [] + [] == [];
    assert c.history.events + [] + [] == c.history.events;
  }

  lemma CallIsTold(c: Core, call: E.Call) returns (inputs: seq<R.Input>)
    ensures CallTells(c, E.Perform(c, call), call, inputs)
  {
    hide E.Perform; hide CallTells;
    match call
    case TickCall(_, _, _, _) => inputs := TickCallTells(c, call);
    case SendCall(_, _, _) => SendCallTells(c, call); inputs := [];
    case CloseCall => CloseCallTells(c); inputs := [R.Shut];
  }

  /** Before the first tick there is nothing to tell. */
  lemma EventsGoOn(was: seq<Event>, told: seq<Event>, more: seq<Event>, now: seq<Event>, announced: bool, first: bool)
    requires was == (if announced then [Connected] else []) + told && (!announced ==> told == [])
    requires now == was + (if first && !announced then [Connected] else []) + more
    requires !first && !announced ==> more == []
    ensures now == (if announced || first then [Connected] else []) + (told + more)
    ensures !announced && !first ==> told + more == []
  {
  }

  lemma FramesGoOn(opening: seq<Frame>, was: seq<Frame>, sent: seq<Frame>, more: seq<Frame>)
    requires was == opening + sent
    ensures was + more == opening + (sent + more)
  {
  }

  lemma StoryGoesOn(start: Session, opening: seq<Frame>, cap: nat, c: Core, c': Core, call: E.Call,
                    inputs: seq<R.Input>, more: seq<R.Input>, tame: bool)
    requires Story(start, opening, cap, c, inputs, tame) && CallTells(c, c', call, more)
    requires tame && (call.TickCall? || call.SendCall?) ==> RefuseTooLarge !in call.sends
    ensures Story(start, opening, cap, c', inputs + more, tame)
  {
    RunsCompose(start, inputs, more, cap);
    assert !call.TickCall? ==> EventsOf(c.session, more) == [] by {
      if call.CloseCall? { assert [R.Shut][..0] == []; }
    }
    hide R.After; hide TickInputs; hide FramesOf; hide ControlOf; hide EventsOf;
    EventsGoOn(c.history.events, EventsOf(start, inputs), EventsOf(c.session, more), c'.history.events, c.announced,
               call.TickCall?);
    if c'.dead.None? && tame {
      FramesGoOn(opening, ControlOf(c.history.committed), FramesOf(start, inputs, cap), FramesOf(c.session, more, cap));
    }
  }

  /** Every connection is its session: at every moment of every run the session is what a
      run of inputs makes of the first one; after CONNECTED, the events are exactly what
      that run reports; and while the connection lives and no packet is too large, the
      frames put on their way, data aside, are exactly what it asked to send. */
  lemma {:induction false} ConnectionIsItsSession(t: Transport, schema: Schema, config: Config, role: Role, now: nat,
                                                  cores: seq<Core>, calls: seq<E.Call>, k: nat)
    returns (inputs: seq<R.Input>)
    requires E.IsRun(cores, calls) && k < |cores| && Init(t, schema, config, role, now) == Some(cores[0])
    ensures var (start, opening) := Create(role, schema, config, now); var cap := ScratchSize(schema, config);
      Story(start, OneFrame(opening.out, cap), cap, cores[k], inputs, Tame(t, calls))
    ensures k > 0 && calls[k - 1].TickCall? && cores[k].dead.None? ==>
      inputs != [] && inputs[|inputs| - 1] == R.Pass(calls[k - 1].now)
    decreases k
  {
    var (start, opening) := Create(role, schema, config, now);
    var cap := ScratchSize(schema, config);
    if k == 0 {
      InitTells(t, schema, config, role, now, calls);
      inputs := [];
    } else {
      var before := ConnectionIsItsSession(t, schema, config, role, now, cores, calls, k - 1);
      hide Create; hide Init; hide Story; hide CallTells; hide E.Perform; hide ScratchSize;
      var more := CallIsTold(cores[k - 1], calls[k - 1]);
      assert cores[k] == E.Perform(cores[k - 1], calls[k - 1]);
      StoryGoesOn(start, OneFrame(opening.out, cap), cap, cores[k - 1], cores[k], calls[k - 1], before, more,
                  Tame(t, calls));
      inputs := before + more;
      if calls[k - 1].TickCall? && cores[k].dead.None? { LivingTickPassed(cores[k - 1], cores[k], calls[k - 1], more); }
    }
  }

  lemma LivingTickPassed(c: Core, c': Core, call: E.Call, inputs: seq<R.Input>)
    requires CallTells(c, c', call, inputs) && call.TickCall? && c'.dead.None?
    ensures inputs != [] && inputs[|inputs| - 1] == R.Pass(call.now)
  {
    hide R.After; hide EventsOf; hide FramesOf; hide ControlOf;
    var heard: seq<R.Input>, passed: bool, lost: bool :| Composed(c', inputs, call.now, heard, passed, lost);
  }

  /** The story begins with the opening. */
  lemma StoryBegins(newborn: Core, c: Core, frames: seq<Frame>, tame: bool)
    requires Hands(newborn, c, frames) && newborn.history == History([], [], [], [], []) && !c.announced
    requires tame ==> RefuseTooLarge !in newborn.transport.sends
    requires ControlOf([] + frames) == frames
    ensures Story(newborn.session, frames, newborn.scratchCap, c, [], tame)
  {
    assert [] + frames == frames && frames + [] == frames;
    assert EventsOf(newborn.session, []) == [] && FramesOf(newborn.session, [], newborn.scratchCap) == [];
    hide ControlOf;
  }

  lemma InitTells(t: Transport, schema: Schema, config: Config, role: Role, now: nat, calls: seq<E.Call>)
    requires Init(t, schema, config, role, now).Some?
    ensures var (start, opening) := Create(role, schema, config, now); var cap := ScratchSize(schema, config);
      Story(start, OneFrame(opening.out, cap), cap, Init(t, schema, config, role, now).value, [], Tame(t, calls))
  {
    var opening := Create(role, schema, config, now).1;
    var newborn := Newborn(t, schema, config, role, now);
    hide EmitOut; hide OneFrame; hide Create; hide HelloLen; hide ScratchSize; hide Story; hide Hands; hide ControlOf;
    EmitOutHands(newborn, opening.out);
    E.EmitOutIsSilent(newborn, opening.out);
    ControlOfOne([], opening.out, newborn.scratchCap);
    assert ControlOf([]) == [] by { NoControl(); }
    assert [] + OneFrame(opening.out, newborn.scratchCap) == OneFrame(opening.out, newborn.scratchCap);
    StoryBegins(newborn, EmitOut(newborn, opening.out), OneFrame(opening.out, newborn.scratchCap), Tame(t, calls));
  }

  lemma NoControl()
    ensures ControlOf([]) == []
  {
  }
}
