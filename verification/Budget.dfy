/** What one tick may do: it takes in no more frames than the configuration allows,
    however many the peer has sent. */
module Budget {
  import opened Frame
  import opened Session
  import opened Core
  import E = EventGrammar
  import D = StreamDecoder

  /** How many frames a connection has taken in. */
  function Taken(h: History): nat {
    |h.early| + |h.live| + |h.late|
  }

  lemma ApplyTakesNothing(c: Core, reaction: Reaction)
    ensures Taken(Apply(c, reaction).history) == Taken(c.history)
    ensures Apply(c, reaction).session == c.session
  {
    E.EmitOutIsSilent(c, reaction.out);
    hide EmitOut;
  }

  lemma TakeInTakesOne(c: Core, frame: Frame, now: nat)
    ensures Taken(TakeIn(c, frame, now).history) == Taken(c.history) + 1
    ensures TakeIn(c, frame, now).session == OnFrame(c.session, frame, now).0
  {
    var (s, reaction) := OnFrame(c.session, frame, now);
    hide OnFrame; hide Apply;
    ApplyTakesNothing(c.(session := s, history := Note(c.history, c.session.state, frame)), reaction);
  }

  lemma ReceiveTakes(c: Core, now: nat)
    ensures var (c', use) := Receive(c, now);
      Taken(c'.history) <= Taken(c.history) + if use.UsedFrame? then 1 else 0
  {
    hide TransportRecv; hide TakeIn; hide DecodePacket; hide D.Feed; hide Taken;
    var (t, result) := TransportRecv(c.transport, c.recvCap);
    if result.Received? && !t.stream {
      var packet := DecodePacket(result.bytes, c.session.config.maxMessageBytes);
      if packet.Packet? { TakeInTakesOne(c.(transport := t), packet.frame, now); }
    }
  }

  lemma DrainStepTakes(c: Core, now: nat)
    ensures var (c', use) := DrainStep(c, now);
      Taken(c'.history) <= Taken(c.history) + if use.UsedFrame? then 1 else 0
  {
    hide Receive; hide TakeIn; hide D.NextResult; hide D.Advance; hide D.AfterNext; hide Taken;
    ReceiveTakes(c, now);
    match D.NextResult(c.decoder)
    case Decoded(frame, _) => TakeInTakesOne(c, frame, now);
    case _ =>
  }

  lemma {:induction false} DrainTakes(c: Core, now: nat, frames: nat, turns: nat)
    ensures Taken(Drain(c, now, frames, turns).history) <= Taken(c.history) + frames
    decreases frames + turns
  {
    hide DrainStep; hide Taken;
    if frames != 0 && turns != 0 && c.dead.None? {
      DrainStepTakes(c, now);
      var (c', use) := DrainStep(c, now);
      match use
      case UsedFrame => DrainTakes(c', now, frames - 1, turns);
      case UsedRead => DrainTakes(c', now, frames, turns - 1);
      case Stop =>
    }
  }

  /** A tick stays within its budget of frames, whatever has arrived. */
  lemma TickStaysInBudget(c: Core, now: nat)
    ensures Taken(CoreTick(c, now).history) <= Taken(c.history) + c.session.config.maxFramesPerTick
  {
    var c1 := FlushIfAlive(Announce(c));
    E.FlushIsSilent(Announce(c));
    hide Flush; hide Drain; hide Apply; hide Tick; hide TransportClosed;
    assert Taken(c1.history) == Taken(c.history) && c1.session == c.session;
    var c2 := DrainIfAlive(c1, now);
    DrainTakes(c1, now, c.session.config.maxFramesPerTick, c.session.config.maxFramesPerTick);
    hide Taken;
    var (s, reaction) := Tick(c2.session, now);
    ApplyTakesNothing(c2.(session := s), reaction);
    var c3 := TickIfAlive(c2, now);
    if c3.dead.Some? {
      var (s', reaction') := TransportClosed(c3.session, c3.dead.value);
      ApplyTakesNothing(c3.(session := s'), reaction');
    }
    SessionDoesNotCount(c2, s);
    if c3.dead.Some? { SessionDoesNotCount(c3, TransportClosed(c3.session, c3.dead.value).0); }
  }

  lemma SessionDoesNotCount(c: Core, s: Session)
    ensures Taken(c.(session := s).history) == Taken(c.history)
  {
  }
}
