/** What a tick gets done: it hears all that its budget and the transport allow, sends all
    that the transport takes, and gives up a handshake whose time is over. */
module Liveness {
  import opened Bytes
  import opened Frame
  import opened Schema
  import opened Handshake
  import opened Session
  import opened Core
  import opened Endings
  import B = Budget
  import D = StreamDecoder
  import E = EventGrammar
  import R = SessionRuns
  import S = SessionOfCore
  import T = SessionTiming
  import U = UnresponsiveCauses
  import W = Timeouts

  // ---- Hearing all there is ----------------------------------------------------

  /** How many answers were used up. */
  function Reads(c: Core, c': Core): nat {
    |Spent(c.transport.recvs, c'.transport.recvs)|
  }

  /** Nothing more to take in: no whole frame is pending and the last read gave nothing. */
  predicate Starved(c: Core, c': Core) {
    && (c'.transport.stream ==> D.NextResult(c'.decoder).Incomplete?)
    && (c'.transport.recvs == []
        || var read := Spent(c.transport.recvs, c'.transport.recvs); read != [] && read[|read| - 1] == GiveNothing)
  }

  /** The budget is used up: as many frames taken in, or as many reads, as allowed; for
      packets, which are a frame and a read in one, as many reads. */
  predicate Exhausted(c: Core, c': Core, frames: nat, turns: nat) {
    if c.transport.stream
    then B.Taken(c'.history) == B.Taken(c.history) + frames || Reads(c, c') == turns
    else Reads(c, c') >= Min(frames, turns)
  }

  /** The receive buffer has grown to every size asked for. */
  ghost predicate HasRoom(c: Core, c': Core) {
    && c'.recvCap >= c.recvCap
    && forall needed | AskRoom(needed) in Spent(c.transport.recvs, c'.transport.recvs) :: c'.recvCap >= needed
  }

  /** What one turn of the drain uses up. */
  predicate Used(c: Core, c': Core, use: Use) {
    && Rest(c.transport.recvs, c'.transport.recvs) && c'.transport.stream == c.transport.stream
    && (match use
        case UsedFrame =>
          if c.transport.stream then Reads(c, c') == 0 && B.Taken(c'.history) == B.Taken(c.history) + 1
          else Reads(c, c') == 1
        case UsedRead => Reads(c, c') == 1 && B.Taken(c'.history) == B.Taken(c.history)
        case Stop => c'.dead.Some? || Starved(c, c'))
  }

  /** Sending one frame leaves the listening side alone. */
  predicate SameSource(c: Core, c': Core) {
    && c'.transport.recvs == c.transport.recvs && c'.transport.inbound == c.transport.inbound
    && c'.transport.stream == c.transport.stream && c'.recvCap == c.recvCap && c'.decoder == c.decoder
  }

  lemma EmitOutListens(c: Core, out: Out)
    ensures SameSource(c, EmitOut(c, out))
  {
    hide FrameOf; hide EncodeFrame;
  }

  lemma TakeInUses(c: Core, frame: Frame, now: nat)
    ensures var c' := TakeIn(c, frame, now); SameSource(c, c') && B.Taken(c'.history) == B.Taken(c.history) + 1
  {
    var (s, reaction) := OnFrame(c.session, frame, now);
    B.TakeInTakesOne(c, frame, now);
    EmitOutListens(c.(session := s, history := Note(c.history, c.session.state, frame)), reaction.out);
    hide OnFrame; hide EmitOut; hide B.Taken; hide Note;
  }

  lemma RecvUses(t: Transport, cap: nat)
    ensures var (t', result) := TransportRecv(t, cap); var spent := Spent(t.recvs, t'.recvs);
      && Rest(t.recvs, t'.recvs) && t'.sends == t.sends && t'.stream == t.stream && t'.accepted == t.accepted
      && (result.NeedCapacity? ==> spent == [AskRoom(result.needed)])
      && (result.Received? ==> |spent| == 1 && spent[0].Give?)
      && (result.RecvBlocks? ==> (spent == [] && t.recvs == []) || spent == [GiveNothing])
      && (!result.NeedCapacity? ==> forall a | a in spent :: !a.AskRoom?)
  {
    if t.recvs == [] { SpentNothing(t.recvs); } else { SpentOne(t.recvs); }
    hide Rest; hide Spent;
  }

  lemma ReceiveUses(c: Core, now: nat)
    requires c.dead.None? && (c.transport.stream ==> D.NextResult(c.decoder).Incomplete?)
    ensures var (c', use) := Receive(c, now); Used(c, c', use) && HasRoom(c, c')
  {
    RecvUses(c.transport, c.recvCap);
    var (t, result) := TransportRecv(c.transport, c.recvCap);
    var packet := if result.Received? then DecodePacket(result.bytes, c.session.config.maxMessageBytes)
                  else BadPacket(Truncated);
    if packet.Packet? { TakeInUses(c.(transport := t), packet.frame, now); }
    hide TransportRecv; hide DecodePacket; hide D.Feed; hide D.NextResult; hide TakeIn; hide Rest; hide Spent;
    hide B.Taken;
  }

  lemma DrainStepUses(c: Core, now: nat)
    requires c.dead.None?
    ensures var (c', use) := DrainStep(c, now); Used(c, c', use) && HasRoom(c, c')
  {
    SpentNothing(c.transport.recvs);
    hide Receive; hide TakeIn; hide D.Advance; hide D.AfterNext; hide Spent; hide Rest; hide B.Taken; hide D.NextResult;
    if c.transport.stream {
      match D.NextResult(c.decoder)
      case Decoded(frame, used) => TakeInUses(c, frame, now);
      case Bad(_) =>
      case Incomplete => ReceiveUses(c, now);
    } else {
      ReceiveUses(c, now);
    }
  }

  lemma UsedThen(a: Core, b: Core, c: Core, use: Use, frames: nat, turns: nat)
    requires Used(a, b, use) && HasRoom(a, b) && !use.Stop? && frames > 0 && turns > 0
    requires Rest(b.transport.recvs, c.transport.recvs) && HasRoom(b, c) && c.transport.stream == b.transport.stream
    requires c.dead.Some? || Starved(b, c)
      || Exhausted(b, c, if use.UsedFrame? then frames - 1 else frames, if use.UsedRead? then turns - 1 else turns)
    ensures Rest(a.transport.recvs, c.transport.recvs) && HasRoom(a, c)
    ensures c.dead.Some? || Starved(a, c) || Exhausted(a, c, frames, turns)
  {
    SpentTwice(a.transport.recvs, b.transport.recvs, c.transport.recvs);
    hide Rest; hide Spent; hide B.Taken; hide D.NextResult;
  }

  /** A drain that leaves the connection alive has used up its budget or taken in all there
      is, over both kinds of transport; and its buffer has grown as asked. */
  lemma {:induction false} DrainIsThorough(c: Core, now: nat, frames: nat, turns: nat)
    requires c.dead.None?
    ensures var c' := Drain(c, now, frames, turns);
      && Rest(c.transport.recvs, c'.transport.recvs) && HasRoom(c, c') && c'.transport.stream == c.transport.stream
      && (c'.dead.Some? || Exhausted(c, c', frames, turns) || Starved(c, c'))
    decreases frames + turns
  {
    SpentNothing(c.transport.recvs);
    if frames != 0 && turns != 0 {
      DrainStepUses(c, now);
      hide DrainStep; hide Exhausted; hide Starved; hide HasRoom; hide Rest; hide Spent;
      var (c1, use) := DrainStep(c, now);
      var c' := Drain(c, now, frames, turns);
      if use.Stop? {
        assert c' == c1;
      } else if c1.dead.Some? {
        assert Drain(c1, now, frames - 1, turns) == c1 && Drain(c1, now, frames, turns - 1) == c1;
      } else {
        DrainIsThorough(c1, now, if use.UsedFrame? then frames - 1 else frames,
                        if use.UsedRead? then turns - 1 else turns);
        hide Used;
        UsedThen(c, c1, c', use, frames, turns);
      }
    }
  }

  // ---- Hearing every packet ----------------------------------------------------

  /** The packets the first `count` reads hand over. */
  function Incoming(t: Transport, cap: nat, count: nat): seq<seq<byte>>
    decreases count
  {
    if count == 0 then []
    else
      var (t', result) := TransportRecv(t, cap);
      match result
      case Received(bytes) => [bytes] + Incoming(t', cap, count - 1)
      case NeedCapacity(needed) => Incoming(t', Max(needed, cap), count - 1)
      case _ => []
  }

  /** A packet counts iff it is the print of one frame within the limits. */
  lemma PacketIsOneFrame(bytes: seq<byte>, configured: nat, frame: Frame)
    ensures DecodePacket(bytes, configured) == Packet(frame) <==> Fits(frame, configured) && bytes == EncodeFrame(frame)
  {
    if DecodeFrame(bytes, configured).Decoded? { EncodeOfDecode(bytes, configured); }
    if Fits(frame, configured) && bytes == EncodeFrame(frame) {
      DecodeOfEncode(frame, [], configured);
      assert EncodeFrame(frame) + [] == bytes;
    }
    hide EncodeFrame; hide DecodeFrame;
    var d := DecodeFrame(bytes, configured);
    if d.Decoded? && d.used == |bytes| { assert bytes[..d.used] == bytes; }
  }


  /** The frames among some packets, as they are heard. */
  function HeardOf(packets: seq<seq<byte>>, configured: nat, now: nat): seq<R.Input> {
    if packets == [] then []
    else
      (match DecodePacket(packets[0], configured)
       case Packet(frame) => [R.Hear(frame, now)]
       case BadPacket(_) => [])
      + HeardOf(packets[1..], configured, now)
  }

  /** What comes in depends on what the transport has to give and on nothing else. */
  lemma {:induction false} IncomingAlike(t: Transport, u: Transport, cap: nat, count: nat)
    requires t.recvs == u.recvs && t.inbound == u.inbound
    ensures Incoming(t, cap, count) == Incoming(u, cap, count)
    decreases count
  {
    if count > 0 && t.recvs != [] {
      IncomingAlike(TransportRecv(t, cap).0, TransportRecv(u, cap).0, cap, count - 1);
      var result := TransportRecv(t, cap).1;
      if result.NeedCapacity? {
        IncomingAlike(TransportRecv(t, cap).0, TransportRecv(u, cap).0, Max(result.needed, cap), count - 1);
      }
    }
  }

  lemma FrameKeepsConfig(s: Session, frame: Frame, now: nat)
    ensures OnFrame(s, frame, now).0.config == s.config
  {
    hide ParseHello; hide ParseQuery; hide ParseReply; hide Decide; hide ReplyVerdict; hide Answers; hide Answerable;
    hide ReplyBytes; hide QueryBytes; hide Printed;
  }

  /** One turn over packets: what was read, and what was heard of it. */
  lemma PacketTurn(c0: Core, c: Core, heard: seq<R.Input>, now: nat) returns (more: seq<R.Input>)
    requires S.Tells(c0, c, heard) && c.dead.None? && !c.transport.stream
    ensures var (c', use) := DrainStep(c, now); var (t, result) := TransportRecv(c.transport, c.recvCap);
      && S.Tells(c0, c', heard + more)
      && more == HeardOf(if result.Received? then [result.bytes] else [], c.session.config.maxMessageBytes, now)
      && c'.transport.inbound == t.inbound && c'.transport.recvs == t.recvs && !c'.transport.stream
      && c'.session.config == c.session.config
      && c'.recvCap == (if result.NeedCapacity? then Max(result.needed, c.recvCap) else c.recvCap)
      && (use.Stop? <==> !result.Received? && !result.NeedCapacity?)
  {
    var (t, result) := TransportRecv(c.transport, c.recvCap);
    var c1 := c.(transport := t);
    assert S.Fewer(c.transport, t);
    assert !t.stream;
    hide TransportRecv; hide S.Tells; hide DecodePacket; hide TakeIn; hide OnFrame;
    S.NothingTold(c0, c, c1, heard);
    more := [];
    assert heard + [] == heard;
    if result.Received? {
      assert [result.bytes][1..] == [] && HeardOf([], c.session.config.maxMessageBytes, now) == [];
      var packet := DecodePacket(result.bytes, c.session.config.maxMessageBytes);
      if packet.Packet? {
        more := [R.Hear(packet.frame, now)];
        assert more + [] == more;
        S.TakeInTells(c0, c1, heard, packet.frame, now);
        TakeInUses(c1, packet.frame, now);
        B.TakeInTakesOne(c1, packet.frame, now);
        FrameKeepsConfig(c1.session, packet.frame, now);
      }
    } else {
      S.NothingTold(c0, c, DrainStep(c, now).0, heard);
    }
  }

  lemma HeardOfOne(bytes: seq<byte>, rest: seq<seq<byte>>, configured: nat, now: nat)
    ensures HeardOf([bytes] + rest, configured, now)
         == HeardOf([bytes], configured, now) + HeardOf(rest, configured, now)
  {
    hide DecodePacket;
    assert ([bytes] + rest)[1..] == rest && [bytes][1..] == [];
    assert HeardOf([], configured, now) == [];
  }

  /** Over a datagram transport every packet read that is one frame is heard, in order, and
      no other: the session hears exactly the frames among what the reads handed over. */
  lemma {:induction false} PacketsAreHeard(c0: Core, c: Core, heard: seq<R.Input>, now: nat, frames: nat, turns: nat)
    requires S.Tells(c0, c, heard) && c.dead.None? && !c.transport.stream
    ensures var c' := Drain(c, now, frames, turns);
      var packets := Incoming(c.transport, c.recvCap, Reads(c, c'));
      S.Tells(c0, c', heard + HeardOf(packets, c.session.config.maxMessageBytes, now))
    decreases frames + turns
  {
    var c', max := Drain(c, now, frames, turns), c.session.config.maxMessageBytes;
    SpentNothing(c.transport.recvs);
    if frames == 0 || turns == 0 {
      assert heard + [] == heard && HeardOf([], max, now) == [];
    } else {
      var (c1, use) := DrainStep(c, now);
      var (t, result) := TransportRecv(c.transport, c.recvCap);
      var more := PacketTurn(c0, c, heard, now);
      RecvUses(c.transport, c.recvCap);
      DrainIsThorough(c, now, frames, turns);
      hide DrainStep; hide S.Tells; hide HasRoom; hide Exhausted; hide Starved; hide TransportRecv; hide HeardOf;
      if use.Stop? {
        assert c' == c1;
        FirstPacket(c.transport, c.recvCap, Reads(c, c'));
      } else if c1.dead.Some? {
        assert c' == c1;
        LastPacket(c0, c, c', heard, more, now);
      } else {
        var frames' := if use.UsedFrame? then frames - 1 else frames;
        var turns' := if use.UsedRead? then turns - 1 else turns;
        PacketsAreHeard(c0, c1, heard + more, now, frames', turns');
        DrainIsThorough(c1, now, frames', turns');
        MorePackets(c, c1, c', heard, more, now);
      }
    }
  }

  lemma FirstPacket(t: Transport, cap: nat, count: nat)
    requires var result := TransportRecv(t, cap).1; !result.Received? && !result.NeedCapacity?
    ensures Incoming(t, cap, count) == []
    ensures forall configured: nat, now: nat :: HeardOf([], configured, now) == []
  {
  }

  lemma LastPacket(c0: Core, c: Core, c': Core, heard: seq<R.Input>, more: seq<R.Input>, now: nat)
    requires var result := TransportRecv(c.transport, c.recvCap).1; result.Received? || result.NeedCapacity?
    requires var (t, result) := TransportRecv(c.transport, c.recvCap);
      && c'.transport.recvs == t.recvs && S.Tells(c0, c', heard + more) && |Spent(c.transport.recvs, t.recvs)| == 1
      && more == HeardOf(if result.Received? then [result.bytes] else [], c.session.config.maxMessageBytes, now)
    ensures S.Tells(c0, c', heard + HeardOf(Incoming(c.transport, c.recvCap, Reads(c, c')),
                                            c.session.config.maxMessageBytes, now))
  {
    var (t, result) := TransportRecv(c.transport, c.recvCap);
    hide S.Tells; hide HeardOf; hide TransportRecv; hide Spent;
    assert Reads(c, c') == 1;
    if result.Received? {
      assert Incoming(t, c.recvCap, 0) == [] && [result.bytes] + [] == [result.bytes];
    } else {
      assert Incoming(t, Max(result.needed, c.recvCap), 0) == [];
    }
  }

  /** `c1` is `c` after one read that gave something. */
  predicate ReadOnce(c: Core, c1: Core) {
    var (t, result) := TransportRecv(c.transport, c.recvCap);
    && (result.Received? || result.NeedCapacity?) && Rest(c.transport.recvs, t.recvs)
    && |Spent(c.transport.recvs, t.recvs)| == 1
    && c1.transport.inbound == t.inbound && c1.transport.recvs == t.recvs && c1.session.config == c.session.config
    && c1.recvCap == (if result.NeedCapacity? then Max(result.needed, c.recvCap) else c.recvCap)
  }

  /** The packet of one read, if it is one. */
  function OnePacket(c: Core): seq<seq<byte>> {
    var result := TransportRecv(c.transport, c.recvCap).1;
    if result.Received? then [result.bytes] else []
  }

  lemma IncomingOnward(c: Core, c1: Core, c': Core)
    requires ReadOnce(c, c1) && Rest(c1.transport.recvs, c'.transport.recvs)
    ensures Incoming(c.transport, c.recvCap, Reads(c, c'))
         == OnePacket(c) + Incoming(c1.transport, c1.recvCap, Reads(c1, c'))
  {
    var (t, result) := TransportRecv(c.transport, c.recvCap);
    SpentTwice(c.transport.recvs, t.recvs, c'.transport.recvs);
    IncomingAlike(c1.transport, t, c1.recvCap, Reads(c1, c'));
    hide TransportRecv; hide Spent; hide Rest;
    var later := Incoming(c1.transport, c1.recvCap, Reads(c1, c'));
    assert [] + later == later;
    assert Incoming(c.transport, c.recvCap, 1 + Reads(c1, c')) == OnePacket(c) + later;
  }

  lemma MorePackets(c: Core, c1: Core, c': Core, heard: seq<R.Input>, more: seq<R.Input>, now: nat)
    requires ReadOnce(c, c1) && Rest(c1.transport.recvs, c'.transport.recvs)
    requires more == HeardOf(OnePacket(c), c.session.config.maxMessageBytes, now)
    ensures heard + HeardOf(Incoming(c.transport, c.recvCap, Reads(c, c')), c.session.config.maxMessageBytes, now)
         == heard + more + HeardOf(Incoming(c1.transport, c1.recvCap, Reads(c1, c')),
                                   c1.session.config.maxMessageBytes, now)
  {
    var max, later := c.session.config.maxMessageBytes, Incoming(c1.transport, c1.recvCap, Reads(c1, c'));
    IncomingOnward(c, c1, c');
    SameLimit(c, c1);
    hide ReadOnce; hide Rest; hide Incoming; hide Reads; hide OnePacket;
    OneThenMore(OnePacket(c), later, heard, more, max, now);
  }

  lemma SameLimit(c: Core, c1: Core)
    requires ReadOnce(c, c1)
    ensures c1.session.config == c.session.config && |OnePacket(c)| <= 1
  {
  }

  lemma OneThenMore(one: seq<seq<byte>>, later: seq<seq<byte>>, heard: seq<R.Input>, more: seq<R.Input>,
                    configured: nat, now: nat)
    requires |one| <= 1 && more == HeardOf(one, configured, now)
    ensures heard + HeardOf(one + later, configured, now) == heard + more + HeardOf(later, configured, now)
  {
    if one == [] {
      assert one + later == later;
      FirstPacketless(configured, now);
    } else {
      assert one == [one[0]];
      HeardOfOne(one[0], later, configured, now);
    }
    hide HeardOf;
  }

  lemma FirstPacketless(configured: nat, now: nat)
    ensures HeardOf([], configured, now) == []
  {
  }

  // ---- Sending all there is ----------------------------------------------------

  /** A flush that leaves the connection alive with bytes waiting has met a transport that
      takes no more. */
  lemma {:induction false} FlushIsThorough(c: Core)
    requires c.dead.None?
    ensures var c' := Flush(c); var spent := Spent(c.transport.sends, c'.transport.sends);
      && Rest(c.transport.sends, c'.transport.sends)
      && (c'.dead.None? && c'.outbox != [] && c'.transport.sends != [] ==>
            spent != [] && (spent[|spent| - 1] == TakeNone || spent[|spent| - 1] == TakeSome(0)))
    decreases |c.outbox|
  {
    SpentNothing(c.transport.sends);
    hide TransportSend; hide Rest; hide Spent;
    if c.outbox != [] {
      var (t, result) := TransportSend(c.transport, c.outbox);
      SendMeans(c.transport, c.outbox);
      if result.Partial? && result.accepted > 0 {
        var c1 := c.(transport := t,
          outbox := if result.accepted <= |c.outbox| then c.outbox[result.accepted..] else []);
        FlushIsThorough(c1);
        SpentTwice(c.transport.sends, t.sends, Flush(c1).transport.sends);
      }
    }
  }

  lemma AllOfTail<A>(s: seq<A>)
    ensures s != [] ==> s[0] in s && forall a | a in s[1..] :: a in s
  {
  }

  /** The transport takes whatever it is given for as long as it answers, and nothing is
      waiting while it does. */
  predicate Flowing(c: Core) {
    (forall a | a in c.transport.sends :: a == TakeAll) && (c.outbox == [] || c.transport.sends == [])
  }

  lemma WriteFrameFlows(c: Core, frame: Frame)
    requires Flowing(c) && c.outbox == []
    ensures Flowing(WriteFrame(c, frame).0)
  {
    AllOfTail(c.transport.sends);
    hide EncodeFrame;
  }

  lemma ApplyFlows(c: Core, reaction: Reaction)
    requires Flowing(c)
    ensures Flowing(Apply(c, reaction))
  {
    var frame := FrameOf(reaction.out, c.scratchCap);
    if frame.Some? && c.outbox == [] { WriteFrameFlows(c, frame.value); }
    hide FrameOf; hide WriteFrame; hide EncodeFrame;
  }

  lemma TakeInFlows(c: Core, frame: Frame, now: nat)
    requires Flowing(c)
    ensures Flowing(TakeIn(c, frame, now))
  {
    var (s, reaction) := OnFrame(c.session, frame, now);
    hide OnFrame; hide Apply;
    ApplyFlows(c.(session := s, history := Note(c.history, c.session.state, frame)), reaction);
  }

  lemma DrainStepFlows(c: Core, now: nat)
    requires Flowing(c)
    ensures Flowing(DrainStep(c, now).0)
  {
    hide TakeIn; hide DecodePacket; hide D.Feed; hide D.NextResult; hide D.Advance; hide D.AfterNext;
    var (t, result) := TransportRecv(c.transport, c.recvCap);
    if result.Received? {
      var packet := DecodePacket(result.bytes, c.session.config.maxMessageBytes);
      if packet.Packet? { TakeInFlows(c.(transport := t), packet.frame, now); }
    }
    match D.NextResult(c.decoder)
    case Decoded(frame, _) => TakeInFlows(c, frame, now);
    case _ =>
  }

  lemma {:induction false} DrainFlows(c: Core, now: nat, frames: nat, turns: nat)
    requires Flowing(c)
    ensures Flowing(Drain(c, now, frames, turns))
    decreases frames + turns
  {
    hide DrainStep; hide Flowing;
    if frames != 0 && turns != 0 && c.dead.None? {
      DrainStepFlows(c, now);
      var (c', use) := DrainStep(c, now);
      match use
      case UsedFrame => DrainFlows(c', now, frames - 1, turns);
      case UsedRead => DrainFlows(c', now, frames, turns - 1);
      case Stop =>
    }
  }

  lemma FlushFlows(c: Core)
    requires forall a | a in c.transport.sends :: a == TakeAll
    ensures Flowing(Flush(c))
  {
    AllOfTail(c.transport.sends);
  }

  /** Nothing waits without need: after a tick of a living connection over a transport that
      takes all it is given and is not done answering, nothing is waiting to be sent. */
  lemma TickSendsAll(c: Core, now: nat)
    requires c.dead.None? && forall a | a in c.transport.sends :: a == TakeAll
    ensures Flowing(CoreTick(c, now))
  {
    hide Flush; hide Drain; hide Apply; hide Tick; hide TransportClosed; hide Flowing;
    var a := Announce(c);
    FlushFlows(a);
    var c2 := Flush(a);
    DrainFlows(c2, now, c2.session.config.maxFramesPerTick, c2.session.config.maxFramesPerTick);
    var c3 := DrainIfAlive(c2, now);
    SessionIsNoMatter(c3, Tick(c3.session, now).0);
    ApplyFlows(c3.(session := Tick(c3.session, now).0), Tick(c3.session, now).1);
    var c4 := TickIfAlive(c3, now);
    if c4.dead.Some? {
      var (s, reaction) := TransportClosed(c4.session, c4.dead.value);
      SessionIsNoMatter(c4, s);
      ApplyFlows(c4.(session := s), reaction);
    }
  }

  lemma SessionIsNoMatter(c: Core, s: Session)
    ensures Flowing(c.(session := s)) <==> Flowing(c)
  {
  }

  // ---- Giving up a handshake ---------------------------------------------------

  /** What a client's connection is once its handshake has timed out. */
  predicate TimedOut(c: Core) {
    && c.history.events == [Connected, HandshakeFailed(FailTimeout)]
    && c.session.state == Closed && c.dead == Some(Local) && c.transport.shut && c.outbox == []
  }

  /** What the connection is when its session is about to be ticked. */
  function BeforeTick(c: Core, now: nat): Core {
    DrainIfAlive(FlushIfAlive(Announce(c)), now)
  }

  lemma BeforeTickIsTold(c: Core, now: nat, mark: E.Mark)
    requires E.Told(c, mark)
    ensures E.Told(BeforeTick(c, now), mark) && BeforeTick(c, now).announced
  {
    hide E.Told; hide Flush; hide Drain; hide Announce;
    var c1 := Announce(c);
    E.AnnounceIsTold(c, mark);
    var c2 := FlushIfAlive(c1);
    E.FlushIsSilent(c1);
    if c1.dead.None? { E.UnheardIsTold(c1, c2, mark); }
    if c2.dead.None? {
      E.DrainIsTold(c2, now, c2.session.config.maxFramesPerTick, c2.session.config.maxFramesPerTick, mark);
    }
  }

  lemma ToldHandshaking(c: Core, mark: E.Mark)
    requires E.Told(c, mark) && c.announced && c.session.state == Handshaking
    ensures c.history.events == [Connected] && !c.session.terminated
  {
  }

  /** The session that is about to be ticked began when the first one did. */
  lemma BeforeTickBegan(role: Role, schema: Schema, config: Config, begun: nat, before: seq<R.Input>, c: Core, now: nat)
    requires c.session == R.After(Create(role, schema, config, begun).0, before)
    ensures var s := BeforeTick(c, now).session;
      s.role == role && s.config == config && (s.state != Closed ==> s.startedMs == begun)
  {
    var start := Create(role, schema, config, begun).0;
    var a := Announce(c);
    var c2 := FlushIfAlive(a);
    S.TellsItself(a);
    S.FlushTells(a);
    hide Flush; hide Drain; hide S.Tells; hide R.After; hide Create;
    S.NothingTold(a, a, c2, []);
    var heard := [];
    if c2.dead.None? {
      var n := c2.session.config.maxFramesPerTick;
      heard := S.DrainTells(a, c2, [], now, n, n);
    }
    assert BeforeTick(c, now).session == R.After(c.session, heard) by { TellsSession(a, BeforeTick(c, now), heard); }
    S.RunsCompose(start, before, heard, 0);
    W.RunKeepsWatch(role, schema, config, begun, before + heard);
  }

  lemma TellsSession(c: Core, c': Core, inputs: seq<R.Input>)
    requires S.Tells(c, c', inputs)
    ensures c'.session == R.After(c.session, inputs)
  {
  }

  lemma TickAfter(c: Core, now: nat)
    requires var b := BeforeTick(c, now);
      b.dead.None? && b.session.role.Client? && b.session.state == Handshaking && !b.session.terminated
    ensures var b := BeforeTick(c, now); var c' := CoreTick(c, now);
      if W.Over(now, b.session.startedMs, b.session.config.handshakeTimeoutMs)
      then
        && c'.history.events == b.history.events + [HandshakeFailed(FailTimeout)]
        && c'.session.state == Closed && c'.dead == Some(Local) && c'.transport.shut && c'.outbox == []
      else c' == b
  {
    hide BeforeTick; hide DrainIfAlive; hide FlushIfAlive;
    var b := BeforeTick(c, now);
    assert CoreTick(c, now) == Bury(TickIfAlive(b, now)) by { TickParts(c, now); }
    TickOfHopeful(b, now);
    hide TickSession; hide Bury;
  }

  lemma TickParts(c: Core, now: nat)
    ensures CoreTick(c, now) == Bury(TickIfAlive(BeforeTick(c, now), now))
  {
  }

  lemma TickOfHopeful(b: Core, now: nat)
    requires b.dead.None? && b.session.role.Client? && b.session.state == Handshaking && !b.session.terminated
    ensures var c' := Bury(TickIfAlive(b, now));
      if W.Over(now, b.session.startedMs, b.session.config.handshakeTimeoutMs)
      then
        && c'.history.events == b.history.events + [HandshakeFailed(FailTimeout)]
        && c'.session.state == Closed && c'.dead == Some(Local) && c'.transport.shut && c'.outbox == []
      else c' == b
  {
    var (s, reaction) := Tick(b.session, now);
    S.EmitNothing(b.(session := s));
    hide EmitOut;
  }

  /** In every run of a client's connection: a tick that finds it alive and its handshake
      going on when the session's turn comes fails that handshake iff its time is over;
      then the events are exactly CONNECTED and the timeout, and the transport is shut. */
  lemma ConnectionTimesOut(t: Transport, schema: Schema, config: Config, begun: nat,
                           cores: seq<Core>, calls: seq<E.Call>, k: nat)
    requires E.IsRun(cores, calls) && k < |calls| && Init(t, schema, config, Client, begun) == Some(cores[0])
    requires calls[k].TickCall?
    requires var c, call := cores[k], calls[k];
      var w := c.(transport := c.transport.(sends := call.sends, recvs := call.recvs, inbound := call.inbound));
      BeforeTick(w, call.now).dead.None? && BeforeTick(w, call.now).session.state == Handshaking
    ensures if W.Over(calls[k].now, begun, config.handshakeTimeoutMs) then TimedOut(cores[k + 1])
            else cores[k + 1].history.events == [Connected] && cores[k + 1].session.state == Handshaking
                 && cores[k + 1].dead.None?
  {
    var c, call := cores[k], calls[k];
    var w := c.(transport := c.transport.(sends := call.sends, recvs := call.recvs, inbound := call.inbound));
    var mark := E.Mark(E.CloseCall in calls[..k], 0, []);
    E.RunFromInit(t, schema, config, Client, begun, cores, calls, k);
    assert cores[k + 1] == E.Perform(cores[k], call);
    hide E.Told; hide CoreTick; hide BeforeTick; hide Init; hide E.IsRun;
    assert E.Told(w, mark) by { ToldOfTransport(cores[k], w, mark); }
    BeforeTickIsTold(w, call.now, mark);
    ToldHandshaking(BeforeTick(w, call.now), mark);
    var before := S.ConnectionIsItsSession(t, schema, config, Client, begun, cores, calls, k);
    BeforeTickBegan(Client, schema, config, begun, before, w, call.now);
    TickAfter(w, call.now);
  }

  lemma ToldOfTransport(c: Core, w: Core, mark: E.Mark)
    requires E.Told(c, mark) && w == c.(transport := w.transport)
    ensures E.Told(w, mark)
  {
  }

  // ---- A peer that never speaks ------------------------------------------------

  /** A client that has heard nothing yet, whose handshake goes on. */
  predicate Lonely(c: Core, begun: nat, timeout: nat) {
    && c.dead.None? && c.session.role.Client? && c.session.state == Handshaking && !c.session.terminated
    && c.session.startedMs == begun && c.session.config.handshakeTimeoutMs == timeout
    && c.decoder.buffer == [] && c.decoder.poison.None?
    && c.history.events == if c.announced then [Connected] else []
  }

  /** The transport gives nothing and does not end; the application does not close. */
  predicate Mute(call: E.Call) {
    match call
    case TickCall(_, sends, recvs, _) =>
      (forall a | a in recvs :: a == GiveNothing) && SendClosed !in sends && SendBroken !in sends
    case SendCall(_, _, _) => true
    case CloseCall => false
  }

  lemma {:induction false} FlushSurvives(c: Core)
    requires c.dead.None? && SendClosed !in c.transport.sends && SendBroken !in c.transport.sends
    ensures Flush(c) == c.(transport := Flush(c).transport, outbox := Flush(c).outbox)
    ensures Flush(c).transport.recvs == c.transport.recvs && Flush(c).transport.stream == c.transport.stream
    decreases |c.outbox|
  {
    AllOfTail(c.transport.sends);
    if c.outbox != [] {
      var (t, result) := TransportSend(c.transport, c.outbox);
      if result.Partial? && result.accepted > 0 {
        FlushSurvives(c.(transport := t,
          outbox := if result.accepted <= |c.outbox| then c.outbox[result.accepted..] else []));
      }
    }
  }

  lemma DrainHearsNothing(c: Core, now: nat, n: nat)
    requires c.decoder.buffer == [] && c.decoder.poison.None? && forall a | a in c.transport.recvs :: a == GiveNothing
    ensures Drain(c, now, n, n) == c.(transport := Drain(c, now, n, n).transport)
  {
    assert c.transport.recvs != [] ==> c.transport.recvs[0] in c.transport.recvs;
    if n != 0 && c.dead.None? { assert DrainStep(c, now).1.Stop?; }
  }

  lemma LonelyTick(c: Core, now: nat, begun: nat, timeout: nat)
    requires Lonely(c, begun, timeout) && SendClosed !in c.transport.sends && SendBroken !in c.transport.sends
    requires forall a | a in c.transport.recvs :: a == GiveNothing
    ensures if W.Over(now, begun, timeout) then TimedOut(CoreTick(c, now))
            else Lonely(CoreTick(c, now), begun, timeout) && CoreTick(c, now).announced
  {
    hide Flush; hide Drain;
    var a := Announce(c);
    FlushSurvives(a);
    DrainHearsNothing(Flush(a), now, c.session.config.maxFramesPerTick);
    var b := BeforeTick(c, now);
    assert Lonely(b, begun, timeout) && b.announced;
    TickAfter(c, now);
    hide CoreTick; hide BeforeTick;
    assert [Connected] + [HandshakeFailed(FailTimeout)] == [Connected, HandshakeFailed(FailTimeout)];
  }

  lemma EmitOutSurvives(c: Core, out: Out)
    requires c.dead.None? && c.outbox == [] && SendClosed !in c.transport.sends && SendBroken !in c.transport.sends
    ensures EmitOut(c, out).dead.None?
  {
    AllOfTail(c.transport.sends);
    hide FrameOf; hide EncodeFrame;
  }

  lemma LonelyInit(t: Transport, schema: Schema, config: Config, begun: nat)
    requires Init(t, schema, config, Client, begun).Some? && SendClosed !in t.sends && SendBroken !in t.sends
    ensures Lonely(Init(t, schema, config, Client, begun).value, begun, config.handshakeTimeoutMs)
  {
    var newborn, opening := Newborn(t, schema, config, Client, begun), Create(Client, schema, config, begun).1.out;
    EmitOutSurvives(newborn, opening);
    EmitOutListens(newborn, opening);
    E.EmitOutIsSilent(newborn, opening);
    hide EmitOut; hide HelloBytes; hide HelloLen; hide ScratchSize;
  }

  lemma {:induction false} LonelyUntil(t: Transport, schema: Schema, config: Config, begun: nat,
                                       cores: seq<Core>, calls: seq<E.Call>, k: nat)
    requires E.IsRun(cores, calls) && k < |cores| && Init(t, schema, config, Client, begun) == Some(cores[0])
    requires SendClosed !in t.sends && SendBroken !in t.sends && forall call | call in calls :: Mute(call)
    requires forall j | 0 <= j < k && calls[j].TickCall? :: !W.Over(calls[j].now, begun, config.handshakeTimeoutMs)
    ensures Lonely(cores[k], begun, config.handshakeTimeoutMs)
  {
    if k == 0 {
      LonelyInit(t, schema, config, begun);
    } else {
      LonelyUntil(t, schema, config, begun, cores, calls, k - 1);
      var c, call := cores[k - 1], calls[k - 1];
      assert cores[k] == E.Perform(c, call);
      assert call in calls && Mute(call);
      hide Init; hide CoreTick;
      if call.TickCall? {
        var w := c.(transport := c.transport.(sends := call.sends, recvs := call.recvs, inbound := call.inbound));
        LonelyTick(w, call.now, begun, config.handshakeTimeoutMs);
      }
    }
  }

  /** Ticks follow each other, and the first one the beginning, by at most `gap`. */
  ghost predicate Ticking(begun: nat, calls: seq<E.Call>, gap: nat) {
    forall k | 0 <= k < |calls| && calls[k].TickCall? ::
      U.Latest(begun, calls, k) <= calls[k].now <= U.Latest(begun, calls, k) + gap
  }

  lemma {:induction false} FirstLate(begun: nat, calls: seq<E.Call>, gap: nat, deadline: nat, n: nat) returns (k: nat)
    requires Ticking(begun, calls, gap) && begun <= deadline && n <= |calls|
    requires exists j | 0 <= j < n :: calls[j].TickCall? && calls[j].now >= deadline
    ensures k < n && calls[k].TickCall? && deadline <= calls[k].now <= deadline + gap
    ensures forall j | 0 <= j < k && calls[j].TickCall? :: calls[j].now < deadline
  {
    if exists j | 0 <= j < n - 1 :: calls[j].TickCall? && calls[j].now >= deadline {
      k := FirstLate(begun, calls, gap, deadline, n - 1);
    } else {
      k := n - 1;
      LatestIsEarly(begun, calls, deadline, k);
    }
  }

  lemma {:induction false} LatestIsEarly(begun: nat, calls: seq<E.Call>, deadline: nat, k: nat)
    requires k <= |calls| && begun <= deadline
    requires forall j | 0 <= j < k && calls[j].TickCall? :: calls[j].now < deadline
    ensures U.Latest(begun, calls, k) <= deadline
  {
    if k > 0 { LatestIsEarly(begun, calls, deadline, k - 1); }
  }

  lemma {:induction false} TicksAreLater(begun: nat, calls: seq<E.Call>, gap: nat, k: nat)
    requires Ticking(begun, calls, gap) && k <= |calls|
    ensures begun <= U.Latest(begun, calls, k)
  {
    if k > 0 { TicksAreLater(begun, calls, gap, k - 1); }
  }

  /** A client whose peer never speaks, over either kind of transport, whatever it takes of
      what is sent and whatever the application tries: ticked at gaps of at most `gap` on
      past its handshake timeout, it reports CONNECTED and the timeout and nothing else, and
      has shut its transport, by a tick no later than one gap after its time is over. */
  lemma SilentPeerTimesOut(t: Transport, schema: Schema, config: Config, begun: nat,
                           cores: seq<Core>, calls: seq<E.Call>, gap: nat) returns (k: nat)
    requires E.IsRun(cores, calls) && Init(t, schema, config, Client, begun) == Some(cores[0])
    requires SendClosed !in t.sends && SendBroken !in t.sends && forall call | call in calls :: Mute(call)
    requires Ticking(begun, calls, gap)
    requires exists j | 0 <= j < |calls| :: calls[j].TickCall? && calls[j].now >= begun + config.handshakeTimeoutMs
    ensures k < |calls| && calls[k].TickCall? && calls[k].now <= begun + config.handshakeTimeoutMs + gap
    ensures TimedOut(cores[k + 1])
  {
    k := FirstLate(begun, calls, gap, begun + config.handshakeTimeoutMs, |calls|);
    forall j | 0 <= j < k && calls[j].TickCall?
      ensures !W.Over(calls[j].now, begun, config.handshakeTimeoutMs)
    {
      TicksAreLater(begun, calls, gap, j);
    }
    LonelyUntil(t, schema, config, begun, cores, calls, k);
    var c, call := cores[k], calls[k];
    assert cores[k + 1] == E.Perform(c, call);
    assert call in calls && Mute(call);
    hide Init; hide CoreTick;
    var w := c.(transport := c.transport.(sends := call.sends, recvs := call.recvs, inbound := call.inbound));
    LonelyTick(w, call.now, begun, config.handshakeTimeoutMs);
  }
}
