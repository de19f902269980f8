/** The connection as an object: outbox, receive buffer and scratch space updated in
    place, each operation proved to do what its specification in Core says. */
module CoreObject {
  import opened Bytes
  import opened Frame
  import opened Schema
  import opened Handshake
  import opened Session
  import opened SessionObject
  import opened Core
  import D = StreamDecoder

  class Connection {
    var transport: Transport
    const session: Machine
    const decoder: D.Decoder
    var outbox: array<byte>
    var outboxLen: nat
    var outboxOff: nat
    var recv: array<byte>
    const scratch: array<byte>
    var dead: bool
    var deadReason: Disconnect
    var announced: bool
    var reported: seq<Event>
    ghost var committed: seq<Frame>
    ghost var early: seq<Frame>
    ghost var live: seq<Frame>
    ghost var late: seq<Frame>

    ghost function Repr(): set<object>
      reads this, decoder
    {
      {this, decoder, decoder.buf, outbox, recv, scratch} + session.Repr
    }

    /** What a step adds to the representation is newly allocated. */
    twostate predicate OwnsOnlyMore()
      reads this, decoder
    {
      forall o | o in Repr() :: o in old(Repr()) || fresh(o)
    }

    /** No two buffers share memory. */
    ghost predicate Separate()
      reads this, decoder
    {
      && outbox != recv && outbox != scratch && recv != scratch
      && decoder.buf !in {outbox, recv, scratch, session.scratch}
      && session.scratch !in {outbox, recv, scratch}
    }

    ghost predicate Valid()
      reads this, Repr()
    {
      && Separate() && session.Valid() && decoder.Valid()
      && outboxOff <= outboxLen <= outbox.Length
    }

    ghost function Past(): History
      reads this
    {
      History(committed, early, live, late, reported)
    }

    ghost function View(): Core
      requires Valid()
      reads this, Repr()
    {
      Core(transport, session.View(), decoder.View(), outbox[outboxOff..outboxLen], recv.Length, scratch.Length,
           if dead then Some(deadReason) else None, announced, Past())
    }

    /** What the methods below need to see of the representation. */
    lemma Shows()
      requires Valid()
      ensures this in Repr() && session in Repr() && session.Valid()
      ensures (View().dead == if dead then Some(deadReason) else None) && View().session.config == session.config
      ensures View().transport == transport && View().session.state == session.state
    {
    }

    lemma ShowsBuffers()
      requires Valid()
      ensures outbox in Repr() && scratch in Repr() && scratch != outbox && View().scratchCap == scratch.Length
      ensures outboxOff <= outboxLen <= outbox.Length && View().outbox == outbox[outboxOff..outboxLen]
    {
    }

    lemma ShowsSession()
      requires Valid()
      ensures var s := View().session;
        && s.startedMs == session.startedMs && s.role == session.role
        && s.schema == session.schema && s.config == session.config
    {
    }

    /** Nothing has happened yet and nothing waits. */
    ghost predicate Unused()
      reads this
    {
      && outboxLen == outboxOff == 0 && !dead && !announced && Past() == History([], [], [], [], [])
    }

    lemma UnusedIsNewborn(schema: Schema, config: Config, role: Role, now: nat)
      requires Valid() && Unused() && recv.Length == RECV_BASE_CAP && scratch.Length == ScratchSize(schema, config)
      requires session.View() == Create(role, schema, config, now).0
      requires decoder.View() == D.Init(config.maxMessageBytes)
      ensures View() == Newborn(transport, schema, config, role, now)
    {
      hide ScratchSize; hide D.Init; hide Machine.View; hide Machine.Valid; hide D.Decoder.View; hide D.Decoder.Valid;
      hide Create;
      assert outbox[0..0] == [];
    }

    constructor (transport: Transport, schema: Schema, config: Config, role: Role, now: nat)
      requires WellFormed(schema)
      ensures Valid() && fresh(session.Repr) && fresh({decoder, decoder.buf, outbox, recv, scratch})
      ensures this.transport == transport && Unused()
      ensures recv.Length == RECV_BASE_CAP && scratch.Length == ScratchSize(schema, config)
      ensures session.View() == Create(role, schema, config, now).0 && decoder.View() == D.Init(config.maxMessageBytes)
    {
      hide ScratchSize; hide D.Init; hide Machine.View; hide Machine.Valid; hide D.Decoder.View;
      hide D.Decoder.Valid; hide Create;
      this.transport := transport;
      session := new Machine(role, schema, config, now);
      decoder := new D.Decoder(config.maxMessageBytes);
      outbox := new byte[0];
      outboxLen, outboxOff := 0, 0;
      recv := new byte[RECV_BASE_CAP](_ => 0);
      scratch := new byte[ScratchSize(schema, config)](_ => 0);
      dead, deadReason, announced, reported := false, Local, false, [];
      committed, early, live, late := [], [], [], [];
    }

    method Die(reason: Disconnect)
      requires Valid()
      modifies this`dead, this`deadReason
      ensures Valid() && Repr() == old(Repr()) && View() == Kill(old(View()), reason)
    {
      hide Machine.View; hide Machine.Valid; hide D.Decoder.View;
      if !dead {
        dead, deadReason := true, reason;
      }
    }

    method ClearOutbox()
      requires Valid()
      modifies this`outboxLen, this`outboxOff
      ensures Valid() && Repr() == old(Repr()) && View() == old(View()).(outbox := [])
    {
      hide Machine.View; hide Machine.Valid; hide D.Decoder.View; hide D.Decoder.Valid;
      outboxLen, outboxOff := 0, 0;
      assert outbox[0..0] == [];
    }

    method CloseSoft()
      requires Valid()
      modifies this`transport
      ensures Valid() && Repr() == old(Repr())
      ensures View() == old(View()).(transport := old(View()).transport.(shut := true))
    {
      hide Machine.View; hide Machine.Valid; hide D.Decoder.View; hide D.Decoder.Valid;
      transport := transport.(shut := true);
    }

    method ShutDown()
      requires Valid()
      modifies this`dead, this`deadReason, this`outboxLen, this`outboxOff, this`transport
      ensures Valid() && Repr() == old(Repr()) && View() == Shutdown(old(View()))
    {
      hide View; hide Valid; hide Machine.View; hide Machine.Valid; hide D.Decoder.View; hide D.Decoder.Valid;
      KilledKeepsTransport(View(), Local);
      hide Kill;
      Die(Local);
      ClearOutbox();
      CloseSoft();
    }

    method OutboxSet(bytes: seq<byte>)
      requires Valid()
      modifies this`outbox, this`outboxLen, this`outboxOff, outbox
      ensures Valid() && OwnsOnlyMore()
      ensures View() == old(View()).(outbox := bytes)
    {
      hide Machine.View; hide Machine.Valid; hide D.Decoder.View;
      if |bytes| > outbox.Length {
        outbox := new byte[|bytes|](_ => 0);
      }
      forall k | 0 <= k < |bytes| { outbox[k] := bytes[k]; }
      outboxLen, outboxOff := |bytes|, 0;
      assert outbox[..|bytes|] == bytes;
    }

    /** Makes the outbox hold at least `needed` bytes in all. */
    method GrowOutbox(needed: nat)
      requires Valid()
      modifies this`outbox
      ensures Valid() && OwnsOnlyMore() && View() == old(View())
      ensures outbox.Length >= needed && (outbox == old(outbox) || fresh(outbox))
    {
      hide Machine.View; hide Machine.Valid; hide D.Decoder.View; hide D.Decoder.Valid;
      if needed > outbox.Length {
        var grown := new byte[needed](_ => 0);
        forall k | 0 <= k < outboxLen { grown[k] := outbox[k]; }
        assert grown[outboxOff..outboxLen] == outbox[outboxOff..outboxLen];
        outbox := grown;
      }
    }

    /** The new bytes go behind all that is stored, taken or not. */
    method OutboxAppend(bytes: seq<byte>)
      requires Valid()
      modifies this`outbox, this`outboxLen, outbox
      ensures Valid() && OwnsOnlyMore()
      ensures View() == old(View()).(outbox := old(View()).outbox + bytes)
    {
      hide Machine.View; hide Machine.Valid; hide D.Decoder.View; hide D.Decoder.Valid;
      GrowOutbox(outboxLen + |bytes|);
      ghost var waiting := outbox[outboxOff..outboxLen];
      forall k | 0 <= k < |bytes| { outbox[outboxLen + k] := bytes[k]; }
      outboxLen := outboxLen + |bytes|;
      assert outbox[outboxOff..outboxLen] == waiting + bytes;
    }

    /** One call to the transport. */
    method Offer(bytes: seq<byte>) returns (answer: SendResult)
      requires Valid()
      modifies this`transport
      ensures Valid() && Repr() == old(Repr())
      ensures answer == TransportSend(old(View()).transport, bytes).1
      ensures View() == old(View()).(transport := TransportSend(old(View()).transport, bytes).0)
      ensures answer.Partial? ==> answer.accepted <= |bytes|
    {
      hide Machine.View; hide Machine.Valid; hide D.Decoder.View; hide D.Decoder.Valid;
      var (t, result) := TransportSend(transport, bytes);
      transport, answer := t, result;
    }

    ghost method Record(frame: Frame)
      requires Valid()
      modifies this`committed
      ensures Valid() && Repr() == old(Repr()) && View() == Commit(old(View()), frame)
    {
      hide Machine.View; hide Machine.Valid; hide D.Decoder.View; hide D.Decoder.Valid;
      committed := committed + [frame];
    }

    /** Hands the first `len` bytes of the scratch buffer to the transport. */
    method WriteOut(len: nat, ghost frame: Frame) returns (result: Result)
      requires Valid() && len <= scratch.Length && scratch[..len] == EncodeFrame(frame)
      modifies this`transport, this`outbox, this`outboxLen, this`outboxOff, this`dead, this`deadReason,
               this`committed, outbox
      ensures Valid() && OwnsOnlyMore()
      ensures (View(), result) == WriteFrame(old(View()), frame)
    {
      hide EncodeFrame; hide TransportSend; hide Commit; hide Kill; hide View; hide Valid; hide Machine.View;
      hide Machine.Valid; hide D.Decoder.View; hide D.Decoder.Valid;
      Shows(); ShowsBuffers();
      ghost var bytes := scratch[..len];
      var answer := Offer(scratch[..len]);
      match answer
      case Sent =>
        Record(frame);
        return Ok;
      case Partial(accepted) =>
        if accepted == 0 || accepted >= len {
          if accepted < len { OutboxSet(scratch[..len]); }
        } else {
          assert scratch[accepted..len] == bytes[accepted..];
          OutboxSet(scratch[accepted..len]);
        }
        Record(frame);
        return Ok;
      case SendBlocks =>
        OutboxSet(scratch[..len]);
        Record(frame);
        return Ok;
      case SendTooLarge => return ErrTooLarge;
      case SendIsClosed =>
        Die(PeerClosed);
        return ErrClosed;
      case SendFails =>
        Die(TransportError);
        return ErrClosed;
    }

    /** A control frame goes out, or waits behind what is waiting. */
    method QueueControl(len: nat, ghost frame: Frame)
      requires Valid() && len <= scratch.Length && scratch[..len] == EncodeFrame(frame)
      modifies this`transport, this`outbox, this`outboxLen, this`outboxOff, this`dead, this`deadReason,
               this`committed, outbox
      ensures Valid() && OwnsOnlyMore()
      ensures View() == SendControl(old(View()), frame)
    {
      hide Machine.View; hide Machine.Valid; hide D.Decoder.View;
      hide EncodeFrame; hide WriteFrame;
      if dead { return; }
      if outboxLen > outboxOff {
        if outboxLen - outboxOff + len > MAX_OUTBOX_BYTES {
          Die(Unresponsive);
          return;
        }
        OutboxAppend(scratch[..len]);
        committed := committed + [frame];
        return;
      }
      var _ := WriteOut(len, frame);
    }

    /** What the transport has taken is skipped over. */
    method DropTaken(count: nat)
      requires Valid() && count <= |View().outbox|
      modifies this`outboxOff
      ensures Valid() && Repr() == old(Repr())
      ensures View() == old(View()).(outbox := old(View()).outbox[count..])
    {
      hide Machine.View; hide Machine.Valid; hide D.Decoder.View; hide D.Decoder.Valid;
      ghost var waiting := outbox[outboxOff..outboxLen];
      outboxOff := outboxOff + count;
      assert outbox[outboxOff..outboxLen] == waiting[count..];
    }

    method FlushOutbox()
      requires Valid()
      modifies this`transport, this`outboxLen, this`outboxOff, this`dead, this`deadReason
      ensures Valid() && View() == Flush(old(View())) && Repr() == old(Repr())
    {
      hide TransportSend; hide Kill; hide View; hide Valid; hide Machine.View; hide Machine.Valid;
      hide D.Decoder.View; hide D.Decoder.Valid;
      ShowsBuffers();
      while outboxLen > outboxOff
        invariant Valid() && Repr() == old(Repr())
        invariant outboxOff <= outboxLen <= outbox.Length && View().outbox == outbox[outboxOff..outboxLen]
        invariant Flush(View()) == Flush(old(View()))
        decreases |View().outbox|
      {
        var answer := Offer(outbox[outboxOff..outboxLen]);
        match answer
        case Sent =>
          ClearOutbox();
          return;
        case Partial(accepted) =>
          if accepted == 0 { return; }
          DropTaken(accepted);
          ShowsBuffers();
        case SendBlocks => return;
        case SendTooLarge =>
          ClearOutbox();
          return;
        case SendIsClosed =>
          Die(PeerClosed);
          return;
        case SendFails =>
          Die(TransportError);
          return;
      }
      ClearOutbox();
    }

    method Emit(out: Out)
      requires Valid()
      modifies this`transport, this`outbox, this`outboxLen, this`outboxOff, this`dead, this`deadReason,
               this`committed, outbox, scratch
      ensures Valid() && OwnsOnlyMore()
      ensures View() == EmitOut(old(View()), out)
    {
      hide Machine.View; hide Machine.Valid; hide D.Decoder.View;
      hide SendControl;
      match out
      case NoOut => return;
      case OutProbe =>
        var written := EncodeControlInto(Probe, scratch);
        if written > 0 { QueueControl(written, Probe); }
      case OutAck =>
        var written := EncodeControlInto(Ack, scratch);
        if written > 0 { QueueControl(written, Ack); }
      case OutHandshake(payload) =>
        var error, written := EncodeHandshakeInto(payload, scratch);
        if error.Some? { return; }
        QueueControl(written, Handshake(payload));
    }

    /** The first thing a connection sends, if its role opens the conversation. */
    method Greet()
      requires Valid()
      modifies this`transport, this`outbox, this`outboxLen, this`outboxOff, this`dead, this`deadReason,
               this`committed, outbox, scratch, session.scratch
      ensures Valid() && OwnsOnlyMore()
      ensures View() ==
        EmitOut(old(View()), Create(session.role, session.schema, session.config, session.startedMs).1.out)
    {
      hide EmitOut; hide Create; hide D.Decoder.View;
      var opening := session.Opening();
      Emit(opening.out);
    }

    /** A new connection greets its peer, unless its hello cannot be framed. */
    static method Open(transport: Transport, schema: Schema, config: Config, role: Role, now: nat)
      returns (made: Option<Connection>)
      requires WellFormed(schema)
      ensures match made
              case None => Init(transport, schema, config, role, now) == None
              case Some(c) => c.Valid() && fresh(c.Repr()) && Some(c.View()) == Init(transport, schema, config, role, now)
    {
      hide HelloLen; hide Newborn; hide EmitOut; hide Create; hide Connection.View; hide Connection.Valid;
      if HelloLen(schema) > MAX_HANDSHAKE_PAYLOAD { return None; }
      var c := new Connection(transport, schema, config, role, now);
      c.UnusedIsNewborn(schema, config, role, now);
      c.ShowsSession();
      NewbornSession(transport, schema, config, role, now);
      c.Greet();
      return Some(c);
    }

    method ApplyReaction(reaction: Reaction)
      requires Valid()
      modifies this`transport, this`outbox, this`outboxLen, this`outboxOff, this`dead, this`deadReason,
               this`committed, this`reported, outbox, scratch
      ensures Valid() && OwnsOnlyMore()
      ensures View() == Apply(old(View()), reaction)
    {
      hide Machine.View; hide Machine.Valid; hide D.Decoder.View;
      hide EmitOut;
      Emit(reaction.out);
      if reaction.event.Some? {
        reported := reported + [reaction.event.value];
        if reaction.event.value.HandshakeFailed? { ShutDown(); }
      }
    }

    ghost method File(frame: Frame, found: State)
      requires Valid()
      modifies this`early, this`live, this`late
      ensures Valid() && Repr() == old(Repr())
      ensures View() == old(View()).(history := Note(old(View()).history, found, frame))
    {
      hide Machine.View; hide Machine.Valid; hide D.Decoder.View; hide D.Decoder.Valid;
      match found
      case Handshaking => early := early + [frame];
      case Ready => live := live + [frame];
      case Closed => late := late + [frame];
    }

    /** The session hears a frame, which is filed under the state it was in. */
    method HearFrame(frame: Frame, now: nat) returns (reaction: Reaction)
      requires Valid()
      modifies this`early, this`live, this`late, session.Repr
      ensures Valid() && Repr() == old(Repr())
      ensures var (s, r) := OnFrame(old(View()).session, frame, now);
        && reaction == r
        && View() == old(View()).(session := s, history := Note(old(View()).history, old(View()).session.state, frame))
    {
      hide OnFrame; hide Note; hide Machine.View; hide Machine.Valid; hide D.Decoder.View; hide D.Decoder.Valid;
      Shows();
      ghost var found := session.state;
      reaction := session.HearFrame(frame, now);
      File(frame, found);
    }

    /** One frame through the session, and its consequences. */
    method HearOne(frame: Frame, now: nat)
      requires Valid()
      modifies Repr()
      ensures Valid() && OwnsOnlyMore()
      ensures View() == TakeIn(old(View()), frame, now)
    {
      hide OnFrame; hide Apply; hide View; hide Machine.View; hide Machine.Valid; hide D.Decoder.View;
      hide D.Decoder.Valid;
      var reaction := HearFrame(frame, now);
      ApplyReaction(reaction);
    }

    method GrowRecv(needed: nat)
      requires Valid()
      modifies this`recv
      ensures Valid() && OwnsOnlyMore()
      ensures View() == old(View()).(recvCap := Max(needed, old(View()).recvCap))
    {
      hide Machine.View; hide Machine.Valid; hide D.Decoder.View;
      if needed <= recv.Length { return; }
      recv := new byte[needed](_ => 0);
    }

    method ReceiveOnce(now: nat) returns (use: Use)
      requires Valid()
      modifies Repr()
      ensures Valid() && OwnsOnlyMore()
      ensures (View(), use) == Receive(old(View()), now)
    {
      hide TransportRecv; hide TakeIn; hide DecodePacket;
      GivesNoMore(transport, recv.Length);
      var (t, answer) := TransportRecv(transport, recv.Length);
      transport := t;
      match answer
      case Received(bytes) =>
        CopyInto(recv, 0, bytes);
        assert recv[..|bytes|] == bytes;
        if transport.stream {
          decoder.FeedBytes(recv[..|bytes|]);
          return UsedRead;
        }
        var packet := DecodePacket(recv[..|bytes|], session.config.maxMessageBytes);
        if packet.Packet? { HearOne(packet.frame, now); }
        return UsedFrame;
      case NeedCapacity(needed) =>
        GrowRecv(needed);
        return UsedRead;
      case RecvBlocks => return Stop;
      case RecvIsClosed =>
        Die(PeerClosed);
        return Stop;
      case RecvFails =>
        Die(TransportError);
        return Stop;
    }

    method NextFrame() returns (next: Decoding)
      requires Valid()
      modifies decoder`poison
      ensures Valid() && Repr() == old(Repr()) && next == D.NextResult(old(View()).decoder)
      ensures View() == old(View()).(decoder := D.AfterNext(old(View()).decoder))
    {
      hide Machine.View; hide Machine.Valid; hide D.Decoder.View; hide D.NextResult; hide D.AfterNext;
      next := decoder.Next();
    }

    method AdvancePast(used: nat)
      requires Valid()
      modifies decoder`start, decoder`len
      ensures Valid() && Repr() == old(Repr())
      ensures View() == old(View()).(decoder := D.Advance(old(View()).decoder, used))
    {
      hide Machine.View; hide Machine.Valid; hide D.Decoder.View; hide D.Advance;
      decoder.AdvanceOver(used);
    }

    method DrainOnce(now: nat) returns (use: Use)
      requires Valid()
      modifies Repr()
      ensures Valid() && OwnsOnlyMore()
      ensures (View(), use) == DrainStep(old(View()), now)
    {
      hide Receive; hide TakeIn; hide D.NextResult; hide D.Advance; hide Kill; hide View; hide Valid;
      hide Machine.View; hide Machine.Valid; hide D.Decoder.View; hide D.Decoder.Valid;
      Shows();
      NextUnlessBad(View());
      if transport.stream {
        var next := NextFrame();
        match next
        case Decoded(frame, used) =>
          HearOne(frame, now);
          AdvancePast(used);
          return UsedFrame;
        case Bad(_) =>
          Die(TransportError);
          return Stop;
        case Incomplete =>
      }
      use := ReceiveOnce(now);
    }

    /** Takes in what has arrived, within the budget of frames and of reads. */
    method DrainAll(now: nat)
      requires Valid()
      modifies Repr()
      ensures Valid() && OwnsOnlyMore()
      ensures var budget := session.config.maxFramesPerTick;
        View() == Drain(old(View()), now, budget, budget)
    {
      hide DrainStep; hide Valid; hide View;
      Shows();
      var budget := session.config.maxFramesPerTick;
      var frames: nat, turns: nat := budget, budget;
      while frames > 0 && turns > 0 && !dead
        invariant Valid() && OwnsOnlyMore()
        invariant Drain(View(), now, frames, turns) == Drain(old(View()), now, budget, budget)
        decreases frames + turns
      {
        Shows();
        var use := DrainOnce(now);
        match use
        case UsedFrame => frames := frames - 1;
        case UsedRead => turns := turns - 1;
        case Stop => return;
      }
      Shows();
    }

    method AnnounceOnce()
      requires Valid()
      modifies this`announced, this`reported
      ensures Valid() && View() == Announce(old(View())) && Repr() == old(Repr())
    {
      hide Machine.View; hide Machine.Valid; hide D.Decoder.View;
      if !announced {
        announced := true;
        reported := reported + [Connected];
      }
    }

    method TickSessionAt(now: nat)
      requires Valid()
      modifies Repr()
      ensures Valid() && OwnsOnlyMore()
      ensures View() == TickSession(old(View()), now)
    {
      hide Tick; hide Apply; hide Machine.View; hide Machine.Valid; hide D.Decoder.View;
      var reaction := session.TickAt(now);
      ApplyReaction(reaction);
    }

    /** A dead connection tells its session once. */
    method BuryDead()
      requires Valid()
      modifies Repr()
      ensures Valid() && OwnsOnlyMore()
      ensures View() == Bury(old(View()))
    {
      hide TransportClosed; hide Apply; hide D.Decoder.View;
      if dead && session.state != Closed {
        var reaction := session.LoseTransport(deadReason);
        ApplyReaction(reaction);
      }
    }

    method FlushAlive()
      requires Valid()
      modifies this`transport, this`outboxLen, this`outboxOff, this`dead, this`deadReason
      ensures Valid() && Repr() == old(Repr()) && View() == FlushIfAlive(old(View()))
    {
      hide Flush; hide Repr; hide View; hide Valid; hide Machine.View; hide Machine.Valid; hide D.Decoder.View;
      hide D.Decoder.Valid;
      Shows();
      if !dead { FlushOutbox(); }
    }

    method DrainAlive(now: nat)
      requires Valid()
      modifies Repr()
      ensures Valid() && OwnsOnlyMore() && View() == DrainIfAlive(old(View()), now)
    {
      hide Drain; hide View; hide Valid; hide Machine.View; hide Machine.Valid; hide D.Decoder.View;
      hide D.Decoder.Valid;
      Shows();
      if !dead { DrainAll(now); }
    }

    method TickAlive(now: nat)
      requires Valid()
      modifies Repr()
      ensures Valid() && OwnsOnlyMore() && View() == TickIfAlive(old(View()), now)
    {
      hide TickSession; hide View; hide Valid; hide Machine.View; hide Machine.Valid; hide D.Decoder.View;
      hide D.Decoder.Valid;
      Shows();
      if !dead { TickSessionAt(now); }
    }

    method TickAt(now: nat)
      requires Valid()
      modifies Repr()
      ensures Valid() && OwnsOnlyMore() && View() == CoreTick(old(View()), now)
    {
      hide Announce; hide FlushIfAlive; hide DrainIfAlive; hide TickIfAlive; hide Bury; hide Repr; hide View;
      hide Valid; hide Machine.View; hide Machine.Valid; hide D.Decoder.View; hide D.Decoder.Valid;
      Shows();
      AnnounceOnce();
      Shows();
      FlushAlive();
      DrainAlive(now);
      TickAlive(now);
      BuryDead();
    }

    method SendData(id: u32, payload: seq<byte>) returns (result: Result)
      requires Valid()
      modifies this`transport, this`outbox, this`outboxLen, this`outboxOff, this`dead, this`deadReason,
               this`committed, outbox, scratch
      ensures Valid() && OwnsOnlyMore()
      ensures (View(), result) == CoreSend(old(View()), id, payload)
    {
      hide WriteFrame;
      if session.state != Ready { return ErrNotReady; }
      if dead { return ErrClosed; }
      if |payload| > session.config.maxMessageBytes { return ErrTooLarge; }
      if outboxLen > outboxOff { return ErrCongested; }
      var error, written := EncodeDataInto(id, payload, scratch);
      if error.Some? { return ErrTooLarge; }
      result := WriteOut(written, Data(id, payload));
    }

    method CloseDown()
      requires Valid()
      modifies this`dead, this`deadReason, this`outboxLen, this`outboxOff, this`transport, session
      ensures Valid() && View() == CoreClose(old(View()))
    {
      session.CloseNow();
      ShutDown();
    }

    method TrimRecv()
      requires Valid()
      modifies this`recv
      ensures Valid() && OwnsOnlyMore()
      ensures View() == old(View()).(recvCap := Min(old(View()).recvCap, RECV_BASE_CAP))
    {
      hide Machine.View; hide Machine.Valid; hide D.Decoder.View;
      if recv.Length > RECV_BASE_CAP {
        recv := new byte[RECV_BASE_CAP](_ => 0);
      }
    }

    method TrimOutbox()
      requires Valid()
      modifies this`outbox, this`outboxLen, this`outboxOff
      ensures Valid() && OwnsOnlyMore() && View() == old(View())
    {
      hide Machine.View; hide Machine.Valid; hide D.Decoder.View;
      if outboxOff >= outboxLen && outbox.Length > 0 {
        outbox := new byte[0];
        outboxLen, outboxOff := 0, 0;
      }
    }

    /** Gives back grown buffers; only the size of the receive buffer shows. */
    method Shrink()
      requires Valid()
      modifies this`recv, this`outbox, this`outboxLen, this`outboxOff, decoder
      ensures Valid() && OwnsOnlyMore()
      ensures View() == old(View()).(recvCap := Min(old(View()).recvCap, RECV_BASE_CAP))
    {
      hide Machine.View; hide Machine.Valid; hide D.Decoder.View;
      TrimRecv();
      if transport.stream { decoder.Shrink(); }
      TrimOutbox();
    }
  }

  lemma NewbornSession(transport: Transport, schema: Schema, config: Config, role: Role, now: nat)
    ensures var s := Newborn(transport, schema, config, role, now).session;
      s.startedMs == now && s.role == role && s.schema == schema && s.config == config
  {
    hide HelloBytes;
  }

  lemma KilledKeepsTransport(c: Core, reason: Disconnect)
    ensures Kill(c, reason).transport == c.transport
  {
  }

  lemma NextUnlessBad(c: Core)
    ensures !D.NextResult(c.decoder).Bad? ==> c.(decoder := D.AfterNext(c.decoder)) == c
  {
    hide D.NextResult;
  }

  lemma GivesNoMore(t: Transport, cap: nat)
    ensures var (t', result) := TransportRecv(t, cap);
      t'.stream == t.stream && (result.Received? ==> |result.bytes| <= cap)
  {
  }
}
