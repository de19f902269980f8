/** What becomes of a send, of a close, and of a connection that is dead. */
module Sending {
  import opened Bytes
  import opened Frame
  import opened Schema
  import opened Handshake
  import opened Session
  import opened Core
  import B = Budget
  import E = EventGrammar
  import N = Endings
  import R = SessionRuns

  /** The transport's first answer, if it has one. */
  predicate FirstAnswer(c: Core, answer: SendAnswer) {
    c.transport.sends != [] && c.transport.sends[0] == answer
  }

  /** What a transport that takes `k` bytes of some leaves waiting. */
  predicate Left(c: Core, c': Core, bytes: seq<byte>) {
    c'.transport.accepted + c'.outbox == c.transport.accepted + bytes
  }

  /** Each result of a send, and when it is given: not ready, dead, too large for the peer,
      congested while anything waits, too large for the encoder or the transport, dead of
      the transport's answer, and otherwise taken: then its bytes are with the transport or
      waiting, in order, and nothing else is. Only the last three ask the transport. */
  lemma SendIsJudged(c: Core, id: u32, payload: seq<byte>)
    ensures var (c', result) := CoreSend(c, id, payload); var bytes := EncodeFrame(Data(id, payload));
      if c.session.state != Ready then result == ErrNotReady && c' == c
      else if c.dead.Some? then result == ErrClosed && c' == c
      else if |payload| > c.session.config.maxMessageBytes then result == ErrTooLarge && c' == c
      else if c.outbox != [] then result == ErrCongested && c' == c
      else if |payload| > 16_777_216 || |payload| > c.scratchCap - 11 then result == ErrTooLarge && c' == c
      else if FirstAnswer(c, RefuseTooLarge) then result == ErrTooLarge && c' == c.(transport := c'.transport)
      else if FirstAnswer(c, SendClosed) then result == ErrClosed && c'.dead == Some(PeerClosed)
      else if FirstAnswer(c, SendBroken) then result == ErrClosed && c'.dead == Some(TransportError)
      else
        && result == Ok && c'.dead.None? && Left(c, c', bytes) && c'.session == c.session
        && (FirstAnswer(c, TakeAll) ==> c'.outbox == [])
        && (FirstAnswer(c, TakeNone) || c.transport.sends == [] ==> c'.outbox == bytes)
        && (c.transport.sends != [] && c.transport.sends[0].TakeSome? ==>
              |c'.outbox| == if c.transport.sends[0].count < |bytes| then |bytes| - c.transport.sends[0].count else 0)
  {
    assert |EncodeFrame(Data(id, payload))| == 11 + |payload|;
    hide EncodeFrame;
  }

  /** A new connection is refused iff its hello would not fit a handshake frame of 1 MiB;
      otherwise it starts handshaking with nothing reported, a receive buffer of 4096 bytes
      and room to print its hello and the largest message it may send. */
  lemma InitIsExact(t: Transport, schema: Schema, config: Config, role: Role, now: nat)
    ensures var c := Init(t, schema, config, role, now);
      && (c.None? <==> 16 + 14 * |schema.messages| > 1_048_576)
      && (c.Some? ==>
            && c.value.session == Create(role, schema, config, now).0 && c.value.session.state == Handshaking
            && c.value.history.events == [] && !c.value.announced && c.value.recvCap == 4096
            && c.value.scratchCap >= 11 + config.maxMessageBytes
            && c.value.scratchCap >= 5 + 16 + 14 * |schema.messages|)
  {
    E.EmitOutIsSilent(Newborn(t, schema, config, role, now), Create(role, schema, config, now).1.out);
    EmitOutKeepsRoom(Newborn(t, schema, config, role, now), Create(role, schema, config, now).1.out);
    hide EmitOut; hide HelloBytes;
  }

  lemma EmitOutKeepsRoom(c: Core, out: Out)
    ensures EmitOut(c, out).recvCap == c.recvCap && EmitOut(c, out).scratchCap == c.scratchCap
  {
    hide FrameOf; hide EncodeFrame;
  }

  /** Closing drops what waits, shuts the sending direction, and is not reported. */
  lemma CloseIsSilent(c: Core)
    ensures var c' := CoreClose(c);
      && c'.session.state == Closed && c'.session.terminated && c'.dead.Some? && (c.dead.Some? ==> c'.dead == c.dead)
      && (c.dead.None? ==> c'.dead == Some(Local))
      && c'.outbox == [] && c'.transport == c.transport.(shut := true) && c'.history == c.history
  {
  }

  /** Neither the far end nor the bookkeeping of frames is touched. */
  predicate Untouched(c: Core, c': Core) {
    && c'.transport.accepted == c.transport.accepted && c'.transport.received == c.transport.received
    && c'.history.committed == c.history.committed && B.Taken(c'.history) == B.Taken(c.history)
  }

  lemma DeadCallIsSilent(cores: seq<Core>, calls: seq<E.Call>, k: nat)
    requires E.IsRun(cores, calls) && k < |calls| && cores[k].dead.Some? && R.Valid(cores[k].session)
    ensures Untouched(cores[k], cores[k + 1]) && cores[k + 1].dead == cores[k].dead
    ensures R.Valid(cores[k + 1].session)
  {
    var c, call := cores[k], calls[k];
    assert cores[k + 1] == E.Perform(c, call);
    match call
    case TickCall(now, sends, recvs, inbound) =>
      var w := c.(transport := c.transport.(sends := sends, recvs := recvs, inbound := inbound));
      N.DeadTick(w, now);
      N.TickKeepsValid(w, now);
      DeadTickUntouched(w, now);
      hide CoreTick;
    case _ =>
  }

  lemma DeadTickUntouched(c: Core, now: nat)
    requires c.dead.Some? && R.Valid(c.session)
    ensures Untouched(c, CoreTick(c, now))
  {
    var a := Announce(c);
    if N.Open(a) {
      var (s, reaction) := TransportClosed(a.session, a.dead.value);
      assert reaction == Reaction(NoOut, Some(Disconnected(a.dead.value)));
      assert Bury(a) == Push(a.(session := s), Disconnected(a.dead.value));
    }
  }

  /** The dead are silent: once a connection of a run is dead it stays so, of the same
      cause, and from then on nothing is sent, taken in or put on its way, whatever the
      transport offers and whatever is called. */
  lemma {:induction false} DeadAreSilent(t: Transport, schema: Schema, config: Config, role: Role, now: nat,
                                         cores: seq<Core>, calls: seq<E.Call>, j: nat, k: nat)
    requires E.IsRun(cores, calls) && j <= k < |cores| && Init(t, schema, config, role, now) == Some(cores[0])
    requires cores[j].dead.Some?
    ensures Untouched(cores[j], cores[k]) && cores[k].dead == cores[j].dead && R.Valid(cores[k].session)
    decreases k
  {
    hide Init; hide R.Valid;
    if j == k {
      N.RunHasFates(t, schema, config, role, now, cores, calls, k);
    } else {
      DeadAreSilent(t, schema, config, role, now, cores, calls, j, k - 1);
      DeadCallIsSilent(cores, calls, k - 1);
    }
  }
}
