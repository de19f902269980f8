/** A client and a server joined by byte pipes: on every run, whatever the
    transports take, give and refuse and whenever the ends are ticked, messages
    arrive in order and none is invented, repeated or skipped. */
module Delivery {
  import opened Bytes
  import opened Frame
  import opened Schema
  import opened Handshake
  import opened Session
  import opened Core
  import opened CoreLaws
  import opened ConnectionRuns
  import opened ConnectionSteps
  import R = SessionRuns

  /** Both ends, and the payloads each one's sends returned OK for. */
  datatype System = System(client: Core, server: Core, clientSent: seq<Payload>, serverSent: seq<Payload>)

  /** One call at one end. The scripts say how its transport will behave during it. */
  datatype Action =
    | DoTick(who: Role, now: nat, sends: seq<SendAnswer>, recvs: seq<RecvAnswer>)
    | DoSend(who: Role, id: u32, payload: seq<byte>, sends: seq<SendAnswer>)
    | DoClose(who: Role)

  predicate StreamAction(a: Action) {
    match a
    case DoTick(_, _, sends, _) => RefuseTooLarge !in sends
    case DoSend(_, _, _, sends) => RefuseTooLarge !in sends
    case DoClose(_) => true
  }

  /** What the peer's transport has taken and this end has not been given yet. */
  function InFlight(c: Core, peer: Core): seq<byte> {
    if |c.transport.received| <= |peer.transport.accepted|
    then peer.transport.accepted[|c.transport.received|..] else []
  }

  function Wired(c: Core, peer: Core, sends: seq<SendAnswer>, recvs: seq<RecvAnswer>): Core {
    c.(transport := c.transport.(sends := sends, recvs := recvs, inbound := InFlight(c, peer)))
  }

  /** The acting end after the call, and what it has newly sent. */
  function Act(c: Core, peer: Core, a: Action): (Core, seq<Payload>) {
    match a
    case DoTick(_, now, sends, recvs) => (CoreTick(Wired(c, peer, sends, recvs), now), [])
    case DoSend(_, id, payload, sends) =>
      var (c', result) := CoreSend(Wired(c, peer, sends, []), id, payload);
      (c', if result == Ok then [(id, payload)] else [])
    case DoClose(_) => (CoreClose(Wired(c, peer, [], [])), [])
  }

  function Step(s: System, a: Action): System {
    if a.who.Client? then
      var (c', sent) := Act(s.client, s.server, a);
      s.(client := c', clientSent := s.clientSent + sent)
    else
      var (c', sent) := Act(s.server, s.client, a);
      s.(server := c', serverSent := s.serverSent + sent)
  }

  /** A run: each state follows from the one before by one action. */
  ghost predicate IsRun(states: seq<System>, actions: seq<Action>) {
    && |states| == |actions| + 1
    && forall i | 0 <= i < |actions| :: StreamAction(actions[i]) && states[i + 1] == Step(states[i], actions[i])
  }

  function EmptyPipe(sends: seq<SendAnswer>): Transport {
    Transport(true, sends, [], [], [], [], false)
  }

  /** Two fresh connections; the client's hello meets whatever `sends` says. */
  ghost predicate Starts(s: System, cs: Schema, ss: Schema, config: Config, config': Config, now: nat,
                         sends: seq<SendAnswer>)
  {
    && WellFormed(cs) && WellFormed(ss)
    && RefuseTooLarge !in sends
    && Init(EmptyPipe(sends), cs, config, Client, now) == Some(s.client)
    && Init(EmptyPipe([]), ss, config', Server, now) == Some(s.server)
    && s.clientSent == [] && s.serverSent == []
  }

  // ---- The joint invariant -----------------------------------------------------

  /** What one end knows of the other. */
  ghost predicate Joined(c: Core, peer: Core, peerSent: seq<Payload>) {
    && c.transport.received <= peer.transport.accepted
    && DataOf(peer.history.committed) == peerSent
    && DataOf(c.history.early) == []
  }

  ghost predicate SystemInv(s: System) {
    && Inv(s.client) && s.client.session.role == Client
    && Inv(s.server) && s.server.session.role == Server
    && Joined(s.server, s.client, s.clientSent)
    && Joined(s.client, s.server, s.serverSent)
  }

  /** Frames taken in are, in order, the first frames the peer committed. */
  lemma ConsumedWasCommitted(c: Core, peer: Core)
    requires Accounted(c) && Conserved(peer)
    requires c.transport.received <= peer.transport.accepted
    ensures Consumed(c.history) <= peer.history.committed
  {
    hide EncodeAll; hide Consumed; hide Encodable;
    var printed := EncodeAll(peer.history.committed);
    assert peer.transport.accepted <= printed by {
      if !peer.transport.shut { assert printed == peer.transport.accepted + peer.outbox; }
    }
    var missing := printed[|c.transport.received|..];
    assert printed == c.transport.received + missing;
    FactoringIsUnique(Consumed(c.history), c.decoder.buffer, missing, peer.history.committed);
  }

  lemma {:induction false} DataOfEmpty(frames: seq<Frame>)
    ensures DataOf(frames) == [] <==> forall f | f in frames :: !f.Data?
  {
    if frames != [] {
      var init, last := frames[..|frames| - 1], frames[|frames| - 1];
      DataOfEmpty(init);
      assert frames == init + [last];
      assert last in frames;
    }
  }

  lemma DataOfPrefix(a: seq<Frame>, b: seq<Frame>)
    requires a <= b
    ensures DataOf(a) <= DataOf(b)
  {
    assert b == a + b[|a|..];
    DataOfAppend(a, b[|a|..]);
  }

  lemma NotBefore(early: seq<Frame>, committed: seq<Frame>, i: nat)
    requires early <= committed && i < |early| && ACCEPT !in early[..|early| - 1]
    ensures ACCEPT !in committed[..i]
  {
    assert committed[..i] == early[..|early| - 1][..i];
  }

  /** A client takes in no data while handshaking: the server sends none before the
      acceptance that ends the client's handshake. */
  lemma ClientHearsNoEarlyData(early: seq<Frame>, committed: seq<Frame>)
    requires early <= committed && DataAfterAccept(committed)
    requires early != [] ==> ACCEPT !in early[..|early| - 1]
    ensures DataOf(early) == []
  {
    hide DataOf;
    forall f | f in early ensures !f.Data? {
      var i :| 0 <= i < |early| && early[i] == f;
      assert committed[i] == f;
      NotBefore(early, committed, i);
    }
    DataOfEmpty(early);
  }

  /** A server that is still handshaking has accepted nobody, so its client has
      committed no data. */
  lemma HandshakingServerIsSentNoData(client: Core, server: Core)
    requires ClientKeeps(client) && ServerKeeps(server) && server.session.state == Handshaking
    requires Consumed(client.history) <= server.history.committed
    ensures DataOf(client.history.committed) == []
  {
    hide DataOf; hide DataAfterAccept;
    forall i | 0 <= i < |client.history.early| ensures client.history.early[i] != ACCEPT {
      assert Consumed(client.history)[i] == client.history.early[i];
      assert server.history.committed[i] == client.history.early[i];
    }
  }

  lemma WiredKeeps(c: Core, peer: Core, sends: seq<SendAnswer>, recvs: seq<RecvAnswer>)
    requires Inv(c) && RefuseTooLarge !in sends
    ensures Inv(Wired(c, peer, sends, recvs))
  {
    hide DataOf; hide MessagesOf; hide DataAfterAccept; hide EncodeAll; hide Consumed;
  }

  lemma WiredReaches(c: Core, peer: Core)
    requires c.transport.received <= peer.transport.accepted
    ensures c.transport.received + InFlight(c, peer) == peer.transport.accepted
  {
  }

  /** What an action of one end amounts to. */
  ghost predicate Acted(c: Core, peer: Core, c': Core, sent: seq<Payload>) {
    && Inv(c')
    && c'.session.role == c.session.role
    && (c.session.state != Handshaking ==> c'.history.early == c.history.early)
    && c.transport.accepted <= c'.transport.accepted
    && c'.transport.received <= peer.transport.accepted
    && DataOf(c'.history.committed) == DataOf(c.history.committed) + sent
  }

  lemma TickActs(c: Core, peer: Core, now: nat, sends: seq<SendAnswer>, recvs: seq<RecvAnswer>)
    requires Inv(c) && c.transport.received <= peer.transport.accepted && RefuseTooLarge !in sends
    ensures Acted(c, peer, CoreTick(Wired(c, peer, sends, recvs), now), [])
  {
    var w := Wired(c, peer, sends, recvs);
    WiredKeeps(c, peer, sends, recvs);
    WiredReaches(c, peer);
    hide CoreTick; hide Inv; hide DataOf;
    CoreTickKeeps(w, now);
    assert DataOf(c.history.committed) + [] == DataOf(c.history.committed);
  }

  lemma SendActs(c: Core, peer: Core, id: u32, payload: seq<byte>, sends: seq<SendAnswer>)
    requires Inv(c) && c.transport.received <= peer.transport.accepted && RefuseTooLarge !in sends
    ensures var (c', result) := CoreSend(Wired(c, peer, sends, []), id, payload);
      Acted(c, peer, c', if result == Ok then [(id, payload)] else [])
  {
    var w := Wired(c, peer, sends, []);
    WiredKeeps(c, peer, sends, []);
    hide CoreSend; hide Inv; hide DataOf;
    CoreSendKeeps(w, id, payload);
  }

  lemma CloseActs(c: Core, peer: Core)
    requires Inv(c) && c.transport.received <= peer.transport.accepted
    ensures Acted(c, peer, CoreClose(Wired(c, peer, [], [])), [])
  {
    var w := Wired(c, peer, [], []);
    WiredKeeps(c, peer, [], []);
    WiredReaches(c, peer);
    hide CoreClose; hide Inv; hide DataOf;
    CoreCloseKeeps(w);
    assert DataOf(c.history.committed) + [] == DataOf(c.history.committed);
  }

  lemma ActActs(c: Core, peer: Core, a: Action)
    requires Inv(c) && c.transport.received <= peer.transport.accepted && StreamAction(a)
    ensures Acted(c, peer, Act(c, peer, a).0, Act(c, peer, a).1)
  {
    hide CoreTick; hide CoreSend; hide CoreClose; hide Inv; hide Acted;
    match a
    case DoTick(_, now, sends, recvs) => TickActs(c, peer, now, sends, recvs);
    case DoSend(_, id, payload, sends) => SendActs(c, peer, id, payload, sends);
    case DoClose(_) => CloseActs(c, peer);
  }

  lemma InvParts(c: Core)
    requires Inv(c)
    ensures Accounted(c) && Conserved(c) && Reported(c)
    ensures c.session.role.Client? ==> ClientKeeps(c)
    ensures c.session.role.Server? ==> ServerKeeps(c)
    ensures c.session.state == Ready ==> c.history.late == []
  {
  }

  lemma ClientIsSentNoEarlyData(client: Core, server: Core)
    requires Inv(client) && client.session.role == Client && Inv(server) && server.session.role == Server
    requires client.transport.received <= server.transport.accepted
    ensures DataOf(client.history.early) == []
  {
    InvParts(client); InvParts(server);
    hide Inv; hide Accounted; hide Conserved; hide Reported; hide DataOf; hide DataAfterAccept; hide Consumed;
    ConsumedWasCommitted(client, server);
    EarlyComesFirst(client.history);
    ClientHearsNoEarlyData(client.history.early, server.history.committed);
  }

  lemma ServerIsSentNoEarlyData(client: Core, server: Core, server': Core)
    requires Inv(client) && client.session.role == Client && Inv(server) && server.session.role == Server
    requires server.session.state == Handshaking && Inv(server')
    requires client.transport.received <= server.transport.accepted
    requires server'.transport.received <= client.transport.accepted
    ensures DataOf(server'.history.early) == []
  {
    InvParts(client); InvParts(server); InvParts(server');
    hide Inv; hide Accounted; hide Conserved; hide Reported; hide DataOf; hide DataAfterAccept; hide Consumed;
    hide ClientKeeps; hide ServerKeeps;
    ConsumedWasCommitted(client, server);
    HandshakingServerIsSentNoData(client, server);
    ConsumedWasCommitted(server', client);
    EarlyComesFirst(server'.history);
    DataOfPrefix(server'.history.early, Consumed(server'.history));
    DataOfPrefix(Consumed(server'.history), client.history.committed);
  }

  lemma ClientActionIsSafe(s: System, c': Core, sent: seq<Payload>)
    requires SystemInv(s) && Acted(s.client, s.server, c', sent)
    ensures SystemInv(s.(client := c', clientSent := s.clientSent + sent))
  {
    hide Inv; hide DataOf;
    ClientIsSentNoEarlyData(c', s.server);
  }

  lemma EarlyComesFirst(h: History)
    ensures h.early <= Consumed(h)
  {
  }

  lemma ServerActionIsSafe(s: System, c': Core, sent: seq<Payload>)
    requires SystemInv(s) && Acted(s.server, s.client, c', sent)
    ensures SystemInv(s.(server := c', serverSent := s.serverSent + sent))
  {
    hide Inv; hide DataOf;
    if s.server.session.state == Handshaking { ServerIsSentNoEarlyData(s.client, s.server, c'); }
  }

  lemma StepIsSafe(s: System, a: Action)
    requires SystemInv(s) && StreamAction(a)
    ensures SystemInv(Step(s, a))
  {
    hide Act; hide Inv; hide Acted; hide DataOf;
    if a.who.Client? {
      var (c', sent) := Act(s.client, s.server, a);
      ActActs(s.client, s.server, a);
      ClientActionIsSafe(s, c', sent);
    } else {
      var (c', sent) := Act(s.server, s.client, a);
      ActActs(s.server, s.client, a);
      ServerActionIsSafe(s, c', sent);
    }
  }

  lemma StartIsSafe(s: System, cs: Schema, ss: Schema, config: Config, config': Config, now: nat,
                    sends: seq<SendAnswer>)
    requires Starts(s, cs, ss, config, config', now, sends)
    ensures SystemInv(s)
  {
    InitFits(EmptyPipe(sends), cs, config, Client, now);
    InitFits(EmptyPipe([]), ss, config', Server, now);
    InitKeeps(EmptyPipe(sends), cs, config, Client, now);
    InitKeeps(EmptyPipe([]), ss, config', Server, now);
    RoleOfCreated(Client, cs, config, now);
    RoleOfCreated(Server, ss, config', now);
    hide Init; hide Inv; hide Create; hide HelloLen; hide WellFormed;
    assert DataOf([]) == [];
  }

  lemma InitFits(t: Transport, schema: Schema, config: Config, role: Role, now: nat)
    ensures Init(t, schema, config, role, now).Some? ==> HelloLen(schema) <= MAX_HANDSHAKE_PAYLOAD
  {
    hide EmitOut; hide Create; hide HelloLen;
  }

  lemma RoleOfCreated(role: Role, schema: Schema, config: Config, now: nat)
    ensures Create(role, schema, config, now).0.role == role
  {
    hide HelloBytes;
  }

  lemma {:induction false} RunIsSafe(states: seq<System>, actions: seq<Action>, k: nat)
    requires IsRun(states, actions) && SystemInv(states[0]) && k < |states|
    ensures SystemInv(states[k])
  {
    hide SystemInv; hide Step; hide StreamAction;
    if k > 0 {
      RunIsSafe(states, actions, k - 1);
      assert StreamAction(actions[k - 1]);
      StepIsSafe(states[k - 1], actions[k - 1]);
    }
  }

  // ---- The theorem -------------------------------------------------------------

  lemma DataOfConsumed(h: History)
    requires DataOf(h.early) == []
    ensures DataOf(Consumed(h)) == DataOf(h.live) + DataOf(h.late)
  {
    DataOfAppend(h.early + h.live, h.late);
    DataOfAppend(h.early, h.live);
    hide DataOf;
  }

  lemma NoLateMessages(h: History)
    requires DataOf(h.early) == [] && MessagesOf(h.events) == DataOf(h.live)
    ensures MessagesOf(h.events) <= DataOf(Consumed(h))
    ensures h.late == [] ==> MessagesOf(h.events) == DataOf(Consumed(h))
  {
    DataOfConsumed(h);
    assert DataOf([]) == [];
    hide DataOf; hide MessagesOf; hide Consumed;
  }

  lemma MessagesAreSent(c: Core, peer: Core, peerSent: seq<Payload>)
    requires Inv(c) && Inv(peer) && Joined(c, peer, peerSent)
    ensures MessagesOf(c.history.events) <= peerSent
    ensures c.session.state == Ready ==> MessagesOf(c.history.events) == DataOf(Consumed(c.history))
    ensures Consumed(c.history) <= peer.history.committed
  {
    InvParts(c); InvParts(peer);
    hide Inv; hide Accounted; hide Conserved; hide DataOf; hide MessagesOf; hide ClientKeeps; hide ServerKeeps;
    hide Consumed;
    ConsumedWasCommitted(c, peer);
    DataOfPrefix(Consumed(c.history), peer.history.committed);
    NoLateMessages(c.history);
  }

  /** In-order delivery: at every moment of every run the messages one end reports are a beginning of
      the sends that returned OK at the other end, and no data reaches an end that is
      still handshaking. */
  lemma InOrderDelivery(states: seq<System>, actions: seq<Action>, k: nat, cs: Schema, ss: Schema, config: Config,
                        config': Config, now: nat, sends: seq<SendAnswer>)
    requires IsRun(states, actions) && k < |states|
    requires Starts(states[0], cs, ss, config, config', now, sends)
    ensures var r := states[k];
      && MessagesOf(r.server.history.events) <= r.clientSent
      && MessagesOf(r.client.history.events) <= r.serverSent
      && DataOf(r.server.history.early) == [] && DataOf(r.client.history.early) == []
  {
    StartIsSafe(states[0], cs, ss, config, config', now, sends);
    RunIsSafe(states, actions, k);
    hide IsRun; hide Inv; hide DataOf; hide MessagesOf; hide Starts; hide Consumed;
    var r := states[k];
    MessagesAreSent(r.server, r.client, r.clientSent);
    MessagesAreSent(r.client, r.server, r.serverSent);
  }

  /** Everything `from` committed has been handed over and taken in by `to`. */
  predicate Drained(from: Core, to: Core) {
    && !from.transport.shut && from.outbox == []
    && to.transport.received == from.transport.accepted
    && to.decoder.buffer == []
  }

  lemma DrainedMeansConsumed(from: Core, to: Core)
    requires Inv(from) && Inv(to) && Drained(from, to)
    ensures Consumed(to.history) == from.history.committed
  {
    InvParts(from); InvParts(to);
    hide Inv; hide EncodeAll; hide Consumed; hide Encodable;
    var sent, taken := from.history.committed, Consumed(to.history);
    assert EncodeAll(taken) + [] == EncodeAll(sent) + [];
    FactoringIsUnique(taken, [], [], sent);
    FactoringIsUnique(sent, [], [], taken);
  }

  /** Nothing is lost: once a ready end has taken in all that was committed to it, it
      has reported exactly the payloads sent to it. */
  lemma NothingIsLost(states: seq<System>, actions: seq<Action>, k: nat, cs: Schema, ss: Schema, config: Config,
                      config': Config, now: nat, sends: seq<SendAnswer>)
    requires IsRun(states, actions) && k < |states|
    requires Starts(states[0], cs, ss, config, config', now, sends)
    ensures var r := states[k];
      && (r.server.session.state == Ready && Drained(r.client, r.server) ==>
            MessagesOf(r.server.history.events) == r.clientSent)
      && (r.client.session.state == Ready && Drained(r.server, r.client) ==>
            MessagesOf(r.client.history.events) == r.serverSent)
  {
    StartIsSafe(states[0], cs, ss, config, config', now, sends);
    RunIsSafe(states, actions, k);
    hide IsRun; hide Inv; hide DataOf; hide MessagesOf; hide Starts; hide Consumed; hide Drained;
    var r := states[k];
    MessagesAreSent(r.server, r.client, r.clientSent);
    MessagesAreSent(r.client, r.server, r.serverSent);
    if Drained(r.client, r.server) { DrainedMeansConsumed(r.client, r.server); }
    if Drained(r.server, r.client) { DrainedMeansConsumed(r.server, r.client); }
  }

  /** The transport of each end has been handed a beginning of what that end
      committed, all of it but the bounded outbox until the end shuts down. */
  lemma OutboxConservation(states: seq<System>, actions: seq<Action>, k: nat, cs: Schema, ss: Schema, config: Config,
                           config': Config, now: nat, sends: seq<SendAnswer>)
    requires IsRun(states, actions) && k < |states|
    requires Starts(states[0], cs, ss, config, config', now, sends)
    ensures var r := states[k];
      forall c | c == r.client || c == r.server :: Conserved(c)
  {
    StartIsSafe(states[0], cs, ss, config, config', now, sends);
    RunIsSafe(states, actions, k);
    var r := states[k];
    InvParts(r.client); InvParts(r.server);
  }
}
