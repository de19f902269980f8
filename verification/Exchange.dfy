/** Two sessions that pass each other their handshake payloads: both become ready
    exactly when their schemas are compatible. */
module Exchange {
  import opened Bytes
  import opened Frame
  import opened Schema
  import opened Handshake
  import opened Session
  import N = Negotiation
  import R = SessionRuns

  /** A client, a server, what each has reported, and the payload on its way. */
  datatype Talk = Talk(client: Session, server: Session, clientEvents: seq<Event>, serverEvents: seq<Event>,
                       inFlight: Option<seq<byte>>, toServer: bool)

  function Reported(events: seq<Event>, reaction: Reaction): seq<Event> {
    if reaction.event.Some? then events + [reaction.event.value] else events
  }

  function Sent(reaction: Reaction): Option<seq<byte>> {
    if reaction.out.OutHandshake? then Some(reaction.out.payload) else None
  }

  function Open(c: Schema, s: Schema, config: Config, config': Config, now: nat): Talk {
    var (client, opening) := Create(Client, c, config, now);
    var (server, nothing) := Create(Server, s, config', now);
    Talk(client, server, [], [], Sent(opening), true)
  }

  function Deliver(t: Talk, now: nat): Talk {
    match t.inFlight
    case None => t
    case Some(payload) =>
      if t.toServer then
        var (server, reaction) := OnFrame(t.server, Handshake(payload), now);
        t.(server := server, serverEvents := Reported(t.serverEvents, reaction),
           inFlight := Sent(reaction), toServer := false)
      else
        var (client, reaction) := OnFrame(t.client, Handshake(payload), now);
        t.(client := client, clientEvents := Reported(t.clientEvents, reaction),
           inFlight := Sent(reaction), toServer := true)
  }

  /** An exchange: each state follows from the one before by one delivery. */
  ghost predicate IsExchange(talks: seq<Talk>, times: seq<nat>) {
    && |talks| == |times| + 1
    && forall i | 0 <= i < |times| :: talks[i + 1] == Deliver(talks[i], times[i])
  }

  /** Where an exchange between these schemas has to end. */
  predicate Ended(t: Talk, accepted: bool) {
    && t.inFlight.None?
    && (accepted ==> t.client.state == Ready && t.server.state == Ready
                     && t.clientEvents == [BecameReady] && t.serverEvents == [BecameReady])
    && (!accepted ==> t.client.state == Closed && t.server.state == Closed
                      && t.clientEvents == [HandshakeFailed(FailSchemaConflict)]
                      && t.serverEvents == [HandshakeFailed(FailSchemaConflict)])
  }

  /** A verdict is on its way to a client that still waits for it. */
  predicate VerdictUnderWay(t: Talk, accepted: bool) {
    && t.client.state == Handshaking && t.client.role.Client? && t.clientEvents == []
    && t.inFlight == Some([VerdictByte(if accepted then VAccept else VSchemaConflict)]) && !t.toServer
    && (accepted ==> t.server.state == Ready && t.serverEvents == [BecameReady])
    && (!accepted ==> t.server.state == Closed && t.serverEvents == [HandshakeFailed(FailSchemaConflict)])
  }

  /** Both still handshaking; the server has seen nothing. */
  predicate HelloUnderWay(t: Talk, c: Schema, s: Schema) {
    && t.client.role.Client? && t.client.schema == c && t.client.state == Handshaking && !t.client.querySeen
    && t.server.role.Server? && t.server.schema == s && t.server.state == Handshaking && !t.server.hasAsked
    && t.clientEvents == [] && t.serverEvents == []
    && t.inFlight == Some(HelloBytes(HelloOf(c))) && t.toServer
  }

  predicate QueryUnderWay(t: Talk, c: Schema, s: Schema, items: seq<QueryItem>) {
    && t.client.role.Client? && t.client.schema == c && t.client.state == Handshaking && !t.client.querySeen
    && t.server.role.Server? && t.server.schema == s && t.server.state == Handshaking && t.server.hasAsked
    && t.server.asked == items
    && t.clientEvents == [] && t.serverEvents == []
    && t.inFlight == Some(QueryBytes(items)) && !t.toServer
  }

  predicate ReplyUnderWay(t: Talk, c: Schema, s: Schema, items: seq<QueryItem>) {
    && t.client.role.Client? && t.client.state == Handshaking
    && t.server.role.Server? && t.server.schema == s && t.server.state == Handshaking && t.server.hasAsked
    && t.server.asked == items
    && t.clientEvents == [] && t.serverEvents == []
    && Answerable(c.messages, items)
    && t.inFlight == Some(ReplyBytes(Answers(c.messages, items))) && t.toServer
  }

  lemma OpenSendsHello(c: Schema, s: Schema, config: Config, config': Config, now: nat)
    requires WellFormed(c) && WellFormed(s)
    ensures HelloUnderWay(Open(c, s, config, config', now), c, s)
  {
    HelloRoundTrip(HelloOf(c));
    hide HelloBytes;
  }

  /** What the server does with a client's hello is what `Decide` says. */
  lemma ServerReadsHello(server: Session, c: Schema)
    requires |c.messages| <= MAX_SCHEMA_MESSAGES
    ensures ServerHello(server, HelloBytes(HelloOf(c))) ==
      match Decide(server.schema, HelloOf(c), |server.schema.messages|)
      case Accept => AcceptPeer(server)
      case Reject(verdict) => RejectPeer(server, verdict)
      case Query(items) =>
        (server.(asked := items, hasAsked := true), Reaction(Printed(server.schema, QueryBytes(items)), None))
  {
    HelloRoundTrip(HelloOf(c));
    hide HelloBytes; hide ParseHello; hide Decide; hide QueryBytes;
  }

  /** A query of at most one item a message fits the scratch buffer. */
  lemma QueryIsPrinted(s: Schema, items: seq<QueryItem>)
    requires WellFormed(s) && |items| <= |s.messages|
    ensures Printed(s, QueryBytes(items)) == OutHandshake(QueryBytes(items))
  {
    QueryRoundTrip(items, |items|);
    hide QueryBytes;
  }

  /** The session ends with this verdict and says so. */
  predicate Concludes(s': Session, reaction: Reaction, accepted: bool) {
    && reaction.out == OutHandshake([VerdictByte(if accepted then VAccept else VSchemaConflict)])
    && (accepted ==> s'.state == Ready && reaction.event == Some(BecameReady))
    && (!accepted ==> s'.state == Closed && reaction.event == Some(HandshakeFailed(FailSchemaConflict)))
  }

  /** Decisions short of a query are the settled verdict. */
  lemma DecisionSettles(c: Schema, s: Schema)
    requires WellFormed(c) && WellFormed(s)
    ensures var d := Decide(s, HelloOf(c), |s.messages|);
      && (d.Accept? ==> N.Settled(c, s) == VAccept)
      && (d.Reject? ==> N.Settled(c, s) == VSchemaConflict && d.verdict == VSchemaConflict)
      && (d.Query? ==> 0 < |d.items| <= |s.messages|)
  {
    N.EntriesAreDistinct(c);
    N.DecideMeaning(s, HelloOf(c), |s.messages|);
    R.QueryWithinCap(s.messages, HelloOf(c).entries, [], |s.messages|);
    hide N.Needs; hide DecideRest; hide ReplyVerdict; hide Answers; hide Answerable;
  }

  lemma HelloIsRouted(server: Session, payload: seq<byte>, now: nat)
    requires server.role.Server? && server.state == Handshaking && !server.hasAsked
    ensures OnFrame(server, Handshake(payload), now)
         == ServerHello(server.(lastActivityMs := now, probing := false), payload)
  {
    hide ServerHello; hide ClientHandshake; hide ServerReply;
  }

  lemma Bounded(c: Schema)
    requires WellFormed(c)
    ensures |c.messages| <= MAX_SCHEMA_MESSAGES
  {
  }

  lemma ServerHearsHello(server: Session, c: Schema, now: nat)
    requires WellFormed(c) && WellFormed(server.schema)
    requires server.role.Server? && server.state == Handshaking && !server.hasAsked
    ensures var (s', reaction) := OnFrame(server, Handshake(HelloBytes(HelloOf(c))), now);
      var d := Decide(server.schema, HelloOf(c), |server.schema.messages|);
      if d.Query?
      then s' == server.(asked := d.items, hasAsked := true, lastActivityMs := now, probing := false)
           && reaction == Reaction(OutHandshake(QueryBytes(d.items)), None)
      else Concludes(s', reaction, N.Settled(c, server.schema) == VAccept)
  {
    var heard := server.(lastActivityMs := now, probing := false);
    var d := Decide(server.schema, HelloOf(c), |server.schema.messages|);
    hide HelloBytes; hide QueryBytes; hide Decide; hide ServerHello; hide N.Settled; hide Printed; hide ParseReply;
    hide HelloOf; hide WellFormed; hide ServerReply; hide OnFrame;
    HelloIsRouted(server, HelloBytes(HelloOf(c)), now);
    Bounded(c);
    ServerReadsHello(heard, c);
    DecisionSettles(c, server.schema);
    if d.Query? { QueryIsPrinted(server.schema, d.items); }
  }

  /** The hello leads to the right verdict, or to a question that will. */
  lemma HelloArrives(t: Talk, c: Schema, s: Schema, now: nat)
    requires WellFormed(c) && WellFormed(s) && HelloUnderWay(t, c, s)
    ensures var t' := Deliver(t, now); var d := Decide(s, HelloOf(c), |s.messages|);
      if d.Query? then QueryUnderWay(t', c, s, d.items)
      else VerdictUnderWay(t', N.Settled(c, s) == VAccept)
  {
    ServerHearsHello(t.server, c, now);
    hide HelloBytes; hide QueryBytes; hide Decide; hide N.Settled; hide OnFrame;
  }

  lemma QuestionsAreAnswerable(c: Schema, s: Schema, items: seq<QueryItem>)
    requires WellFormed(c) && WellFormed(s) && Decide(s, HelloOf(c), |s.messages|) == Query(items)
    ensures Answerable(c.messages, items) && |items| <= |c.messages|
  {
    N.EntriesAreDistinct(c);
    N.DecideMeaning(s, HelloOf(c), |s.messages|);
    N.QueryRoundMeaning(c, s);
    N.NeedsWithinEntries(s.messages, HelloOf(c).entries);
    hide DecideRest; hide N.Needs; hide ReplyVerdict; hide Answers; hide Answerable;
  }

  /** A client that can answer does, and waits on. */
  lemma ClientAnswers(client: Session, items: seq<QueryItem>)
    requires !client.querySeen && |items| <= |client.schema.messages| <= MAX_SCHEMA_MESSAGES
    requires Answerable(client.schema.messages, items)
    ensures ClientHandshake(client, QueryBytes(items)) ==
      (client.(querySeen := true),
       Reaction(OutHandshake(ReplyBytes(Answers(client.schema.messages, items))), None))
  {
    QueryRoundTrip(items, |client.schema.messages|);
    assert QueryBytes(items)[0] == QUERY_TAG;
    ReplyRoundTrip(Answers(client.schema.messages, items), |items|);
    hide QueryBytes; hide ReplyBytes; hide ParseQuery; hide Answers; hide Answerable;
  }

  lemma ClientHearsQuery(client: Session, s: Schema, items: seq<QueryItem>, now: nat)
    requires WellFormed(client.schema) && WellFormed(s)
    requires client.role.Client? && client.state == Handshaking && !client.querySeen
    requires Decide(s, HelloOf(client.schema), |s.messages|) == Query(items)
    ensures Answerable(client.schema.messages, items)
    ensures OnFrame(client, Handshake(QueryBytes(items)), now) ==
      (client.(querySeen := true, lastActivityMs := now, probing := false),
       Reaction(OutHandshake(ReplyBytes(Answers(client.schema.messages, items))), None))
  {
    QuestionsAreAnswerable(client.schema, s, items);
    ClientAnswers(client.(lastActivityMs := now, probing := false), items);
    hide QueryBytes; hide ReplyBytes; hide Decide; hide ClientHandshake; hide Answers; hide Answerable;
  }

  lemma QueryArrives(t: Talk, c: Schema, s: Schema, items: seq<QueryItem>, now: nat)
    requires WellFormed(c) && WellFormed(s) && QueryUnderWay(t, c, s, items)
    requires Decide(s, HelloOf(c), |s.messages|) == Query(items)
    ensures ReplyUnderWay(Deliver(t, now), c, s, items)
  {
    ClientHearsQuery(t.client, s, items, now);
    hide QueryBytes; hide ReplyBytes; hide Decide; hide Answers; hide Answerable; hide OnFrame;
  }

  lemma ServerHearsReply(server: Session, c: Schema, items: seq<QueryItem>, now: nat)
    requires WellFormed(c) && WellFormed(server.schema)
    requires server.role.Server? && server.state == Handshaking && server.hasAsked && server.asked == items
    requires Decide(server.schema, HelloOf(c), |server.schema.messages|) == Query(items)
    requires Answerable(c.messages, items)
    ensures var (s', reaction) := OnFrame(server, Handshake(ReplyBytes(Answers(c.messages, items))), now);
      Concludes(s', reaction, N.Settled(c, server.schema) == VAccept)
  {
    var s := server.schema;
    DecisionSettles(c, s);
    N.SettledMeaning(c, s);
    assert N.Settled(c, s) == ReplyVerdict(s.messages, items, Answers(c.messages, items));
    ReplyRoundTrip(Answers(c.messages, items), |s.messages|);
    hide ReplyBytes; hide Decide; hide ParseReply; hide Answers; hide Answerable; hide ReplyVerdict;
    hide N.Settled; hide N.Compatible;
  }

  lemma ReplyArrives(t: Talk, c: Schema, s: Schema, items: seq<QueryItem>, now: nat)
    requires WellFormed(c) && WellFormed(s) && ReplyUnderWay(t, c, s, items)
    requires Decide(s, HelloOf(c), |s.messages|) == Query(items)
    ensures VerdictUnderWay(Deliver(t, now), N.Settled(c, s) == VAccept)
  {
    ServerHearsReply(t.server, c, items, now);
    hide ReplyBytes; hide Decide; hide Answers; hide Answerable; hide OnFrame; hide N.Settled;
  }

  lemma VerdictArrives(t: Talk, accepted: bool, now: nat)
    requires VerdictUnderWay(t, accepted)
    ensures Ended(Deliver(t, now), accepted)
  {
  }

  lemma {:induction false} EndedStays(talks: seq<Talk>, times: seq<nat>, j: nat, k: nat)
    requires IsExchange(talks, times) && j <= k < |talks| && talks[j].inFlight.None?
    ensures talks[k] == talks[j]
    decreases k
  {
    hide OnFrame;
    if j < k {
      EndedStays(talks, times, j, k - 1);
      assert talks[k] == Deliver(talks[k - 1], times[k - 1]);
    }
  }

  /** Exact negotiation: once everything has been delivered - four payloads are
      enough - both ends are ready if the schemas are compatible, and otherwise both
      report a schema conflict; no other failure occurs. */
  lemma ExactNegotiation(c: Schema, s: Schema, config: Config, config': Config, now: nat,
                         talks: seq<Talk>, times: seq<nat>, k: nat)
    requires WellFormed(c) && WellFormed(s)
    requires IsExchange(talks, times) && talks[0] == Open(c, s, config, config', now) && 4 <= k < |talks|
    ensures Ended(talks[k], N.Compatible(c, s))
  {
    hide Decide; hide Open; hide N.Settled; hide N.Compatible; hide Deliver; hide Ended; hide HelloUnderWay;
    hide QueryUnderWay; hide ReplyUnderWay; hide VerdictUnderWay; hide WellFormed;
    var d := Decide(s, HelloOf(c), |s.messages|);
    var accepted := N.Compatible(c, s);
    OpenSendsHello(c, s, config, config', now);
    N.SettledMeaning(c, s);
    assert talks[1] == Deliver(talks[0], times[0]) && talks[2] == Deliver(talks[1], times[1]);
    assert talks[3] == Deliver(talks[2], times[2]) && talks[4] == Deliver(talks[3], times[3]);
    HelloArrives(talks[0], c, s, times[0]);
    if d.Query? {
      QueryArrives(talks[1], c, s, d.items, times[1]);
      ReplyArrives(talks[2], c, s, d.items, times[2]);
      VerdictArrives(talks[3], accepted, times[3]);
      NothingInFlight(talks[4], accepted);
      EndedStays(talks, times, 4, k);
    } else {
      VerdictArrives(talks[1], accepted, times[1]);
      NothingInFlight(talks[2], accepted);
      EndedStays(talks, times, 2, k);
    }
  }

  lemma NothingInFlight(t: Talk, accepted: bool)
    requires Ended(t, accepted)
    ensures t.inFlight.None?
  {
  }
}
