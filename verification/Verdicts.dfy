/** What each side makes of each payload of a handshake, told by the bytes on the wire:
    which payloads are accepted, which are refused and how, and which end the session. */
module Verdicts {
  import opened Bytes
  import opened Frame
  import opened Schema
  import opened Handshake
  import opened HandshakeWire
  import opened Session
  import N = Negotiation
  import R = SessionRuns
  import X = Exchange

  predicate IsHello(payload: seq<byte>, h: Hello) {
    |h.entries| <= 1_000_000 && payload == HelloBytes(h)
  }

  ghost predicate SomeHello(payload: seq<byte>) {
    exists h :: IsHello(payload, h)
  }

  lemma HelloIsParsed(payload: seq<byte>)
    ensures ParseHello(payload).Some? <==> SomeHello(payload)
    ensures forall h :: IsHello(payload, h) <==> ParseHello(payload) == Some(h)
  {
    HelloOfParse(payload);
    forall h | IsHello(payload, h) ensures ParseHello(payload) == Some(h) { HelloRoundTrip(h); }
    hide ParseHello; hide HelloBytes;
    if ParseHello(payload).Some? { assert IsHello(payload, ParseHello(payload).value); }
  }

  /** A step that lets the peer in, with the one byte 0. */
  predicate Accepts(s': Session, reaction: Reaction) {
    s'.state == Ready && !s'.terminated && reaction == Reaction(OutHandshake([0]), Some(BecameReady))
  }

  /** A step that turns the peer away, with one byte that says why. */
  predicate Refuses(s': Session, reaction: Reaction, code: byte, failure: HandshakeFailure) {
    && s'.state == Closed && s'.terminated
    && reaction == Reaction(OutHandshake([code]), Some(HandshakeFailed(failure)))
  }

  /** A server that waits for a hello. */
  predicate AwaitsHello(s: Session) {
    s.role.Server? && s.state == Handshaking && !s.hasAsked && !s.terminated
  }

  lemma HelloStep(s: Session, payload: seq<byte>, now: nat)
    requires AwaitsHello(s)
    ensures OnFrame(s, Handshake(payload), now) == ServerHello(s.(lastActivityMs := now, probing := false), payload)
  {
    X.HelloIsRouted(s, payload, now);
  }

  /** A server answers a payload with 1 for every hello of another version than 2 and for
      nothing else, and with 3 whatever is no hello. */
  lemma WrongVersionIsRefused(s: Session, payload: seq<byte>, now: nat)
    requires AwaitsHello(s)
    ensures var (s', reaction) := OnFrame(s, Handshake(payload), now);
      && (forall h | IsHello(payload, h) && h.version != 2 :: Refuses(s', reaction, 1, FailWrongVersion))
      && (reaction.event == Some(HandshakeFailed(FailWrongVersion)) ==>
            exists h :: IsHello(payload, h) && h.version != 2)
      && (reaction.out == OutHandshake([1]) ==> exists h :: IsHello(payload, h) && h.version != 2)
      && (!SomeHello(payload) ==> Refuses(s', reaction, 3, FailMalformedHello))
  {
    HelloStep(s, payload, now);
    HelloIsParsed(payload);
    var parsed := ParseHello(payload);
    if parsed.Some? && parsed.value.version == 2 {
      DecisionIsNoVersion(s.schema, parsed.value);
    }
    hide OnFrame; hide ParseHello; hide Decide; hide QueryBytes; hide HelloBytes;
    if parsed.Some? { assert IsHello(payload, parsed.value); }
  }

  lemma DecisionIsNoVersion(local: Schema, hello: Hello)
    ensures var d := Decide(local, hello, |local.messages|);
      && d != Reject(VWrongVersion) && d != Reject(VAccept)
      && (d.Query? ==> |QueryBytes(d.items)| != 1)
  {
    RestIsNoVersion(local.messages, hello.entries, [], |local.messages|);
    hide DecideRest;
  }

  lemma {:induction false} RestIsNoVersion(messages: seq<MessageSchema>, rest: seq<HelloEntry>, asked: seq<QueryItem>,
                                           cap: nat)
    ensures var d := DecideRest(messages, rest, asked, cap);
      d.Reject? ==> d.verdict == VSchemaConflict || d.verdict == VMalformedHello
  {
    if rest != [] {
      hide CheckEntry;
      match CheckEntry(messages, rest[0])
      case Agrees => RestIsNoVersion(messages, rest[1..], asked, cap);
      case Conflicts =>
      case NeedsPrefix(count) =>
        if |asked| < cap { RestIsNoVersion(messages, rest[1..], asked + [QueryItem(rest[0].id, count)], cap); }
    }
  }

  // ---- Any table at all --------------------------------------------------------

  /** Before any conflict, the first `k` lines leave more open than the cap. */
  ghost predicate Overasks(messages: seq<MessageSchema>, entries: seq<HelloEntry>, cap: nat) {
    exists k | 0 <= k <= |entries| ::
      !N.HasConflict(messages, entries[..k]) && |N.Needs(messages, entries[..k])| > cap
  }

  lemma {:induction false} NeedsPush(messages: seq<MessageSchema>, entries: seq<HelloEntry>, e: HelloEntry)
    ensures N.Needs(messages, entries + [e]) == N.Needs(messages, entries)
      + (match CheckEntry(messages, e) case NeedsPrefix(count) => [QueryItem(e.id, count)] case _ => [])
  {
    hide CheckEntry;
    if entries == [] {
      assert [] + [e] == [e] && [e][1..] == [];
    } else {
      NeedsPush(messages, entries[1..], e);
      assert (entries + [e])[1..] == entries[1..] + [e];
    }
  }

  lemma ConflictPush(messages: seq<MessageSchema>, entries: seq<HelloEntry>, e: HelloEntry)
    ensures N.HasConflict(messages, entries + [e])
       <==> N.HasConflict(messages, entries) || CheckEntry(messages, e).Conflicts?
  {
    hide CheckEntry;
    assert forall x :: x in entries + [e] <==> x in entries || x == e;
  }

  lemma NeedsGrow(messages: seq<MessageSchema>, entries: seq<HelloEntry>, k: nat)
    requires k <= |entries|
    ensures |N.Needs(messages, entries[..k])| <= |N.Needs(messages, entries)|
    decreases |entries| - k
  {
    if k < |entries| {
      NeedsPush(messages, entries[..k], entries[k]);
      assert entries[..k + 1] == entries[..k] + [entries[k]];
      NeedsGrow(messages, entries, k + 1);
    } else {
      assert entries[..k] == entries;
    }
  }

  /** The rest of the table decides as the whole does, from any line on. */
  lemma {:induction false} DecideFrom(messages: seq<MessageSchema>, entries: seq<HelloEntry>, at: nat, cap: nat)
    requires at <= |entries|
    requires !N.HasConflict(messages, entries[..at]) && |N.Needs(messages, entries[..at])| <= cap
    ensures DecideRest(messages, entries[at..], N.Needs(messages, entries[..at]), cap)
         == Decided(messages, entries, cap)
    decreases |entries| - at
  {
    hide CheckEntry; hide N.Needs; hide N.HasConflict;
    var asked := N.Needs(messages, entries[..at]);
    if at == |entries| {
      assert entries[..at] == entries;
      if Overasks(messages, entries, cap) {
        var k :| 0 <= k <= |entries| && !N.HasConflict(messages, entries[..k])
                 && |N.Needs(messages, entries[..k])| > cap;
        NeedsGrow(messages, entries, k);
      }
    } else {
      var e := entries[at];
      assert entries[at..][0] == e && entries[at..][1..] == entries[at + 1..];
      assert entries[..at + 1] == entries[..at] + [e];
      NeedsPush(messages, entries[..at], e);
      ConflictPush(messages, entries[..at], e);
      match CheckEntry(messages, e)
      case Agrees =>
        assert N.Needs(messages, entries[..at + 1]) == asked;
        DecideFrom(messages, entries, at + 1, cap);
      case Conflicts =>
        ConflictStays(messages, entries, at + 1);
        if Overasks(messages, entries, cap) { ConflictFirst(messages, entries, at, cap); }
      case NeedsPrefix(count) =>
        if |asked| < cap {
          DecideFrom(messages, entries, at + 1, cap);
        } else {
          assert |N.Needs(messages, entries[..at + 1])| > cap;
          assert Overasks(messages, entries, cap);
        }
    }
  }

  lemma ConflictStays(messages: seq<MessageSchema>, entries: seq<HelloEntry>, at: nat)
    requires at <= |entries| && N.HasConflict(messages, entries[..at])
    ensures forall k | at <= k <= |entries| :: N.HasConflict(messages, entries[..k])
    ensures N.HasConflict(messages, entries)
  {
    hide CheckEntry;
    var e :| e in entries[..at] && CheckEntry(messages, e).Conflicts?;
    forall k | at <= k <= |entries| ensures e in entries[..k] {
      assert entries[..at] == entries[..k][..at];
    }
  }

  /** With a conflict at line `at` and few questions before it, none are too many. */
  lemma ConflictFirst(messages: seq<MessageSchema>, entries: seq<HelloEntry>, at: nat, cap: nat)
    requires at < |entries| && N.HasConflict(messages, entries[..at + 1])
    requires |N.Needs(messages, entries[..at])| <= cap
    ensures !Overasks(messages, entries, cap)
  {
    hide N.Needs; hide N.HasConflict;
    ConflictStays(messages, entries, at + 1);
    forall k | 0 <= k <= |entries| && |N.Needs(messages, entries[..k])| > cap
      ensures N.HasConflict(messages, entries[..k])
    {
      if k <= at {
        assert entries[..at][..k] == entries[..k];
        NeedsGrow(messages, entries[..at], k);
      }
    }
  }

  /** What a table of lines leads to, in whatever order and with whatever repetitions. */
  ghost function Decided(messages: seq<MessageSchema>, entries: seq<HelloEntry>, cap: nat): Decision {
    if Overasks(messages, entries, cap) then Reject(VMalformedHello)
    else if N.HasConflict(messages, entries) then Reject(VSchemaConflict)
    else if N.Needs(messages, entries) == [] then Accept
    else Query(N.Needs(messages, entries))
  }

  /** A server that hears a hello of version 2, from whatever client: it lets in whoever has
      its own schema; otherwise it answers 3 to a table that leaves more open than it has
      messages, 2 to one with a conflict, lets in one that leaves nothing open, and asks
      exactly what is open. */
  lemma ServerJudgesHello(s: Session, h: Hello, now: nat)
    requires AwaitsHello(s) && |h.entries| <= 1_000_000 && h.version == 2
    ensures var (s', reaction) := OnFrame(s, Handshake(HelloBytes(h)), now);
      var d := Decided(s.schema.messages, h.entries, |s.schema.messages|);
      if h.fingerprint == s.schema.fingerprint || d.Accept? then Accepts(s', reaction)
      else if d == Reject(VMalformedHello) then Refuses(s', reaction, 3, FailMalformedHello)
      else if d == Reject(VSchemaConflict) then Refuses(s', reaction, 2, FailSchemaConflict)
      else
        && d.Query? && d.items == N.Needs(s.schema.messages, h.entries) != []
        && s'.state == Handshaking && !s'.terminated && s'.hasAsked && s'.asked == d.items
        && reaction == Reaction(Printed(s.schema, QueryBytes(d.items)), None)
  {
    HelloStep(s, HelloBytes(h), now);
    HelloRoundTrip(h);
    DecideFrom(s.schema.messages, h.entries, 0, |s.schema.messages|);
    assert h.entries[0..] == h.entries && h.entries[..0] == [];
    hide OnFrame; hide ParseHello; hide DecideRest; hide QueryBytes; hide HelloBytes; hide N.HasConflict; hide N.Needs;
    hide Printed; hide Overasks;
  }

  // ---- The reply ---------------------------------------------------------------

  /** The reply answers the question at `i` with the fingerprint the server has. */
  predicate AnswersRight(s: Session, reply: seq<ReplyItem>, i: nat)
    requires i < |reply| && i < |s.asked|
  {
    reply[i].id == s.asked[i].id && Expected(s.schema.messages, s.asked[i]) == Some(reply[i].fingerprint)
  }

  /** The payload is a reply to every question, in their order, right up to `k`. */
  predicate IsReply(s: Session, payload: seq<byte>, reply: seq<ReplyItem>, k: nat) {
    && |reply| == |s.asked| && |reply| <= |s.schema.messages| && |reply| <= 1_000_000 && k <= |reply|
    && payload == ReplyBytes(reply)
    && forall i | 0 <= i < k :: AnswersRight(s, reply, i)
  }

  /** The answer at `k` names the right message and is the first not to be right. */
  predicate FirstWrong(s: Session, reply: seq<ReplyItem>, k: nat) {
    && k < |reply| == |s.asked| && reply[k].id == s.asked[k].id && !AnswersRight(s, reply, k)
    && forall i | 0 <= i < k :: AnswersRight(s, reply, i)
  }

  ghost predicate RightReply(s: Session, payload: seq<byte>) {
    exists reply :: IsReply(s, payload, reply, |s.asked|)
  }

  /** Right up to a question that is answered, but with another fingerprint. */
  ghost predicate WrongReply(s: Session, payload: seq<byte>) {
    exists reply: seq<ReplyItem>, k: nat :: IsReply(s, payload, reply, k) && FirstWrong(s, reply, k)
  }

  lemma {:induction false} VerdictFrom(s: Session, reply: seq<ReplyItem>, at: nat)
    requires |reply| == |s.asked| && at <= |reply| && forall i | 0 <= i < at :: AnswersRight(s, reply, i)
    ensures var v := ReplyVerdictFrom(s.schema.messages, s.asked, reply, at);
      && (v.VAccept? <==> forall i | 0 <= i < |reply| :: AnswersRight(s, reply, i))
      && (v.VSchemaConflict? <==> exists k: nat :: FirstWrong(s, reply, k))
      && !v.VWrongVersion?
    decreases |reply| - at
  {
    hide Expected;
    if at < |reply| {
      if AnswersRight(s, reply, at) {
        VerdictFrom(s, reply, at + 1);
      } else {
        assert forall k: nat | FirstWrong(s, reply, k) :: k == at;
        if reply[at].id == s.asked[at].id { assert FirstWrong(s, reply, at); }
      }
    } else {
      assert forall k: nat :: !FirstWrong(s, reply, k);
    }
  }

  lemma ReplyIsParsed(s: Session, payload: seq<byte>)
    ensures var parsed := ParseReply(payload, |s.schema.messages|);
      && (parsed.Some? ==> |parsed.value| <= |s.schema.messages| && |parsed.value| <= 1_000_000
                           && payload == ReplyBytes(parsed.value))
      && forall reply, k :: IsReply(s, payload, reply, k) ==> parsed == Some(reply)
  {
    ReplyOfParse(payload, |s.schema.messages|);
    forall reply, k | IsReply(s, payload, reply, k) ensures ParseReply(payload, |s.schema.messages|) == Some(reply) {
      ReplyRoundTrip(reply, |s.schema.messages|);
    }
  }

  /** A server that has asked takes the next payload for the answer: it lets the peer in
      iff every question is answered right and in order, answers 2 iff the first answer
      that is not right names the right message, and 3 to everything else. It does not
      ask again. */
  lemma ServerJudgesReply(s: Session, payload: seq<byte>, now: nat)
    requires s.role.Server? && s.state == Handshaking && s.hasAsked && !s.terminated
    ensures var (s', reaction) := OnFrame(s, Handshake(payload), now);
      && !s'.hasAsked
      && (RightReply(s, payload) ==> Accepts(s', reaction))
      && (WrongReply(s, payload) ==> Refuses(s', reaction, 2, FailSchemaConflict))
      && (!RightReply(s, payload) && !WrongReply(s, payload) ==> Refuses(s', reaction, 3, FailMalformedHello))
  {
    ReplyIsParsed(s, payload);
    var parsed := ParseReply(payload, |s.schema.messages|);
    hide ParseReply; hide ReplyBytes; hide Expected; hide ReplyVerdictFrom; hide ClientHandshake; hide AnswersRight;
    if parsed.Some? && |parsed.value| == |s.asked| {
      var reply := parsed.value;
      VerdictFrom(s, reply, 0);
      var v := ReplyVerdictFrom(s.schema.messages, s.asked, reply, 0);
      if v.VAccept? { assert IsReply(s, payload, reply, |s.asked|); }
      if v.VSchemaConflict? {
        var k: nat :| FirstWrong(s, reply, k);
        assert IsReply(s, payload, reply, k);
      }
      if RightReply(s, payload) {
        var r :| IsReply(s, payload, r, |s.asked|);
        assert r == reply;
      }
      if WrongReply(s, payload) {
        var r: seq<ReplyItem>, k: nat :| IsReply(s, payload, r, k) && FirstWrong(s, r, k);
        assert r == reply;
      }
    }
  }

  // ---- The client --------------------------------------------------------------

  /** A client that gives up without a word. */
  predicate GivesUp(s': Session, reaction: Reaction, failure: HandshakeFailure) {
    s'.state == Closed && s'.terminated && reaction == Reaction(NoOut, Some(HandshakeFailed(failure)))
  }

  /** Which questions a peer can answer: those about a message it has, and a beginning of
      its fields that is neither empty nor all of them; with the fingerprint of that. */
  lemma AnswerIsExact(s: Schema, q: QueryItem)
    requires WellFormed(s)
    ensures forall k | 0 <= k < |s.messages| && s.messages[k].id == q.id ::
      AnswerItem(s.messages, q) ==
        if 0 < q.fieldCount < |s.messages[k].prefixes|
        then Some(ReplyItem(q.id, s.messages[k].prefixes[q.fieldCount - 1])) else None
    ensures (forall k | 0 <= k < |s.messages| :: s.messages[k].id != q.id) ==> AnswerItem(s.messages, q) == None
  {
    LookupMisses(s.messages, q.id);
    forall k | 0 <= k < |s.messages| && s.messages[k].id == q.id
      ensures Lookup(s.messages, q.id) == Some(s.messages[k]) && MessageWellFormed(s.messages[k])
    {
      LookupFinds(s.messages, k);
    }
    hide Lookup;
  }

  /** A question the client can answer: the first, and about beginnings of its messages. */
  ghost predicate FairQuery(s: Session, payload: seq<byte>, items: seq<QueryItem>) {
    && !s.querySeen && payload == QueryBytes(items) && |items| <= |s.schema.messages| && |items| <= 1_000_000
    && Answerable(s.schema.messages, items)
  }

  lemma FairQueryIsRead(s: Session, payload: seq<byte>, items: seq<QueryItem>)
    requires FairQuery(s, payload, items)
    ensures ParseQuery(payload, |s.schema.messages|) == Some(items) && |payload| > 0 && payload[0] == 4
  {
    QueryRoundTrip(items, |s.schema.messages|);
  }

  /** A client becomes ready iff it hears the one byte 0; on 1, 2 and 3 it reports the
      failure they stand for; it answers its first query if it can; and whatever else it
      hears, a second query among it, it reports a malformed peer. */
  lemma ClientJudges(s: Session, payload: seq<byte>, now: nat)
    requires s.role.Client? && s.state == Handshaking && !s.terminated
    ensures var (s', reaction) := OnFrame(s, Handshake(payload), now);
      && (s'.state == Ready <==> payload == [0])
      && (payload == [0] ==> !s'.terminated && reaction == Reaction(NoOut, Some(BecameReady)))
      && (payload == [1] ==> GivesUp(s', reaction, FailWrongVersion))
      && (payload == [2] ==> GivesUp(s', reaction, FailSchemaConflict))
      && (payload == [3] ==> GivesUp(s', reaction, FailMalformedHello))
      && (forall items | FairQuery(s, payload, items) ::
            && s'.state == Handshaking && s'.querySeen
            && reaction == Reaction(Printed(s.schema, ReplyBytes(Answers(s.schema.messages, items))), None))
      && (payload !in [[0], [1], [2], [3]] && (forall items :: !FairQuery(s, payload, items)) ==>
            GivesUp(s', reaction, FailMalformedPeer))
  {
    QueryOfParse(payload, |s.schema.messages|);
    hide ParseQuery; hide QueryBytes; hide ReplyBytes; hide AnswerItem; hide ServerHandshake;
    var parsed := ParseQuery(payload, |s.schema.messages|);
    if |payload| == 1 { assert payload == [payload[0]]; }
    if parsed.Some? && Answerable(s.schema.messages, parsed.value) && !s.querySeen {
      assert FairQuery(s, payload, parsed.value);
    }
    forall items | FairQuery(s, payload, items)
      ensures payload !in [[0], [1], [2], [3]]
      ensures var (s', reaction) := OnFrame(s, Handshake(payload), now);
        && s'.state == Handshaking && s'.querySeen
        && reaction == Reaction(Printed(s.schema, ReplyBytes(Answers(s.schema.messages, items))), None)
    {
      FairQueryIsRead(s, payload, items);
    }
  }

  // ---- After the handshake -----------------------------------------------------

  /** What the other frames do: a probe is acknowledged, even while handshaking, and data
      and heartbeats are reported exactly while ready; once the handshake is over its
      frames count as signs of life only, and a closed session is deaf. */
  lemma TrafficMeans(s: Session, frame: Frame, now: nat)
    requires frame.Handshake? ==> s.state != Handshaking
    ensures var (s', reaction) := OnFrame(s, frame, now);
      if s.state == Closed then s' == s && reaction == Reaction(NoOut, None)
      else
        && s' == s.(lastActivityMs := now, probing := false)
        && (reaction.out == if frame.Probe? then OutAck else NoOut)
        && reaction.event == (
             if s.state != Ready then None
             else match frame
                  case Probe => Some(ProbeSeen)
                  case Ack => Some(AckSeen)
                  case Data(id, payload) => Some(Message(id, payload))
                  case Handshake(_) => None)
  {
  }

  // ---- The exchange with another version, or with no hello ---------------------

  /** The talk between a server and a client of another version of the protocol. */
  function OpenAs(version: u32, c: Schema, s: Schema, config: Config, config': Config, now: nat): X.Talk {
    X.Open(c, s, config, config', now).(inFlight := Some(HelloBytes(HelloOf(c).(version := version))))
  }

  /** The client of the exchange speaks version 2. */
  lemma OpenIsVersionTwo(c: Schema, s: Schema, config: Config, config': Config, now: nat)
    requires WellFormed(c)
    ensures OpenAs(2, c, s, config, config', now) == X.Open(c, s, config, config', now)
  {
    R.HelloFits(c, config, now);
    hide HelloBytes;
    assert HelloOf(c).(version := 2) == HelloOf(c);
  }

  /** Where a talk has ended with the same failure at both ends. */
  predicate BothFailed(t: X.Talk, failure: HandshakeFailure) {
    && t.inFlight.None? && t.client.state == Closed && t.server.state == Closed
    && t.clientEvents == [HandshakeFailed(failure)] && t.serverEvents == [HandshakeFailed(failure)]
  }

  /** A refusal sent in answer to the first payload reaches the client and ends the talk. */
  lemma RefusalArrives(t: X.Talk, talks: seq<X.Talk>, times: seq<nat>, k: nat, code: byte, failure: HandshakeFailure)
    requires X.IsExchange(talks, times) && talks[0] == t && 2 <= k < |talks|
    requires t.inFlight.Some? && t.toServer && t.clientEvents == [] && t.serverEvents == []
    requires t.client.role.Client? && t.client.state == Handshaking && !t.client.terminated
    requires var (s', reaction) := OnFrame(t.server, Handshake(t.inFlight.value), times[0]);
      Refuses(s', reaction, code, failure)
    requires (code == 1 && failure == FailWrongVersion) || (code == 3 && failure == FailMalformedHello)
    ensures BothFailed(talks[k], failure)
  {
    hide OnFrame;
    assert talks[1] == X.Deliver(talks[0], times[0]) && talks[2] == X.Deliver(talks[1], times[1]);
    ClientJudges(t.client, [code], times[1]);
    assert talks[2].inFlight.None?;
    X.EndedStays(talks, times, 2, k);
  }

  /** A client of any version but 2 is refused for its version, and both ends say so. */
  lemma OtherVersionsAreRefused(version: u32, c: Schema, s: Schema, config: Config, config': Config, now: nat,
                                talks: seq<X.Talk>, times: seq<nat>, k: nat)
    requires WellFormed(c) && version != 2
    requires X.IsExchange(talks, times) && talks[0] == OpenAs(version, c, s, config, config', now) && 2 <= k < |talks|
    ensures BothFailed(talks[k], FailWrongVersion)
  {
    var t, h := talks[0], HelloOf(c).(version := version);
    WrongVersionIsRefused(t.server, HelloBytes(h), times[0]);
    X.Bounded(c);
    assert IsHello(HelloBytes(h), h);
    hide OnFrame; hide HelloBytes;
    RefusalArrives(t, talks, times, k, 1, FailWrongVersion);
  }

  /** A first payload that is no hello is refused as malformed, and both ends say so. */
  lemma GarbageIsRefused(garbage: seq<byte>, c: Schema, s: Schema, config: Config, config': Config, now: nat,
                         talks: seq<X.Talk>, times: seq<nat>, k: nat)
    requires !SomeHello(garbage) && X.IsExchange(talks, times) && 2 <= k < |talks|
    requires talks[0] == X.Open(c, s, config, config', now).(inFlight := Some(garbage))
    ensures BothFailed(talks[k], FailMalformedHello)
  {
    WrongVersionIsRefused(talks[0].server, garbage, times[0]);
    hide OnFrame; hide SomeHello; hide HelloBytes;
    RefusalArrives(talks[0], talks, times, k, 3, FailMalformedHello);
  }
}
