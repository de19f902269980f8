/** The session as an object: its fields and scratch tables, updated in place. */
module SessionObject {
  import opened Bytes
  import opened Frame
  import opened Schema
  import opened Handshake
  import opened Session
  import opened HandshakeBuffers

  class Machine {
    const role: Role
    const schema: Schema
    const config: Config
    var state: State
    var startedMs: nat
    var lastActivityMs: nat
    var probeSentMs: nat
    var probing: bool
    var terminated: bool
    var querySeen: bool
    var hasAsked: bool
    var askedCount: nat
    const asked: array<QueryItem>
    const queries: array<QueryItem>
    const replies: array<ReplyItem>
    const scratch: array<byte>

    ghost const Repr: set<object> := {this, asked, queries, replies, scratch}

    ghost predicate Valid()
      reads this
    {
      && WellFormed(schema)
      && asked != queries
      && asked.Length >= |schema.messages| && queries.Length >= |schema.messages|
      && replies.Length >= |schema.messages|
      && scratch.Length == ScratchCap(schema)
      && askedCount <= asked.Length
    }

    ghost function View(): Session
      requires Valid()
      reads this, asked
    {
      Session(role, schema, config, state, startedMs, lastActivityMs, probeSentMs, probing,
              terminated, querySeen, hasAsked, asked[..askedCount])
    }

    constructor (role: Role, schema: Schema, config: Config, now: nat)
      requires WellFormed(schema)
      ensures Valid() && View() == Create(role, schema, config, now).0 && fresh(Repr)
      ensures this.role == role && this.schema == schema && this.config == config && startedMs == now
    {
      var slots := Max(|schema.messages|, 1);
      this.role, this.schema, this.config := role, schema, config;
      state, terminated, probing, querySeen, hasAsked := Handshaking, false, false, false, false;
      startedMs, lastActivityMs, probeSentMs, askedCount := now, now, now, 0;
      scratch := new byte[ScratchCap(schema)](_ => 0);
      asked := new QueryItem[slots](_ => QueryItem(0, 0));
      queries := new QueryItem[slots](_ => QueryItem(0, 0));
      replies := new ReplyItem[slots](_ => ReplyItem(0, 0));
    }

    /** The client's first payload. */
    method Opening() returns (reaction: Reaction)
      requires Valid()
      modifies scratch
      ensures Valid() && View() == old(View())
      ensures reaction == Create(role, schema, config, startedMs).1
    {
      if role == Server { return SILENCE; }
      var written := HelloEncode(schema, scratch);
      HelloRoundTrip(HelloOf(schema));
      reaction := Reaction(OutHandshake(scratch[..written]), None);
    }

    method CloseNow()
      requires Valid()
      modifies this
      ensures Valid() && View() == Close(old(View()))
    {
      state, terminated := Closed, true;
    }

    method PutVerdict(verdict: Verdict) returns (out: Out)
      requires Valid()
      modifies scratch
      ensures Valid() && View() == old(View()) && out == OutHandshake([VerdictByte(verdict)])
    {
      scratch[0] := VerdictByte(verdict);
      assert scratch[..1] == [VerdictByte(verdict)];
      out := OutHandshake(scratch[..1]);
    }

    method Accept() returns (reaction: Reaction)
      requires Valid()
      modifies this`state, scratch
      ensures Valid() && (View(), reaction) == AcceptPeer(old(View()))
    {
      state := Ready;
      var out := PutVerdict(VAccept);
      reaction := Reaction(out, Some(BecameReady));
    }

    method Refuse(verdict: Verdict) returns (reaction: Reaction)
      requires Valid()
      modifies this`state, this`terminated, scratch
      ensures Valid() && (View(), reaction) == RejectPeer(old(View()), verdict)
    {
      state, terminated := Closed, true;
      var out := PutVerdict(verdict);
      reaction := Reaction(out, Some(HandshakeFailed(FailureOf(verdict))));
    }

    method Fail(failure: HandshakeFailure) returns (reaction: Reaction)
      requires Valid()
      modifies this`state, this`terminated
      ensures Valid() && (View(), reaction) == FailLocally(old(View()), failure)
    {
      state, terminated := Closed, true;
      reaction := Reaction(NoOut, Some(HandshakeFailed(failure)));
    }

    method AnswerQuery(payload: seq<byte>) returns (reaction: Reaction)
      requires Valid()
      modifies this`state, this`terminated, this`querySeen, queries, replies, scratch
      ensures Valid() && (View(), reaction) == ClientQuery(old(View()), payload)
    {
      hide ParseQuery; hide Answers; hide Answerable; hide ReplyBytes; hide QueryBytes;
      if querySeen {
        reaction := Fail(FailMalformedPeer);
        return;
      }
      querySeen := true;
      var count := QueryDecode(payload, queries, |schema.messages|);
      if count.None? {
        reaction := Fail(FailMalformedPeer);
        return;
      }
      var items := queries[..count.value];
      var ok := QueryAnswer(schema, items, replies);
      if !ok {
        reaction := Fail(FailMalformedPeer);
        return;
      }
      var answers := replies[..count.value];
      var written := ReplyEncode(answers, scratch);
      ReplyRoundTripLength(answers);
      reaction := Reaction(OutHandshake(scratch[..written]), None);
    }

    method HearAsClient(payload: seq<byte>) returns (reaction: Reaction)
      requires Valid()
      modifies this`state, this`terminated, this`querySeen, queries, replies, scratch
      ensures Valid() && (View(), reaction) == ClientHandshake(old(View()), payload)
    {
      hide ClientQuery;
      if |payload| > 0 && payload[0] == QUERY_TAG {
        reaction := AnswerQuery(payload);
        return;
      }
      if |payload| != 1 || payload[0] > 3 {
        reaction := Fail(FailMalformedPeer);
        return;
      }
      if payload[0] == VerdictByte(VAccept) {
        state := Ready;
        return Reaction(NoOut, Some(BecameReady));
      }
      reaction := Fail(FailureOf(VerdictOfByte(payload[0])));
    }

    method JudgeReply(payload: seq<byte>) returns (reaction: Reaction)
      requires Valid()
      modifies this`state, this`terminated, this`hasAsked, replies, scratch
      ensures Valid() && (View(), reaction) == ServerReply(old(View()), payload)
    {
      hide ParseReply; hide ReplyVerdict;
      hasAsked := false;
      var count := ReplyDecode(payload, replies, |schema.messages|);
      if count.None? {
        reaction := Refuse(VMalformedHello);
        return;
      }
      var verdict := ReplyCheck(schema, asked[..askedCount], replies[..count.value]);
      if verdict == VAccept {
        reaction := Accept();
      } else {
        reaction := Refuse(verdict);
      }
    }

    method JudgeHello(payload: seq<byte>) returns (reaction: Reaction)
      requires Valid()
      modifies this`state, this`terminated, this`hasAsked, this`askedCount, asked, queries, scratch
      ensures Valid() && (View(), reaction) == ServerHello(old(View()), payload)
    {
      hide ParseHello; hide DecideRest; hide QueryBytes;
      var hello := ParseHello(payload);
      if hello.None? {
        reaction := Refuse(VMalformedHello);
        return;
      }
      if hello.value.version != PROTOCOL_VERSION {
        reaction := Refuse(VWrongVersion);
        return;
      }
      var decision := HandshakeDecide(schema, hello.value, queries, |schema.messages|);
      match decision
      case Accept => reaction := Accept();
      case Reject(verdict) => reaction := Refuse(verdict);
      case Query(items) => reaction := Ask(items);
    }

    /** Remembers what is asked - the first entries of `queries` - and prints it. */
    method Ask(items: seq<QueryItem>) returns (reaction: Reaction)
      requires Valid() && |items| <= |schema.messages| && queries[..|items|] == items
      modifies this`hasAsked, this`askedCount, asked, scratch
      ensures Valid() && View() == old(View()).(asked := items, hasAsked := true)
      ensures reaction == Reaction(Printed(schema, QueryBytes(items)), None)
    {
      hide QueryBytes;
      forall i | 0 <= i < |items| { asked[i] := queries[i]; }
      askedCount, hasAsked := |items|, true;
      assert asked[..askedCount] == items;
      var written := QueryEncode(items, scratch);
      QueryRoundTripLength(items);
      reaction := Reaction(OutHandshake(scratch[..written]), None);
    }

    method HearFrame(frame: Frame, now: nat) returns (reaction: Reaction)
      requires Valid()
      modifies Repr
      ensures Valid() && (View(), reaction) == OnFrame(old(View()), frame, now)
    {
      hide ClientHandshake; hide ServerReply; hide ServerHello;
      if state == Closed { return SILENCE; }
      lastActivityMs := now;
      probing := false;
      match frame
      case Probe => return Reaction(OutAck, if state == Ready then Some(ProbeSeen) else None);
      case Ack => return Reaction(NoOut, if state == Ready then Some(AckSeen) else None);
      case Data(id, payload) =>
        return Reaction(NoOut, if state == Ready then Some(Message(id, payload)) else None);
      case Handshake(payload) =>
        if state != Handshaking { return SILENCE; }
        if role == Client {
          reaction := HearAsClient(payload);
        } else if hasAsked {
          reaction := JudgeReply(payload);
        } else {
          reaction := JudgeHello(payload);
        }
    }

    method TickAt(now: nat) returns (reaction: Reaction)
      requires Valid()
      modifies this
      ensures Valid() && (View(), reaction) == Tick(old(View()), now)
    {
      if state == Closed { return SILENCE; }
      if role == Client && state == Handshaking {
        if Since(now, startedMs) >= config.handshakeTimeoutMs {
          reaction := Fail(FailTimeout);
          return;
        }
        return SILENCE;
      }
      if probing {
        if Since(now, probeSentMs) >= config.heartbeatTimeoutMs {
          state, terminated := Closed, true;
          return Reaction(NoOut, Some(Disconnected(Unresponsive)));
        }
        return SILENCE;
      }
      var silenceMs := if role == Server && state == Handshaking then config.handshakeTimeoutMs
                       else config.heartbeatIntervalMs;
      if Since(now, lastActivityMs) >= silenceMs {
        probing, probeSentMs := true, now;
        return Reaction(OutProbe, None);
      }
      return SILENCE;
    }

    method LoseTransport(reason: Disconnect) returns (reaction: Reaction)
      requires Valid()
      modifies this
      ensures Valid() && (View(), reaction) == TransportClosed(old(View()), reason)
    {
      state := Closed;
      if terminated { return SILENCE; }
      terminated := true;
      return Reaction(NoOut, Some(Disconnected(reason)));
    }
  }

  lemma ReplyRoundTripLength(items: seq<ReplyItem>)
    ensures |ReplyBytes(items)| == REPLY_HEADER_LEN + REPLY_ENTRY_LEN * |items|
  {
    RowsLength(items, ReplyRow, REPLY_ENTRY_LEN);
  }

  lemma QueryRoundTripLength(items: seq<QueryItem>)
    ensures |QueryBytes(items)| == QUERY_HEADER_LEN + QUERY_ENTRY_LEN * |items|
  {
    RowsLength(items, QueryRow, QUERY_ENTRY_LEN);
  }
}
