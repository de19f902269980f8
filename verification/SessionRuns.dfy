/** What holds over every run of a session, whatever the peer sends. */
module SessionRuns {
  import opened Bytes
  import opened Frame
  import opened Schema
  import opened Handshake
  import opened Session

  datatype Input = Hear(frame: Frame, now: nat) | Pass(now: nat) | Lose(reason: Disconnect) | Shut

  function Respond(s: Session, input: Input): (Session, Reaction) {
    match input
    case Hear(frame, now) => OnFrame(s, frame, now)
    case Pass(now) => Tick(s, now)
    case Lose(reason) => TransportClosed(s, reason)
    case Shut => (Close(s), SILENCE)
  }

  function After(start: Session, inputs: seq<Input>): Session {
    if inputs == [] then start
    else Respond(After(start, inputs[..|inputs| - 1]), inputs[|inputs| - 1]).0
  }

  /** The reaction to the last input of a run. */
  function LastReaction(start: Session, inputs: seq<Input>): Reaction
    requires inputs != []
  {
    Respond(After(start, inputs[..|inputs| - 1]), inputs[|inputs| - 1]).1
  }

  function Rank(state: State): nat {
    match state case Handshaking => 0 case Ready => 1 case Closed => 2
  }

  /** Kept by every step: `terminated` means closed, and what was asked never
      exceeds the schema. */
  predicate Valid(s: Session) {
    && (s.terminated <==> s.state == Closed)
    && |s.asked| <= |s.schema.messages|
  }

  lemma {:induction false} QueryWithinCap(messages: seq<MessageSchema>, rest: seq<HelloEntry>,
                                          asked: seq<QueryItem>, cap: nat)
    requires |asked| <= cap
    ensures var d := DecideRest(messages, rest, asked, cap); d.Query? ==> 0 < |d.items| <= cap
  {
    if rest != [] {
      hide CheckEntry;
      match CheckEntry(messages, rest[0])
      case Agrees => QueryWithinCap(messages, rest[1..], asked, cap);
      case Conflicts =>
      case NeedsPrefix(count) =>
        if |asked| < cap {
          QueryWithinCap(messages, rest[1..], asked + [QueryItem(rest[0].id, count)], cap);
        }
    }
  }

  predicate Forward(s: Session, s': Session) {
    && s'.role == s.role && s'.schema == s.schema && s'.config == s.config
    && Rank(s.state) <= Rank(s'.state)
  }

  /** A handshake payload moves the state forward and leaves the clocks alone. */
  predicate HandshakeForward(s: Session, s': Session) {
    && Forward(s, s') && (s'.terminated == s.terminated || (s'.terminated && s'.state == Closed))
    && (s'.state == Closed ==> s'.terminated)
    && s'.lastActivityMs == s.lastActivityMs && s'.startedMs == s.startedMs
    && s'.probing == s.probing && s'.probeSentMs == s.probeSentMs
    && (s'.asked == s.asked || |s'.asked| <= |s.schema.messages|)
  }

  lemma ServerIsForward(s: Session, payload: seq<byte>)
    requires s.state == Handshaking
    ensures HandshakeForward(s, ServerHandshake(s, payload).0)
  {
    hide ParseHello; hide ParseReply; hide ReplyVerdict; hide QueryBytes; hide Printed; hide Decide;
    if !s.hasAsked && ParseHello(payload).Some? {
      DecisionWithinCap(s.schema, ParseHello(payload).value);
    }
  }

  lemma DecisionWithinCap(s: Schema, hello: Hello)
    ensures var d := Decide(s, hello, |s.messages|); d.Query? ==> 0 < |d.items| <= |s.messages|
  {
    hide DecideRest;
    QueryWithinCap(s.messages, hello.entries, [], |s.messages|);
  }

  lemma ClientIsForward(s: Session, payload: seq<byte>)
    requires s.state == Handshaking
    ensures HandshakeForward(s, ClientHandshake(s, payload).0)
  {
    hide ParseQuery; hide ReplyBytes; hide Answers; hide Answerable; hide Printed;
  }

  lemma HandshakeIsForward(s: Session, payload: seq<byte>)
    requires s.state == Handshaking
    ensures HandshakeForward(s, ServerHandshake(s, payload).0)
    ensures HandshakeForward(s, ClientHandshake(s, payload).0)
  {
    hide *;
    ServerIsForward(s, payload);
    ClientIsForward(s, payload);
  }

  /** A step keeps the session valid, keeps its identity, and moves its state only
      forward. */
  lemma StepIsForward(s: Session, input: Input)
    requires Valid(s)
    ensures Valid(Respond(s, input).0) && Forward(s, Respond(s, input).0)
  {
    hide ClientHandshake; hide ServerHandshake;
    if input.Hear? && input.frame.Handshake? && s.state == Handshaking {
      HandshakeIsForward(s.(lastActivityMs := input.now, probing := false), input.frame.payload);
    }
  }

  lemma {:induction false} RunIsForward(start: Session, inputs: seq<Input>, cut: nat)
    requires Valid(start) && cut <= |inputs|
    ensures var early, late := After(start, inputs[..cut]), After(start, inputs);
      Valid(early) && Valid(late) && Forward(start, late) && Forward(early, late)
  {
    if inputs == [] {
      assert inputs[..cut] == inputs;
    } else {
      var before := inputs[..|inputs| - 1];
      if cut < |inputs| {
        RunIsForward(start, before, cut);
        assert before[..cut] == inputs[..cut];
      } else {
        RunIsForward(start, before, |before|);
        assert before[..|before|] == before && inputs[..cut] == inputs;
      }
      hide Respond;
      StepIsForward(After(start, before), inputs[|inputs| - 1]);
    }
  }

  // ---- Room --------------------------------------------------------------------

  /** Every handshake payload a session sends - hello, query, reply or verdict - is
      complete, is no longer than its hello, and so fits every buffer sized for it. */
  lemma PayloadsFit(s: Session, input: Input)
    requires Valid(s) && WellFormed(s.schema)
    ensures var out := Respond(s, input).1.out;
      out.OutHandshake? ==> 0 < |out.payload| <= HelloLen(s.schema) <= ScratchCap(s.schema)
  {
    if input.Hear? && input.frame.Handshake? && s.state == Handshaking {
      var heard := s.(lastActivityMs := input.now, probing := false);
      ServerPayloadFits(heard, input.frame.payload);
      ClientPayloadFits(heard, input.frame.payload);
    }
    hide ClientHandshake; hide ServerHandshake;
  }

  lemma ClientPayloadFits(s: Session, payload: seq<byte>)
    ensures var out := ClientHandshake(s, payload).1.out;
      out.OutHandshake? ==> 0 < |out.payload| <= HelloLen(s.schema) <= ScratchCap(s.schema)
  {
    var items := ParseQuery(payload, |s.schema.messages|);
    if items.Some? && Answerable(s.schema.messages, items.value) {
      ReplyRoundTrip(Answers(s.schema.messages, items.value), |items.value|);
    }
    hide ReplyBytes; hide Answers; hide Answerable;
  }

  lemma ServerPayloadFits(s: Session, payload: seq<byte>)
    requires WellFormed(s.schema)
    ensures var out := ServerHandshake(s, payload).1.out;
      out.OutHandshake? ==> 0 < |out.payload| <= HelloLen(s.schema) <= ScratchCap(s.schema)
  {
    hide ParseHello; hide ParseReply; hide ReplyVerdict; hide Decide; hide QueryBytes;
    if !s.hasAsked && ParseHello(payload).Some? {
      var d := Decide(s.schema, ParseHello(payload).value, |s.schema.messages|);
      DecisionWithinCap(s.schema, ParseHello(payload).value);
      if d.Query? { QueryRoundTrip(d.items, |d.items|); }
    }
  }

  lemma HelloFits(schema: Schema, config: Config, now: nat)
    requires WellFormed(schema)
    ensures Create(Client, schema, config, now).1.out == OutHandshake(HelloBytes(HelloOf(schema)))
    ensures |HelloBytes(HelloOf(schema))| == HelloLen(schema)
  {
    HelloRoundTrip(HelloOf(schema));
  }

  // ---- The handshake ends ------------------------------------------------------

  /** How many more handshake frames a session will put up with. */
  function Patience(s: Session): nat {
    if s.state != Handshaking then 0
    else if (if s.role.Client? then s.querySeen else s.hasAsked) then 1 else 2
  }

  /** A query or a reply, as opposed to a verdict. */
  predicate IsRound(reaction: Reaction) {
    reaction.out.OutHandshake? && reaction.event.None?
  }

  lemma StepSpendsPatience(s: Session, input: Input)
    requires Valid(s)
    ensures var (s', reaction) := Respond(s, input);
      && (input.Hear? && input.frame.Handshake? && s.state == Handshaking ==> Patience(s') < Patience(s))
      && (IsRound(reaction) ==> Patience(s) == 2 && Patience(s') == 1)
      && Patience(s') <= Patience(s)
  {
    hide ParseHello; hide ParseQuery; hide ParseReply; hide Decide; hide ReplyVerdict;
    hide ReplyBytes; hide QueryBytes; hide Answers;
  }

  /** Handshake frames met while handshaking, and rounds sent, over a run. */
  function HandshakeFrames(start: Session, inputs: seq<Input>): nat {
    if inputs == [] then 0
    else
      var before, last := inputs[..|inputs| - 1], inputs[|inputs| - 1];
      HandshakeFrames(start, before)
      + if last.Hear? && last.frame.Handshake? && After(start, before).state == Handshaking then 1 else 0
  }

  function Rounds(start: Session, inputs: seq<Input>): nat {
    if inputs == [] then 0
    else Rounds(start, inputs[..|inputs| - 1]) + if IsRound(LastReaction(start, inputs)) then 1 else 0
  }

  /** Against arbitrary traffic, a session leaves the handshake within two handshake
      frames and sends at most one query or reply. */
  lemma {:induction false} HandshakeTerminates(role: Role, schema: Schema, config: Config, now: nat, inputs: seq<Input>)
    ensures var start := Create(role, schema, config, now).0;
      && HandshakeFrames(start, inputs) + Patience(After(start, inputs)) <= 2
      && Rounds(start, inputs) + Patience(After(start, inputs)) <= 2
      && Rounds(start, inputs) <= 1
      && (HandshakeFrames(start, inputs) == 2 ==> After(start, inputs).state != Handshaking)
  {
    var start := Create(role, schema, config, now).0;
    if inputs != [] {
      var before := inputs[..|inputs| - 1];
      HandshakeTerminates(role, schema, config, now, before);
      RunIsForward(start, before, |before|);
      assert before[..|before|] == before;
      hide Respond;
      StepSpendsPatience(After(start, before), inputs[|inputs| - 1]);
    }
  }
}
