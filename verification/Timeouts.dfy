/** What a tick does, told by what was heard and said before it: exactly when it probes,
    when it gives up on a silent peer, and when a client gives up its handshake. */
module Timeouts {
  import opened Bytes
  import opened Frame
  import opened Schema
  import opened Handshake
  import opened Session
  import opened SessionRuns
  import T = SessionTiming

  /** When the peer was last heard, or the session began, and when it was probed since. */
  datatype Watch = Watch(heard: nat, probed: Option<nat>)

  /** The watch at the end of a run, kept from outside. */
  function Watched(start: Session, begun: nat, inputs: seq<Input>): Watch {
    if inputs == [] then Watch(begun, None)
    else
      var watch := Watched(start, begun, inputs[..|inputs| - 1]);
      match inputs[|inputs| - 1]
      case Hear(_, now) => Watch(now, None)
      case Pass(now) => if LastReaction(start, inputs).out == OutProbe then watch.(probed := Some(now)) else watch
      case _ => watch
  }

  /** The fields of an open session are the watch. */
  predicate Keeps(s: Session, begun: nat, watch: Watch) {
    s.state != Closed ==>
      && s.startedMs == begun && s.lastActivityMs == watch.heard
      && (s.probing <==> watch.probed.Some?) && (s.probing ==> s.probeSentMs == watch.probed.value)
  }

  lemma StepKeepsWatch(s: Session, input: Input, begun: nat, watch: Watch)
    requires Keeps(s, begun, watch)
    ensures Keeps(Respond(s, input).0, begun,
      match input
      case Hear(_, now) => Watch(now, None)
      case Pass(now) => if Respond(s, input).1.out == OutProbe then watch.(probed := Some(now)) else watch
      case _ => watch)
  {
    if input.Hear? && input.frame.Handshake? && s.state == Handshaking {
      HandshakeIsForward(s.(lastActivityMs := input.now, probing := false), input.frame.payload);
    }
    hide ClientHandshake; hide ServerHandshake;
  }

  lemma {:induction false} RunKeepsWatch(role: Role, schema: Schema, config: Config, begun: nat, inputs: seq<Input>)
    ensures var start := Create(role, schema, config, begun).0; var s := After(start, inputs);
      Keeps(s, begun, Watched(start, begun, inputs)) && s.config == config && s.role == role
  {
    var start := Create(role, schema, config, begun).0;
    RunIsForward(start, inputs, |inputs|);
    if inputs != [] {
      RunKeepsWatch(role, schema, config, begun, inputs[..|inputs| - 1]);
      hide Respond; hide Keeps;
      StepKeepsWatch(After(start, inputs[..|inputs| - 1]), inputs[|inputs| - 1], begun,
                     Watched(start, begun, inputs[..|inputs| - 1]));
    }
  }

  /** A span that is over, also when the clock has been turned back and the span is nil. */
  predicate Over(now: nat, since: nat, span: nat) {
    now >= since + span || span == 0
  }

  /** At any moment of any run: a tick ends a client's handshake with a timeout iff that
      is still going on and its time is over; otherwise it calls the peer unresponsive
      iff a probe has gone unanswered for the heartbeat timeout, and probes iff none is
      out and the peer has been silent for the window: the handshake timeout for a server
      that is handshaking, else the heartbeat interval. It does nothing else. */
  lemma TickIsExact(role: Role, schema: Schema, config: Config, begun: nat, inputs: seq<Input>, now: nat)
    ensures var start := Create(role, schema, config, begun).0;
      var s, watch := After(start, inputs), Watched(start, begun, inputs);
      var (s', reaction) := Respond(s, Pass(now));
      var first := role.Client? && s.state == Handshaking;
      var open := s.state != Closed && !first;
      var window := if role.Server? && s.state == Handshaking then config.handshakeTimeoutMs
                    else config.heartbeatIntervalMs;
      var expired := first && Over(now, begun, config.handshakeTimeoutMs);
      var lost := open && watch.probed.Some? && Over(now, watch.probed.value, config.heartbeatTimeoutMs);
      var due := open && watch.probed.None? && Over(now, watch.heard, window);
      && reaction.event == (if expired then Some(HandshakeFailed(FailTimeout))
                            else if lost then Some(Disconnected(Unresponsive)) else None)
      && reaction.out == (if due then OutProbe else NoOut)
      && s'.state == (if expired || lost then Closed else s.state)
  {
    RunKeepsWatch(role, schema, config, begun, inputs);
    hide After; hide Watched;
  }

  /** Nothing but a tick reports a timeout, and only a client's. */
  lemma OnlyTicksTimeOut(s: Session, input: Input)
    requires Respond(s, input).1.event == Some(HandshakeFailed(FailTimeout))
    ensures input.Pass? && s.role.Client? && s.state == Handshaking
  {
    hide ParseHello; hide ParseQuery; hide ParseReply; hide Decide; hide ReplyVerdict; hide Answerable;
    hide Answers; hide QueryBytes; hide ReplyBytes;
  }

  // ---- A client gives up in time -----------------------------------------------

  /** Neither a handshake frame nor the end of the transport. */
  predicate Bystander(input: Input) {
    input.Pass? || (input.Hear? && !input.frame.Handshake?)
  }

  function TickTimes(inputs: seq<Input>): seq<nat> {
    if inputs == [] then []
    else (if inputs[0].Pass? then [inputs[0].now] else []) + TickTimes(inputs[1..])
  }

  function LastTick(begun: nat, inputs: seq<Input>): nat {
    var times := TickTimes(inputs);
    if times == [] then begun else times[|times| - 1]
  }

  /** A client whose handshake goes on and whose time is not yet over at `since`. */
  predicate Hopes(s: Session, since: nat) {
    && s.role.Client? && s.state == Handshaking && !s.terminated
    && s.startedMs <= since <= s.startedMs + s.config.handshakeTimeoutMs
  }

  lemma BystandersKeepHope(s: Session, input: Input, since: nat, since': nat)
    requires Hopes(s, since) && Bystander(input)
    requires since' == (if input.Pass? then input.now else since)
    requires input.Pass? ==> since <= input.now < s.startedMs + s.config.handshakeTimeoutMs
    ensures Hopes(Respond(s, input).0, since') && Respond(s, input).1.event.None?
    ensures Respond(s, input).0.startedMs == s.startedMs && Respond(s, input).0.config == s.config
  {
  }

  /** The reaction to the `k`th of some inputs to come. */
  function Later(s: Session, inputs: seq<Input>, k: nat): Reaction
    requires k < |inputs|
    decreases k
  {
    if k == 0 then Respond(s, inputs[0]).1 else Later(Respond(s, inputs[0]).0, inputs[1..], k - 1)
  }

  /** A client that is ticked at gaps of at most `gap`, on past the handshake timeout, and
      hears frames of any kind but handshakes, reports the timeout in a tick no later than
      one gap after its time is over, and nothing before that. */
  lemma {:induction false} ClientGivesUpInTime(s: Session, since: nat, inputs: seq<Input>, gap: nat) returns (k: nat)
    requires Hopes(s, since) && T.Regular(since, TickTimes(inputs), gap)
    requires forall input | input in inputs :: Bystander(input)
    requires TickTimes(inputs) != [] && LastTick(since, inputs) >= s.startedMs + s.config.handshakeTimeoutMs
    ensures k < |inputs| && inputs[k].Pass?
    ensures s.startedMs + s.config.handshakeTimeoutMs <= inputs[k].now
         <= s.startedMs + s.config.handshakeTimeoutMs + gap
    ensures Later(s, inputs, k) == Reaction(NoOut, Some(HandshakeFailed(FailTimeout)))
    ensures forall j | 0 <= j < k :: Later(s, inputs, j).event.None?
    decreases |inputs|
  {
    var first, rest := inputs[0], inputs[1..];
    var s' := Respond(s, first).0;
    assert forall input | input in rest :: input in inputs;
    assert first in inputs && Bystander(first);
    if first.Pass? && first.now >= s.startedMs + s.config.handshakeTimeoutMs {
      assert TickTimes(inputs)[0] == first.now;
      k := 0;
    } else {
      var since' := if first.Pass? then first.now else since;
      if first.Pass? { assert TickTimes(inputs)[0] == first.now; }
      BystandersKeepHope(s, first, since, since');
      if first.Pass? {
        assert TickTimes(inputs)[1..] == TickTimes(rest) && TickTimes(inputs)[0] == first.now;
      } else {
        assert TickTimes(inputs) == TickTimes(rest);
      }
      k := ClientGivesUpInTime(s', since', rest, gap);
      k := k + 1;
      forall j | 0 <= j < k ensures Later(s, inputs, j).event.None? {
        if j > 0 { assert Later(s, inputs, j) == Later(s', rest, j - 1); }
      }
    }
  }

  /** A client from its creation. */
  lemma NewClientHopes(schema: Schema, config: Config, begun: nat)
    ensures Hopes(Create(Client, schema, config, begun).0, begun)
  {
  }

  /** A server that hears nothing at all has closed by a tick no later than the handshake
      timeout, the heartbeat timeout and two gaps after it began. */
  lemma ServerGivesUpInTime(schema: Schema, config: Config, begun: nat, times: seq<nat>, gap: nat)
    requires T.Regular(begun, times, gap) && times != []
    requires times[|times| - 1] > begun + config.handshakeTimeoutMs + config.heartbeatTimeoutMs + gap
    ensures exists k | 0 < k <= |times| ::
      && times[k - 1] <= begun + config.handshakeTimeoutMs + config.heartbeatTimeoutMs + 2 * gap
      && T.Ticks(Create(Server, schema, config, begun).0, times[..k]).state == Closed
  {
    hide T.Ticks; hide T.Regular;
    T.SilenceIsFatal(Create(Server, schema, config, begun).0, begun, times, gap);
  }
}
