/** Heartbeats: an unresponsive peer is found in bounded time, and only a silent
    peer is ever called unresponsive. */
module SessionTiming {
  import opened Bytes
  import opened Frame
  import opened Schema
  import opened Handshake
  import opened Session
  import opened SessionRuns

  /** When an input happens, if it carries the time. */
  function Clock(input: Input): Option<nat> {
    match input
    case Hear(_, now) => Some(now)
    case Pass(now) => Some(now)
    case _ => None
  }

  /** The last time shown by the clock. */
  function Latest(now: nat, inputs: seq<Input>): nat {
    if inputs == [] then now
    else
      match Clock(inputs[|inputs| - 1])
      case Some(t) => t
      case None => Latest(now, inputs[..|inputs| - 1])
  }

  /** The clock does not run backwards. */
  predicate Monotone(now: nat, inputs: seq<Input>) {
    inputs != [] ==>
      var before := inputs[..|inputs| - 1];
      Monotone(now, before) && Latest(now, before) <= Latest(now, inputs)
  }

  /** No frame of the run is later than `t`. */
  ghost predicate HeardBy(inputs: seq<Input>, t: nat) {
    forall k | 0 <= k < |inputs| && inputs[k].Hear? :: inputs[k].now <= t
  }

  /** A session that is still open was last active when it last heard something, and
      probes only after the silence it allows. */
  predicate ClockInv(s: Session, latest: nat) {
    && s.lastActivityMs <= latest && s.startedMs <= latest
    && (s.probing ==> s.lastActivityMs + SilenceMs(s) <= s.probeSentMs <= latest)
  }

  lemma StepKeepsClock(s: Session, input: Input, latest: nat)
    requires ClockInv(s, latest) && (Clock(input).Some? ==> latest <= Clock(input).value)
    ensures var s' := Respond(s, input).0; var latest' := if Clock(input).Some? then Clock(input).value else latest;
      s'.state != Closed ==>
        && ClockInv(s', latest')
        && s'.lastActivityMs == (if input.Hear? then input.now else s.lastActivityMs)
  {
    if input.Hear? && input.frame.Handshake? && s.state == Handshaking {
      HandshakeIsForward(s.(lastActivityMs := input.now, probing := false), input.frame.payload);
    }
    hide ClientHandshake; hide ServerHandshake;
  }

  lemma HeardOneMore(inputs: seq<Input>, earlier: nat, t: nat)
    requires inputs != [] && HeardBy(inputs[..|inputs| - 1], earlier) && earlier <= t
    requires inputs[|inputs| - 1].Hear? ==> inputs[|inputs| - 1].now <= t
    ensures HeardBy(inputs, t)
  {
    forall k | 0 <= k < |inputs| && inputs[k].Hear? ensures inputs[k].now <= t {
      if k < |inputs| - 1 { assert inputs[..|inputs| - 1][k] == inputs[k]; }
    }
  }

  lemma {:induction false} RunKeepsClock(role: Role, schema: Schema, config: Config, now: nat, inputs: seq<Input>)
    requires Monotone(now, inputs)
    ensures var s := After(Create(role, schema, config, now).0, inputs);
      s.state != Closed ==>
        ClockInv(s, Latest(now, inputs)) && HeardBy(inputs, s.lastActivityMs) && now <= s.lastActivityMs
  {
    var start := Create(role, schema, config, now).0;
    if inputs != [] {
      var before, last := inputs[..|inputs| - 1], inputs[|inputs| - 1];
      var s, s' := After(start, before), After(start, inputs);
      assert s' == Respond(s, last).0;
      hide Respond; hide After; hide SilenceMs;
      RunIsForward(start, inputs, |before|);
      if s'.state != Closed {
        RunKeepsClock(role, schema, config, now, before);
        StepKeepsClock(s, last, Latest(now, before));
        assert s.lastActivityMs <= Latest(now, before);
        assert Latest(now, inputs) == if Clock(last).Some? then Clock(last).value else Latest(now, before);
        hide ClockInv; hide HeardBy; hide Monotone;
        HeardOneMore(inputs, s.lastActivityMs, s'.lastActivityMs);
      }
    }
  }

  lemma UnresponsiveTick(s: Session, latest: nat, now: nat)
    requires Tick(s, now).1.event == Some(Disconnected(Unresponsive))
    ensures s.state != Closed
    ensures ClockInv(s, latest) && latest <= now ==>
      s.lastActivityMs + SilenceMs(s) + s.config.heartbeatTimeoutMs <= now
  {
  }

  lemma ClockBeforeLast(now: nat, inputs: seq<Input>)
    requires inputs != [] && Monotone(now, inputs)
    ensures Monotone(now, inputs[..|inputs| - 1])
    ensures inputs[|inputs| - 1].Pass? ==> Latest(now, inputs[..|inputs| - 1]) <= inputs[|inputs| - 1].now
  {
  }

  lemma PassReaction(start: Session, inputs: seq<Input>)
    requires inputs != [] && inputs[|inputs| - 1].Pass?
    ensures LastReaction(start, inputs) == Tick(After(start, inputs[..|inputs| - 1]), inputs[|inputs| - 1].now).1
  {
    hide Tick; hide After;
  }

  lemma CreatedFresh(role: Role, schema: Schema, config: Config, now: nat)
    ensures var start := Create(role, schema, config, now).0; start.config == config && Valid(start)
  {
  }

  lemma RunKeepsConfig(start: Session, inputs: seq<Input>)
    requires Valid(start)
    ensures After(start, inputs).config == start.config
  {
    RunIsForward(start, inputs, |inputs|);
  }

  lemma QuietBefore(s: Session, now: nat, latest: nat, inputs: seq<Input>)
    requires inputs != [] && inputs[|inputs| - 1].Pass? && latest <= inputs[|inputs| - 1].now
    requires Tick(s, inputs[|inputs| - 1].now).1.event == Some(Disconnected(Unresponsive))
    requires s.state != Closed ==>
      ClockInv(s, latest) && HeardBy(inputs[..|inputs| - 1], s.lastActivityMs) && now <= s.lastActivityMs
    ensures var quiet := SilenceMs(s) + s.config.heartbeatTimeoutMs; var t := inputs[|inputs| - 1].now;
      now + quiet <= t && HeardBy(inputs, t - quiet)
  {
    var t := inputs[|inputs| - 1].now;
    UnresponsiveTick(s, latest, t);
    hide HeardBy; hide Tick;
    HeardOneMore(inputs, s.lastActivityMs, t - SilenceMs(s) - s.config.heartbeatTimeoutMs);
  }

  /** Sound detection: a tick that reports an unresponsive peer comes at least the
      allowed silence plus the heartbeat timeout after the session began and after
      every frame it heard. */
  lemma OnlySilentPeersAreUnresponsive(role: Role, schema: Schema, config: Config, now: nat, inputs: seq<Input>)
    requires inputs != [] && Monotone(now, inputs) && inputs[|inputs| - 1].Pass?
    requires LastReaction(Create(role, schema, config, now).0, inputs).event == Some(Disconnected(Unresponsive))
    ensures var s := After(Create(role, schema, config, now).0, inputs[..|inputs| - 1]);
      var quiet := SilenceMs(s) + s.config.heartbeatTimeoutMs; var t := inputs[|inputs| - 1].now;
      s.config == config && now + quiet <= t && HeardBy(inputs, t - quiet)
  {
    hide *;
    var before := inputs[..|inputs| - 1];
    var start := Create(role, schema, config, now).0;
    CreatedFresh(role, schema, config, now);
    PassReaction(start, inputs);
    ClockBeforeLast(now, inputs);
    RunKeepsClock(role, schema, config, now, before);
    RunKeepsConfig(start, before);
    QuietBefore(After(start, before), now, Latest(now, before), inputs);
  }

  // ---- One probe at a time -----------------------------------------------------

  function ReactionAt(start: Session, inputs: seq<Input>, k: nat): Reaction
    requires k < |inputs|
  {
    Respond(After(start, inputs[..k]), inputs[k]).1
  }

  lemma QuietKeepsProbing(s: Session, input: Input)
    requires (s.probing || s.state == Closed) && !input.Hear?
    ensures var (s', reaction) := Respond(s, input);
      (s'.probing || s'.state == Closed) && reaction.out != OutProbe
  {
  }

  lemma {:induction false} ProbingLasts(start: Session, inputs: seq<Input>, i: nat, j: nat)
    requires i < j <= |inputs|
    requires ReactionAt(start, inputs, i).out == OutProbe
    requires forall k | i < k < j :: !inputs[k].Hear?
    ensures After(start, inputs[..j]).probing || After(start, inputs[..j]).state == Closed
    decreases j
  {
    assert inputs[..j][..j - 1] == inputs[..j - 1];
    if i + 1 < j {
      ProbingLasts(start, inputs, i, j - 1);
      QuietKeepsProbing(After(start, inputs[..j - 1]), inputs[j - 1]);
    } else {
      ProbeMarks(After(start, inputs[..i]), inputs[i]);
    }
  }

  lemma ProbeMarks(s: Session, input: Input)
    requires Respond(s, input).1.out == OutProbe
    ensures Respond(s, input).0.probing
  {
    hide ParseHello; hide ParseQuery; hide ParseReply; hide Decide; hide ReplyVerdict; hide Answerable;
    hide Answers; hide QueryBytes; hide ReplyBytes;
  }

  /** Between two probes something was heard. */
  lemma OneProbeAtATime(start: Session, inputs: seq<Input>, i: nat, j: nat)
    requires i < j < |inputs|
    requires ReactionAt(start, inputs, i).out == OutProbe && ReactionAt(start, inputs, j).out == OutProbe
    ensures exists k :: i < k <= j && inputs[k].Hear?
  {
    if forall k | i < k <= j :: !inputs[k].Hear? {
      ProbingLasts(start, inputs, i, j);
      QuietKeepsProbing(After(start, inputs[..j]), inputs[j]);
    }
  }

  // ---- Detection in bounded time -----------------------------------------------

  function Ticks(s: Session, times: seq<nat>): Session
    decreases |times|
  {
    if times == [] then s else Ticks(Tick(s, times[0]).0, times[1..])
  }

  /** Ticks follow each other, the first one `since`, by at most `gap`. */
  predicate Regular(since: nat, times: seq<nat>, gap: nat)
    decreases |times|
  {
    times != [] ==> since <= times[0] <= since + gap && Regular(times[0], times[1..], gap)
  }

  lemma {:induction false} ClosedStays(s: Session, times: seq<nat>)
    requires s.state == Closed
    ensures Ticks(s, times) == s
  {
    if times != [] { ClosedStays(s, times[1..]); }
  }

  /** The time by which a session that hears nothing is closed. */
  function Deadline(s: Session, gap: nat): nat {
    if s.probing then s.probeSentMs + s.config.heartbeatTimeoutMs + gap
    else s.lastActivityMs + SilenceMs(s) + s.config.heartbeatTimeoutMs + 2 * gap
  }

  /** A session that may probe its peer - ready, or a server whose peer has not finished
      the handshake - whose next tick is due, and which is not overdue yet. */
  predicate Waiting(s: Session, since: nat) {
    && (s.state == Ready || (s.state == Handshaking && s.role.Server?)) && s.lastActivityMs <= since
    && if s.probing then s.probeSentMs <= since <= s.probeSentMs + s.config.heartbeatTimeoutMs
       else since <= s.lastActivityMs + SilenceMs(s)
  }

  /** Any tick less than one gap before the deadline already finds it closed. */
  lemma {:induction false} ClosedNearDeadline(s: Session, since: nat, times: seq<nat>, gap: nat)
    requires Waiting(s, since) && times != [] && Regular(since, times, gap)
    requires times[|times| - 1] + gap > Deadline(s, gap)
    ensures Ticks(s, times).state == Closed
    decreases |times|
  {
    var s' := Tick(s, times[0]).0;
    if s'.state == Closed {
      ClosedStays(s', times[1..]);
    } else {
      ClosedNearDeadline(s', times[0], times[1..], gap);
    }
  }

  lemma {:induction false} RegularPrefix(since: nat, times: seq<nat>, gap: nat, k: nat)
    requires Regular(since, times, gap) && k <= |times|
    ensures Regular(since, times[..k], gap)
    decreases k
  {
    if k > 0 {
      RegularPrefix(times[0], times[1..], gap, k - 1);
      assert times[..k][1..] == times[1..][..k - 1];
    }
  }

  /** The first tick later than `mark` comes within one gap of it. */
  lemma {:induction false} FirstAfter(since: nat, times: seq<nat>, gap: nat, mark: nat) returns (k: nat)
    requires Regular(since, times, gap) && since <= mark && times != [] && times[|times| - 1] > mark
    ensures 0 < k <= |times| && mark < times[k - 1] <= mark + gap
    decreases |times|
  {
    if times[0] > mark {
      k := 1;
    } else {
      k := FirstAfter(times[0], times[1..], gap, mark);
      k := k + 1;
    }
  }

  /** Such a session that is ticked on and hears nothing has been closed by a tick no
      later than its deadline. */
  lemma SilenceIsFatal(s: Session, since: nat, times: seq<nat>, gap: nat)
    requires Waiting(s, since) && times != [] && Regular(since, times, gap)
    requires times[|times| - 1] + gap > Deadline(s, gap)
    ensures Ticks(s, times).state == Closed
    ensures exists k | 0 < k <= |times| ::
      times[k - 1] <= Deadline(s, gap) && Ticks(s, times[..k]).state == Closed
  {
    ClosedNearDeadline(s, since, times, gap);
    var k := FirstAfter(since, times, gap, Deadline(s, gap) - gap);
    RegularPrefix(since, times, gap, k);
    ClosedNearDeadline(s, since, times[..k], gap);
  }

  /** Bounded detection: let a session be ready after the frame it hears at `t`, hear
      nothing more, and be ticked at gaps of at most `gap`, on past
      t + interval + timeout + gap. Then it is closed at the end, and it was closed by
      a tick no later than t + interval + timeout + 2 * gap. */
  lemma UnresponsiveWithinBound(s: Session, frame: Frame, t: nat, times: seq<nat>, gap: nat)
    requires OnFrame(s, frame, t).0.state == Ready && Regular(t, times, gap) && times != []
    requires times[|times| - 1] > t + s.config.heartbeatIntervalMs + s.config.heartbeatTimeoutMs + gap
    ensures Ticks(OnFrame(s, frame, t).0, times).state == Closed
    ensures exists k | 0 < k <= |times| ::
      && times[k - 1] <= t + s.config.heartbeatIntervalMs + s.config.heartbeatTimeoutMs + 2 * gap
      && Ticks(OnFrame(s, frame, t).0, times[..k]).state == Closed
  {
    var heard := s.(lastActivityMs := t, probing := false);
    if frame.Handshake? && s.state == Handshaking {
      HandshakeIsForward(heard, frame.payload);
    }
    hide ClientHandshake; hide ServerHandshake; hide Ticks; hide Regular;
    SilenceIsFatal(OnFrame(s, frame, t).0, t, times, gap);
  }
}
