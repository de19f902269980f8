/** The session state machine: what a frame, a tick, a lost transport and a close do. */
module Session {
  import opened Bytes
  import opened Frame
  import opened Schema
  import opened Handshake

  datatype Role = Client | Server
  datatype State = Handshaking | Ready | Closed
  datatype Disconnect = PeerClosed | TransportError | Unresponsive | Local

  datatype Event =
    | Connected
    | BecameReady
    | HandshakeFailed(failure: HandshakeFailure)
    | Message(id: u32, payload: seq<byte>)
    | ProbeSeen
    | AckSeen
    | Disconnected(reason: Disconnect)

  datatype Out = NoOut | OutProbe | OutAck | OutHandshake(payload: seq<byte>)

  datatype Reaction = Reaction(out: Out, event: Option<Event>)

  const SILENCE := Reaction(NoOut, None)

  function OneEvent(event: Option<Event>): seq<Event> {
    match event case None => [] case Some(e) => [e]
  }

  datatype Config = Config(handshakeTimeoutMs: u32, heartbeatIntervalMs: u32, heartbeatTimeoutMs: u32,
                           maxFramesPerTick: u32, maxMessageBytes: u32)

  /** The fields of a session; its buffers are accounted for by `ScratchCap`. */
  datatype Session = Session(
    role: Role, schema: Schema, config: Config,
    state: State, startedMs: nat, lastActivityMs: nat, probeSentMs: nat, probing: bool,
    terminated: bool, querySeen: bool, hasAsked: bool, asked: seq<QueryItem>)

  function Max(a: nat, b: nat): nat {
    if a > b then a else b
  }

  /** Room for the largest payload the session may have to print. */
  function ScratchCap(schema: Schema): nat {
    var slots := Max(|schema.messages|, 1);
    Max(Max(HelloLen(schema), QUERY_HEADER_LEN + QUERY_ENTRY_LEN * slots),
        REPLY_HEADER_LEN + REPLY_ENTRY_LEN * slots)
  }

  /** A payload printed into the scratch buffer; one that does not fit comes out empty. */
  function Printed(schema: Schema, payload: seq<byte>): Out {
    OutHandshake(if |payload| <= ScratchCap(schema) then payload else [])
  }

  function Create(role: Role, schema: Schema, config: Config, now: nat): (Session, Reaction) {
    (Session(role, schema, config, Handshaking, now, now, now, false, false, false, false, []),
     if role.Client? then Reaction(Printed(schema, HelloBytes(HelloOf(schema))), None) else SILENCE)
  }

  function Since(now: nat, earlier: nat): nat {
    if now >= earlier then now - earlier else 0
  }

  function Close(s: Session): Session {
    s.(state := Closed, terminated := true)
  }

  function AcceptPeer(s: Session): (Session, Reaction) {
    (s.(state := Ready), Reaction(OutHandshake([VerdictByte(VAccept)]), Some(BecameReady)))
  }

  function RejectPeer(s: Session, verdict: Verdict): (Session, Reaction) {
    (Close(s), Reaction(OutHandshake([VerdictByte(verdict)]), Some(HandshakeFailed(FailureOf(verdict)))))
  }

  function FailLocally(s: Session, failure: HandshakeFailure): (Session, Reaction) {
    (Close(s), Reaction(NoOut, Some(HandshakeFailed(failure))))
  }

  function ClientQuery(s: Session, payload: seq<byte>): (Session, Reaction) {
    if s.querySeen then FailLocally(s, FailMalformedPeer)
    else
      var seen := s.(querySeen := true);
      match ParseQuery(payload, |s.schema.messages|)
      case None => FailLocally(seen, FailMalformedPeer)
      case Some(items) =>
        if !Answerable(s.schema.messages, items) then FailLocally(seen, FailMalformedPeer)
        else (seen, Reaction(Printed(s.schema, ReplyBytes(Answers(s.schema.messages, items))), None))
  }

  function ClientHandshake(s: Session, payload: seq<byte>): (Session, Reaction) {
    if |payload| > 0 && payload[0] == QUERY_TAG then ClientQuery(s, payload)
    else if |payload| != 1 || payload[0] > 3 then FailLocally(s, FailMalformedPeer)
    else if payload[0] == VerdictByte(VAccept) then (s.(state := Ready), Reaction(NoOut, Some(BecameReady)))
    else FailLocally(s, FailureOf(VerdictOfByte(payload[0])))
  }

  function ServerReply(s: Session, payload: seq<byte>): (Session, Reaction) {
    var heard := s.(hasAsked := false);
    match ParseReply(payload, |s.schema.messages|)
    case None => RejectPeer(heard, VMalformedHello)
    case Some(reply) =>
      var verdict := ReplyVerdict(s.schema.messages, s.asked, reply);
      if verdict.VAccept? then AcceptPeer(heard) else RejectPeer(heard, verdict)
  }

  function ServerHello(s: Session, payload: seq<byte>): (Session, Reaction) {
    match ParseHello(payload)
    case None => RejectPeer(s, VMalformedHello)
    case Some(hello) =>
      if hello.version != PROTOCOL_VERSION then RejectPeer(s, VWrongVersion)
      else
        match Decide(s.schema, hello, |s.schema.messages|)
        case Accept => AcceptPeer(s)
        case Reject(verdict) => RejectPeer(s, verdict)
        case Query(items) =>
          (s.(asked := items, hasAsked := true), Reaction(Printed(s.schema, QueryBytes(items)), None))
  }

  function ServerHandshake(s: Session, payload: seq<byte>): (Session, Reaction) {
    if s.hasAsked then ServerReply(s, payload) else ServerHello(s, payload)
  }

  function OnFrame(s: Session, frame: Frame, now: nat): (Session, Reaction) {
    if s.state == Closed then (s, SILENCE)
    else
      var heard := s.(lastActivityMs := now, probing := false);
      match frame
      case Probe => (heard, Reaction(OutAck, if s.state == Ready then Some(ProbeSeen) else None))
      case Ack => (heard, Reaction(NoOut, if s.state == Ready then Some(AckSeen) else None))
      case Data(id, payload) =>
        (heard, Reaction(NoOut, if s.state == Ready then Some(Message(id, payload)) else None))
      case Handshake(payload) =>
        if s.state != Handshaking then (heard, SILENCE)
        else if s.role.Client? then ClientHandshake(heard, payload)
        else ServerHandshake(heard, payload)
  }

  /** How long a peer may be silent before it is probed. */
  function SilenceMs(s: Session): nat {
    if s.role.Server? && s.state == Handshaking then s.config.handshakeTimeoutMs
    else s.config.heartbeatIntervalMs
  }

  function Tick(s: Session, now: nat): (Session, Reaction) {
    if s.state == Closed then (s, SILENCE)
    else if s.role.Client? && s.state == Handshaking then
      if Since(now, s.startedMs) >= s.config.handshakeTimeoutMs then FailLocally(s, FailTimeout)
      else (s, SILENCE)
    else if s.probing then
      if Since(now, s.probeSentMs) >= s.config.heartbeatTimeoutMs
      then (Close(s), Reaction(NoOut, Some(Disconnected(Unresponsive))))
      else (s, SILENCE)
    else if Since(now, s.lastActivityMs) >= SilenceMs(s)
    then (s.(probing := true, probeSentMs := now), Reaction(OutProbe, None))
    else (s, SILENCE)
  }

  function TransportClosed(s: Session, reason: Disconnect): (Session, Reaction) {
    if s.terminated then (s.(state := Closed), SILENCE)
    else (Close(s), Reaction(NoOut, Some(Disconnected(reason))))
  }
}
