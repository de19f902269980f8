/** A connection: a session over a transport, with an outbox for what the transport
    would not take and a budget for what a tick may do. The transport is an
    adversary that answers each call from a script. */
module Core {
  import opened Bytes
  import opened Frame
  import opened Schema
  import opened Handshake
  import opened Session
  import D = StreamDecoder

  const MAX_OUTBOX_BYTES := 64 * 1024
  const RECV_BASE_CAP := 4096

  // ---- The transport -----------------------------------------------------------

  datatype SendAnswer = TakeAll | TakeSome(count: nat) | TakeNone | RefuseTooLarge | SendClosed | SendBroken

  datatype RecvAnswer = Give(count: nat) | AskRoom(needed: nat) | GiveNothing | RecvClosed | RecvBroken

  /** `accepted` is all it ever took from us, `received` all it ever gave us,
      `inbound` what it could still give; `shut` says we closed our direction. */
  datatype Transport = Transport(
    stream: bool, sends: seq<SendAnswer>, recvs: seq<RecvAnswer>,
    accepted: seq<byte>, inbound: seq<byte>, received: seq<byte>, shut: bool)

  datatype SendResult = Sent | Partial(accepted: nat) | SendBlocks | SendTooLarge | SendIsClosed | SendFails

  datatype RecvResult = Received(bytes: seq<byte>) | NeedCapacity(needed: nat) | RecvBlocks | RecvIsClosed | RecvFails

  function Min(a: nat, b: nat): nat {
    if a < b then a else b
  }

  /** A script that has run out answers that it would block. */
  function TransportSend(t: Transport, bytes: seq<byte>): (Transport, SendResult) {
    if t.sends == [] then (t, SendBlocks)
    else
      var t' := t.(sends := t.sends[1..]);
      match t.sends[0]
      case TakeAll => (t'.(accepted := t.accepted + bytes), Sent)
      case TakeSome(count) =>
        var k := Min(count, |bytes|);
        (t'.(accepted := t.accepted + bytes[..k]), Partial(k))
      case TakeNone => (t', SendBlocks)
      case RefuseTooLarge => (t', SendTooLarge)
      case SendClosed => (t', SendIsClosed)
      case SendBroken => (t', SendFails)
  }

  function TransportRecv(t: Transport, cap: nat): (Transport, RecvResult) {
    if t.recvs == [] then (t, RecvBlocks)
    else
      var t' := t.(recvs := t.recvs[1..]);
      match t.recvs[0]
      case Give(count) =>
        var k := Min(Min(count, cap), |t.inbound|);
        (t'.(inbound := t.inbound[k..], received := t.received + t.inbound[..k]), Received(t.inbound[..k]))
      case AskRoom(needed) => (t', NeedCapacity(needed))
      case GiveNothing => (t', RecvBlocks)
      case RecvClosed => (t', RecvIsClosed)
      case RecvBroken => (t', RecvFails)
  }

  // ---- The connection ----------------------------------------------------------

  /** What has happened: the frames put on their way, the frames taken in while
      handshaking, while ready and after closing, and the events reported. */
  datatype History = History(committed: seq<Frame>, early: seq<Frame>, live: seq<Frame>, late: seq<Frame>,
                             events: seq<Event>)

  /** `outbox` is the part of the outbox not yet taken; `dead` carries the reason. */
  datatype Core = Core(
    transport: Transport, session: Session, decoder: D.State, outbox: seq<byte>, recvCap: nat,
    scratchCap: nat, dead: Option<Disconnect>, announced: bool, history: History)

  datatype Result = Ok | ErrNotReady | ErrCongested | ErrTooLarge | ErrClosed

  function Kill(c: Core, reason: Disconnect): Core {
    if c.dead.None? then c.(dead := Some(reason)) else c
  }

  function Shutdown(c: Core): Core {
    Kill(c, Local).(outbox := [], transport := c.transport.(shut := true))
  }

  function Commit(c: Core, frame: Frame): Core {
    c.(history := c.history.(committed := c.history.committed + [frame]))
  }

  /** Hands a frame to the transport and keeps what it did not take. */
  function WriteFrame(c: Core, frame: Frame): (Core, Result) {
    var bytes := EncodeFrame(frame);
    var (t, result) := TransportSend(c.transport, bytes);
    var c' := c.(transport := t);
    match result
    case Sent => (Commit(c', frame), Ok)
    case Partial(n) =>
      if n == 0 || n >= |bytes|
      then (if n >= |bytes| then (Commit(c', frame), Ok) else (Commit(c'.(outbox := bytes), frame), Ok))
      else (Commit(c'.(outbox := bytes[n..]), frame), Ok)
    case SendBlocks => (Commit(c'.(outbox := bytes), frame), Ok)
    case SendTooLarge => (c', ErrTooLarge)
    case SendIsClosed => (Kill(c', PeerClosed), ErrClosed)
    case SendFails => (Kill(c', TransportError), ErrClosed)
  }

  /** A control frame queues behind what is waiting, up to the ceiling. */
  function SendControl(c: Core, frame: Frame): Core {
    if c.dead.Some? then c
    else if c.outbox != [] then
      if |c.outbox| + |EncodeFrame(frame)| > MAX_OUTBOX_BYTES then Kill(c, Unresponsive)
      else Commit(c.(outbox := c.outbox + EncodeFrame(frame)), frame)
    else WriteFrame(c, frame).0
  }

  /** Offers the outbox until the transport stops taking. */
  function Flush(c: Core): Core
    decreases |c.outbox|
  {
    if c.outbox == [] then c
    else
      var (t, result) := TransportSend(c.transport, c.outbox);
      var c' := c.(transport := t);
      match result
      case Sent => c'.(outbox := [])
      case Partial(n) =>
        if n == 0 then c'
        else Flush(c'.(outbox := if n <= |c.outbox| then c.outbox[n..] else []))
      case SendBlocks => c'
      case SendTooLarge => c'.(outbox := [])
      case SendIsClosed => Kill(c', PeerClosed)
      case SendFails => Kill(c', TransportError)
  }

  /** The frame a reaction asks for, if the encoder prints it into the scratch buffer. */
  function FrameOf(out: Out, scratchCap: nat): Option<Frame> {
    match out
    case NoOut => None
    case OutProbe => if scratchCap < 1 then None else Some(Probe)
    case OutAck => if scratchCap < 1 then None else Some(Ack)
    case OutHandshake(payload) =>
      if |payload| > MAX_HANDSHAKE_PAYLOAD || scratchCap < HANDSHAKE_HEADER_LEN + |payload| then None
      else Some(Handshake(payload))
  }

  function EmitOut(c: Core, out: Out): Core {
    match FrameOf(out, c.scratchCap)
    case None => c
    case Some(frame) => SendControl(c, frame)
  }

  function Push(c: Core, event: Event): Core {
    c.(history := c.history.(events := c.history.events + [event]))
  }

  function Apply(c: Core, reaction: Reaction): Core {
    var c' := EmitOut(c, reaction.out);
    match reaction.event
    case None => c'
    case Some(event) =>
      if event.HandshakeFailed? then Shutdown(Push(c', event)) else Push(c', event)
  }

  /** Files a frame under the state it found the session in. */
  function Note(h: History, state: State, frame: Frame): History {
    match state
    case Handshaking => h.(early := h.early + [frame])
    case Ready => h.(live := h.live + [frame])
    case Closed => h.(late := h.late + [frame])
  }

  /** One frame through the session, and its consequences. */
  function TakeIn(c: Core, frame: Frame, now: nat): Core {
    var (s, reaction) := OnFrame(c.session, frame, now);
    Apply(c.(session := s, history := Note(c.history, c.session.state, frame)), reaction)
  }

  datatype Use = UsedFrame | UsedRead | Stop

  function Receive(c: Core, now: nat): (Core, Use) {
    var (t, result) := TransportRecv(c.transport, c.recvCap);
    var c' := c.(transport := t);
    match result
    case Received(bytes) =>
      if t.stream then (c'.(decoder := D.Feed(c.decoder, bytes)), UsedRead)
      else
        (match DecodePacket(bytes, c.session.config.maxMessageBytes)
         case Packet(frame) => (TakeIn(c', frame, now), UsedFrame)
         case BadPacket(_) => (c', UsedFrame))
    case NeedCapacity(needed) => (c'.(recvCap := Max(needed, c.recvCap)), UsedRead)
    case RecvBlocks => (c', Stop)
    case RecvIsClosed => (Kill(c', PeerClosed), Stop)
    case RecvFails => (Kill(c', TransportError), Stop)
  }

  /** One turn of the drain loop. */
  function DrainStep(c: Core, now: nat): (Core, Use) {
    if !c.transport.stream then Receive(c, now)
    else
      match D.NextResult(c.decoder)
      case Decoded(frame, used) =>
        var c' := TakeIn(c, frame, now);
        (c'.(decoder := D.Advance(c'.decoder, used)), UsedFrame)
      case Bad(_) => (Kill(c.(decoder := D.AfterNext(c.decoder)), TransportError), Stop)
      case Incomplete => Receive(c, now)
  }

  /** Frames and reads are budgeted separately, from the same limit. */
  function Drain(c: Core, now: nat, frames: nat, turns: nat): Core
    decreases frames + turns
  {
    if frames == 0 || turns == 0 || c.dead.Some? then c
    else
      var (c', use) := DrainStep(c, now);
      match use
      case UsedFrame => Drain(c', now, frames - 1, turns)
      case UsedRead => Drain(c', now, frames, turns - 1)
      case Stop => c'
  }

  function ScratchSize(schema: Schema, config: Config): nat {
    Max(HANDSHAKE_HEADER_LEN + HelloLen(schema), DATA_HEADER_LEN + config.maxMessageBytes)
  }

  /** A connection that has not spoken yet. */
  function Newborn(transport: Transport, schema: Schema, config: Config, role: Role, now: nat): Core {
    Core(transport, Create(role, schema, config, now).0, D.Init(config.maxMessageBytes), [], RECV_BASE_CAP,
         ScratchSize(schema, config), None, false, History([], [], [], [], []))
  }

  /** A schema whose hello cannot be framed is refused. */
  function Init(transport: Transport, schema: Schema, config: Config, role: Role, now: nat): Option<Core> {
    if HelloLen(schema) > MAX_HANDSHAKE_PAYLOAD then None
    else Some(EmitOut(Newborn(transport, schema, config, role, now), Create(role, schema, config, now).1.out))
  }

  function Announce(c: Core): Core {
    if c.announced then c else Push(c.(announced := true), Connected)
  }

  function TickSession(c: Core, now: nat): Core {
    var (s, reaction) := Tick(c.session, now);
    Apply(c.(session := s), reaction)
  }

  /** A dead connection tells its session once. */
  function Bury(c: Core): Core {
    if c.dead.Some? && c.session.state != Closed then
      var (s, reaction) := TransportClosed(c.session, c.dead.value);
      Apply(c.(session := s), reaction)
    else c
  }

  function FlushIfAlive(c: Core): Core {
    if c.dead.None? then Flush(c) else c
  }

  function DrainIfAlive(c: Core, now: nat): Core {
    if c.dead.None? then Drain(c, now, c.session.config.maxFramesPerTick, c.session.config.maxFramesPerTick) else c
  }

  function TickIfAlive(c: Core, now: nat): Core {
    if c.dead.None? then TickSession(c, now) else c
  }

  function CoreTick(c: Core, now: nat): Core {
    Bury(TickIfAlive(DrainIfAlive(FlushIfAlive(Announce(c)), now), now))
  }

  /** Application data goes out only when nothing is waiting. */
  function CoreSend(c: Core, id: u32, payload: seq<byte>): (Core, Result) {
    if c.session.state != Ready then (c, ErrNotReady)
    else if c.dead.Some? then (c, ErrClosed)
    else if |payload| > c.session.config.maxMessageBytes then (c, ErrTooLarge)
    else if c.outbox != [] then (c, ErrCongested)
    else if |payload| > MAX_MESSAGE_PAYLOAD || c.scratchCap < DATA_HEADER_LEN + |payload| then (c, ErrTooLarge)
    else WriteFrame(c, Data(id, payload))
  }

  function CoreClose(c: Core): Core {
    Shutdown(c.(session := Close(c.session)))
  }

  /** Reaped only when the transport is done with and the session knows. */
  predicate Finished(c: Core) {
    c.dead.Some? && c.session.state == Closed
  }
}
