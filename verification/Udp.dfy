/** The UDP hub: datagrams from many peers over one socket, sorted into slots, with
    newcomers waiting in line to be accepted. */
module Udp {
  import opened Bytes

  const MAX_PEERS := 256
  const MAX_QUEUED := 64
  const MAX_READS := 256

  datatype Family = Inet | Inet6 | OtherFamily

  /** A socket address; `extra` is what comparing addresses ignores. */
  datatype Address = Address(family: Family, length: nat, port: u16, host: seq<byte>, extra: seq<byte>)

  predicate SameAddress(a: Address, b: Address) {
    && a.family == b.family && a.length == b.length
    && (a.family.Inet? || a.family.Inet6?)
    && a.port == b.port && a.host == b.host
  }

  datatype Packet = Packet(sender: Address, bytes: seq<byte>)

  datatype Slot = Slot(used: bool, addr: Address, queue: seq<seq<byte>>)

  /** `waiting` are the slots not yet accepted, in order of arrival. */
  datatype Hub = Hub(slots: seq<Slot>, waiting: seq<nat>, closed: bool)

  /** A full queue loses its oldest datagram. */
  function Enqueue(queue: seq<seq<byte>>, bytes: seq<byte>): seq<seq<byte>> {
    (if |queue| >= MAX_QUEUED then queue[1..] else queue) + [bytes]
  }

  predicate Owns(slot: Slot, sender: Address) {
    slot.used && SameAddress(slot.addr, sender)
  }

  /** The first slot from `at` on that belongs to the sender. */
  function FindOwner(slots: seq<Slot>, sender: Address, at: nat): (r: nat)
    requires at <= |slots|
    ensures at <= r <= |slots| && (forall i | at <= i < r :: !Owns(slots[i], sender))
    ensures r < |slots| ==> Owns(slots[r], sender)
    decreases |slots| - at
  {
    if at == |slots| || Owns(slots[at], sender) then at else FindOwner(slots, sender, at + 1)
  }

  function FindFree(slots: seq<Slot>, at: nat): (r: nat)
    requires at <= |slots|
    ensures at <= r <= |slots| && (forall i | at <= i < r :: slots[i].used)
    ensures r < |slots| ==> !slots[r].used
    decreases |slots| - at
  {
    if at == |slots| || !slots[at].used then at else FindFree(slots, at + 1)
  }

  /** A sender without a slot gets the first free one and joins the line - if the
      line has room. */
  function Admit(h: Hub, index: nat, sender: Address): Hub
    requires index < |h.slots|
  {
    h.(slots := h.slots[index := Slot(true, sender, [])],
       waiting := if |h.waiting| < MAX_PEERS then h.waiting + [index] else h.waiting)
  }

  function Put(h: Hub, index: nat, bytes: seq<byte>): Hub
    requires index < |h.slots|
  {
    h.(slots := h.slots[index := h.slots[index].(queue := Enqueue(h.slots[index].queue, bytes))])
  }

  /** One datagram; with no slot to be had it is dropped. */
  function Deliver(h: Hub, p: Packet): Hub {
    var owner := FindOwner(h.slots, p.sender, 0);
    if owner < |h.slots| then Put(h, owner, p.bytes)
    else
      var free := FindFree(h.slots, 0);
      if free < |h.slots| then Put(Admit(h, free, p.sender), free, p.bytes) else h
  }

  function DeliverAll(h: Hub, packets: seq<Packet>): Hub {
    if packets == [] then h else Deliver(DeliverAll(h, packets[..|packets| - 1]), packets[|packets| - 1])
  }

  /** The datagrams a pump reads of those that have arrived. */
  function Readable(arrived: seq<Packet>): seq<Packet> {
    if |arrived| <= MAX_READS then arrived else arrived[..MAX_READS]
  }

  function Pump(h: Hub, arrived: seq<Packet>): Hub {
    if h.closed then h else DeliverAll(h, Readable(arrived))
  }

  function Accept(h: Hub, arrived: seq<Packet>): (Hub, Option<nat>) {
    var h' := Pump(h, arrived);
    if h'.waiting == [] then (h', None) else (h'.(waiting := h'.waiting[1..]), Some(h'.waiting[0]))
  }

  datatype Receipt = Received(bytes: seq<byte>) | NeedCapacity(needed: nat) | WouldBlock

  /** The front of a slot's queue, if the caller's buffer has room for it. */
  function TakeFrom(h: Hub, index: nat, cap: nat): (Hub, Receipt)
    requires index < |h.slots|
  {
    var slot := h.slots[index];
    if slot.queue == [] then (h, WouldBlock)
    else if |slot.queue[0]| > cap then (h, NeedCapacity(|slot.queue[0]|))
    else (h.(slots := h.slots[index := slot.(queue := slot.queue[1..])]), Received(slot.queue[0]))
  }

  function PeerRecv(h: Hub, index: nat, arrived: seq<Packet>, cap: nat): (Hub, Receipt)
    requires index < |h.slots|
  {
    PumpKeepsSize(h, arrived);
    TakeFrom(Pump(h, arrived), index, cap)
  }

  function PeerClose(h: Hub, index: nat): Hub
    requires index < |h.slots|
  {
    h.(slots := h.slots[index := h.slots[index].(used := false, queue := [])])
  }

  // ---- The invariant -----------------------------------------------------------------

  ghost predicate DistinctAddresses(slots: seq<Slot>) {
    forall i, j | 0 <= i < j < |slots| && slots[i].used :: !Owns(slots[j], slots[i].addr)
  }

  ghost predicate DistinctIndices(waiting: seq<nat>) {
    forall i, j | 0 <= i < j < |waiting| :: waiting[i] != waiting[j]
  }

  /** `owned` are the slots of the peers that have been accepted and not closed. Every
      used slot is in line exactly once or owned, never both. */
  ghost predicate Inv(h: Hub, owned: set<nat>) {
    && |h.slots| == MAX_PEERS
    && DistinctAddresses(h.slots)
    && DistinctIndices(h.waiting)
    && (forall i | i in h.waiting :: i < MAX_PEERS && h.slots[i].used && i !in owned)
    && (forall i | i in owned :: i < MAX_PEERS && h.slots[i].used)
    && (forall i | 0 <= i < MAX_PEERS && h.slots[i].used :: i in h.waiting || i in owned)
    && (forall i | 0 <= i < MAX_PEERS :: |h.slots[i].queue| <= MAX_QUEUED)
    && (forall i | 0 <= i < MAX_PEERS && !h.slots[i].used :: h.slots[i].queue == [])
  }

  /** Distinct indices below the size leave room as long as one index is missing. */
  lemma RoomInLine(waiting: seq<nat>, missing: nat)
    requires DistinctIndices(waiting) && missing !in waiting && missing < MAX_PEERS
    requires forall i | i in waiting :: i < MAX_PEERS
    ensures |waiting| < MAX_PEERS
  {
    var indices := set i | i in waiting;
    SetOfDistinct(waiting, indices);
    var all := Below(MAX_PEERS);
    assert indices <= all - {missing};
    Subset(indices, all - {missing});
  }

  function Below(n: nat): (r: set<nat>)
    ensures |r| == n && forall i: nat :: i in r <==> i < n
  {
    if n == 0 then {} else Below(n - 1) + {n - 1}
  }

  lemma {:induction false} SetOfDistinct(waiting: seq<nat>, indices: set<nat>)
    requires DistinctIndices(waiting) && forall i: nat :: i in indices <==> i in waiting
    ensures |indices| == |waiting|
    decreases |waiting|
  {
    if waiting == [] {
      assert indices == {};
    } else {
      var init, last := waiting[..|waiting| - 1], waiting[|waiting| - 1];
      assert waiting == init + [last];
      SetOfDistinct(init, indices - {last});
    }
  }

  lemma {:induction false} Subset(a: set<nat>, b: set<nat>)
    requires a <= b
    ensures |a| <= |b|
    decreases |a|
  {
    if a != {} {
      var x :| x in a;
      Subset(a - {x}, b - {x});
    }
  }

  /** The line never overflows: whenever a newcomer takes a free slot there is room,
      so no used slot is ever forgotten. */
  lemma NoNewcomerIsForgotten(h: Hub, owned: set<nat>, index: nat, sender: Address)
    requires Inv(h, owned) && index < MAX_PEERS && !h.slots[index].used
    ensures Admit(h, index, sender).waiting == h.waiting + [index]
  {
    RoomInLine(h.waiting, index);
  }

  lemma AdmitKeeps(h: Hub, owned: set<nat>, index: nat, sender: Address)
    requires Inv(h, owned) && index < MAX_PEERS && !h.slots[index].used
    requires forall i | 0 <= i < MAX_PEERS :: !Owns(h.slots[i], sender)
    ensures Inv(Admit(h, index, sender), owned) && Admit(h, index, sender).slots[index].used
  {
    NoNewcomerIsForgotten(h, owned, index, sender);
    var h' := Admit(h, index, sender);
    forall i, j | 0 <= i < j < MAX_PEERS && h'.slots[i].used ensures !Owns(h'.slots[j], h'.slots[i].addr) {
      if i == index { SymmetricAddress(sender, h.slots[j].addr); }
    }
  }

  lemma SymmetricAddress(a: Address, b: Address)
    ensures SameAddress(a, b) <==> SameAddress(b, a)
  {
  }

  lemma PutKeeps(h: Hub, owned: set<nat>, index: nat, bytes: seq<byte>)
    requires Inv(h, owned) && index < MAX_PEERS && h.slots[index].used
    ensures Inv(Put(h, index, bytes), owned)
  {
    hide SameAddress;
  }

  lemma DeliverKeeps(h: Hub, owned: set<nat>, p: Packet)
    requires Inv(h, owned)
    ensures Inv(Deliver(h, p), owned)
  {
    hide Put; hide Admit; hide SameAddress;
    var owner := FindOwner(h.slots, p.sender, 0);
    if owner < |h.slots| {
      PutKeeps(h, owned, owner, p.bytes);
    } else {
      var free := FindFree(h.slots, 0);
      if free < |h.slots| {
        AdmitKeeps(h, owned, free, p.sender);
        PutKeeps(Admit(h, free, p.sender), owned, free, p.bytes);
      }
    }
  }

  lemma {:induction false} PumpKeeps(h: Hub, owned: set<nat>, packets: seq<Packet>)
    requires Inv(h, owned)
    ensures Inv(DeliverAll(h, packets), owned)
  {
    hide Inv; hide Deliver;
    if packets != [] {
      PumpKeeps(h, owned, packets[..|packets| - 1]);
      DeliverKeeps(DeliverAll(h, packets[..|packets| - 1]), owned, packets[|packets| - 1]);
    }
  }

  // ---- Every run -----------------------------------------------------------------------

  /** A call on the listener or on a peer, and the datagrams waiting at the socket. */
  datatype Call =
    | AcceptCall(arrived: seq<Packet>)
    | RecvCall(peer: nat, arrived: seq<Packet>, cap: nat)
    | CloseCall(peer: nat)
    | CloseListener

  /** The hub and the slots its live peers own. */
  datatype System = System(hub: Hub, owned: set<nat>)

  const FRESH_SLOT := Slot(false, Address(OtherFamily, 0, 0, [], []), [])

  function NewSystem(): System {
    System(Hub(seq(MAX_PEERS, i => FRESH_SLOT), [], false), {})
  }

  predicate Fits(s: System) {
    |s.hub.slots| == MAX_PEERS && forall i | i in s.owned :: i < MAX_PEERS
  }

  /** Calls on a peer that is not live do nothing. */
  function Perform(s: System, call: Call): System
    requires Fits(s)
  {
    match call
    case AcceptCall(arrived) =>
      var (hub, slot) := Accept(s.hub, arrived);
      System(hub, if slot.Some? then s.owned + {slot.value} else s.owned)
    case RecvCall(peer, arrived, cap) =>
      if peer in s.owned then s.(hub := PeerRecv(s.hub, peer, arrived, cap).0) else s
    case CloseCall(peer) =>
      if peer in s.owned then System(PeerClose(s.hub, peer), s.owned - {peer}) else s
    case CloseListener => s.(hub := s.hub.(closed := true))
  }

  lemma {:induction false} DeliverAllKeepsSize(h: Hub, packets: seq<Packet>)
    ensures |DeliverAll(h, packets).slots| == |h.slots|
  {
    if packets != [] { DeliverAllKeepsSize(h, packets[..|packets| - 1]); }
  }

  lemma PumpKeepsSize(h: Hub, arrived: seq<Packet>)
    ensures |Pump(h, arrived).slots| == |h.slots|
  {
    DeliverAllKeepsSize(h, Readable(arrived));
  }

  lemma AcceptKeeps(s: System, arrived: seq<Packet>)
    requires Inv(s.hub, s.owned)
    ensures var s' := Perform(s, AcceptCall(arrived)); Inv(s'.hub, s'.owned)
  {
    PumpKeeps(s.hub, s.owned, Readable(arrived));
    hide DeliverAll; hide Readable; hide SameAddress;
    var h := Pump(s.hub, arrived);
    if h.waiting != [] {
      var slot, rest := h.waiting[0], h.waiting[1..];
      forall i | i in rest ensures i in h.waiting && i != slot {
        var k :| 0 <= k < |rest| && rest[k] == i;
        assert h.waiting[k + 1] == i;
      }
      assert h.waiting == [slot] + rest;
    }
  }

  lemma RecvKeeps(s: System, peer: nat, arrived: seq<Packet>, cap: nat)
    requires Inv(s.hub, s.owned)
    ensures var s' := Perform(s, RecvCall(peer, arrived, cap)); Inv(s'.hub, s'.owned)
  {
    PumpKeeps(s.hub, s.owned, Readable(arrived));
    hide DeliverAll; hide Readable; hide SameAddress;
  }

  lemma PerformKeeps(s: System, call: Call)
    requires Inv(s.hub, s.owned)
    ensures var s' := Perform(s, call); Inv(s'.hub, s'.owned)
  {
    hide SameAddress; hide DeliverAll; hide Readable;
    match call
    case AcceptCall(arrived) => AcceptKeeps(s, arrived);
    case RecvCall(peer, arrived, cap) => RecvKeeps(s, peer, arrived, cap);
    case CloseCall(peer) =>
    case CloseListener =>
  }

  lemma NewIsSound()
    ensures Inv(NewSystem().hub, NewSystem().owned)
  {
  }

  /** Every run keeps the hub sound: used slots have distinct addresses, each is in line
      once or owned by one live peer, and queues are bounded. */
  ghost function Play(calls: seq<Call>): (s: System)
    ensures Inv(s.hub, s.owned)
  {
    if calls == [] then
      NewIsSound();
      NewSystem()
    else
      var before := Play(calls[..|calls| - 1]);
      PerformKeeps(before, calls[|calls| - 1]);
      Perform(before, calls[|calls| - 1])
  }

  // ---- What a peer's queue holds -------------------------------------------------------

  /** All but the oldest beyond the bound. */
  function Latest(queue: seq<seq<byte>>): seq<seq<byte>> {
    if |queue| <= MAX_QUEUED then queue else queue[|queue| - MAX_QUEUED..]
  }

  function SentBy(packets: seq<Packet>, addr: Address): seq<seq<byte>> {
    if packets == [] then []
    else
      var last := packets[|packets| - 1];
      SentBy(packets[..|packets| - 1], addr) + if SameAddress(addr, last.sender) then [last.bytes] else []
  }

  lemma EnqueueKeepsLatest(queue: seq<seq<byte>>, bytes: seq<byte>)
    ensures Enqueue(Latest(queue), bytes) == Latest(queue + [bytes])
  {
  }

  lemma OwnerIsUnique(slots: seq<Slot>, i: nat, j: nat, sender: Address)
    requires DistinctAddresses(slots) && i < |slots| && j < |slots|
    requires Owns(slots[i], sender) && Owns(slots[j], sender)
    ensures i == j
  {
  }

  lemma DeliverToSlot(h: Hub, owned: set<nat>, p: Packet, index: nat)
    requires Inv(h, owned) && index < MAX_PEERS && h.slots[index].used
    ensures var slot := h.slots[index]; var slot' := Deliver(h, p).slots[index];
      slot' == if SameAddress(slot.addr, p.sender) then slot.(queue := Enqueue(slot.queue, p.bytes)) else slot
  {
    hide SameAddress; hide Enqueue;
    var owner := FindOwner(h.slots, p.sender, 0);
    if owner < |h.slots| && Owns(h.slots[index], p.sender) { OwnerIsUnique(h.slots, owner, index, p.sender); }
  }

  /** FIFO with only the oldest dropped: after a pump, the queue of a slot in use is what
      it held followed by what its address sent, in order, cut to the latest 64. */
  lemma {:induction false} PumpIsFifo(h: Hub, owned: set<nat>, packets: seq<Packet>, index: nat)
    requires Inv(h, owned) && index < MAX_PEERS && h.slots[index].used
    ensures var slot := h.slots[index]; var h' := DeliverAll(h, packets);
      && |h'.slots| == MAX_PEERS
      && h'.slots[index] == slot.(queue := Latest(slot.queue + SentBy(packets, slot.addr)))
  {
    hide Inv; hide Deliver; hide SameAddress; hide Latest; hide Enqueue;
    DeliverAllKeepsSize(h, packets);
    BoundedQueue(h, owned, index);
    var slot := h.slots[index];
    if packets == [] {
      assert slot.queue + [] == slot.queue;
    } else {
      var init, last := packets[..|packets| - 1], packets[|packets| - 1];
      PumpKeeps(h, owned, init);
      PumpIsFifo(h, owned, init, index);
      DeliverToSlot(DeliverAll(h, init), owned, last, index);
      var heard := slot.queue + SentBy(init, slot.addr);
      EnqueueKeepsLatest(heard, last.bytes);
      assert heard + [last.bytes] == slot.queue + (SentBy(init, slot.addr) + [last.bytes]);
      assert heard + [] == slot.queue + (SentBy(init, slot.addr) + []);
      assert heard + [] == heard;
    }
  }

  lemma BoundedQueue(h: Hub, owned: set<nat>, index: nat)
    requires Inv(h, owned) && index < MAX_PEERS
    ensures |h.slots| == MAX_PEERS && Latest(h.slots[index].queue) == h.slots[index].queue
  {
  }
}
