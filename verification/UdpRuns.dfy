/** What a peer receives over the life of its slot: what its address sent, in order, less
    the oldest that a full queue dropped. */
module UdpRuns {
  import opened Bytes
  import opened Udp

  // ---- A slot claimed in the course of a pump ------------------------------------------

  /** Addresses of other families never compare equal, not even to themselves. */
  predicate Comparable(a: Address) {
    a.family.Inet? || a.family.Inet6?
  }

  lemma SameAsSame(a: Address, b: Address, c: Address)
    requires SameAddress(a, b) && SameAddress(b, c)
    ensures SameAddress(a, c) && SameAddress(b, a)
  {
  }

  lemma ComparesToItself(a: Address)
    ensures SameAddress(a, a) <==> Comparable(a)
  {
  }

  lemma SameIsComparable(a: Address, b: Address)
    requires SameAddress(a, b)
    ensures Comparable(a) && Comparable(b)
  {
  }

  /** What one datagram does to a slot that is free: nothing, or the sender gets it. */
  lemma DeliverToFree(h: Hub, owned: set<nat>, p: Packet, index: nat)
    requires Inv(h, owned) && index < MAX_PEERS && !h.slots[index].used
    ensures var slot' := Deliver(h, p).slots[index];
      || slot' == h.slots[index]
      || (slot' == Slot(true, p.sender, [p.bytes]) && forall i | 0 <= i < MAX_PEERS :: !Owns(h.slots[i], p.sender))
  {
    hide SameAddress;
    assert Enqueue([], p.bytes) == [p.bytes];
  }

  /** With a slot free, every comparable sender has one after its datagram. */
  lemma DeliverSeats(h: Hub, owned: set<nat>, p: Packet, index: nat)
    requires Inv(h, owned) && index < MAX_PEERS && !h.slots[index].used && Comparable(p.sender)
    ensures |Deliver(h, p).slots| == MAX_PEERS
    ensures exists j | 0 <= j < MAX_PEERS :: Owns(Deliver(h, p).slots[j], p.sender)
  {
    ComparesToItself(p.sender);
    hide SameAddress;
    var owner := FindOwner(h.slots, p.sender, 0);
    var free := FindFree(h.slots, 0);
    assert Owns(Deliver(h, p).slots[if owner < MAX_PEERS then owner else free], p.sender);
  }

  /** A sender that has no slot while one is free has sent nothing. */
  lemma {:induction false} StrangerSentNothing(h: Hub, owned: set<nat>, packets: seq<Packet>, index: nat,
                                               sender: Address)
    requires Inv(h, owned) && index < MAX_PEERS && |DeliverAll(h, packets).slots| == MAX_PEERS
    requires !DeliverAll(h, packets).slots[index].used
    requires forall i | 0 <= i < MAX_PEERS :: !Owns(DeliverAll(h, packets).slots[i], sender)
    ensures SentBy(packets, sender) == []
  {
    hide Inv; hide Deliver; hide SameAddress;
    DeliverAllKeepsSize(h, packets);
    HubSize(h, owned);
    if packets != [] {
      var init, last := packets[..|packets| - 1], packets[|packets| - 1];
      var h1 := DeliverAll(h, init);
      PumpKeeps(h, owned, init);
      HubSize(h1, owned);
      if h1.slots[index].used { DeliverToSlot(h1, owned, last, index); }
      forall i | 0 <= i < MAX_PEERS ensures !Owns(h1.slots[i], sender) {
        if h1.slots[i].used { DeliverToSlot(h1, owned, last, i); }
      }
      StrangerSentNothing(h, owned, init, index, sender);
      if SameAddress(sender, last.sender) {
        SameIsComparable(sender, last.sender);
        DeliverSeats(h1, owned, last, index);
        var j :| 0 <= j < MAX_PEERS && Owns(Deliver(h1, last).slots[j], last.sender);
        OwnsTheSame(Deliver(h1, last).slots[j], sender, last.sender);
      }
    }
  }

  lemma OwnsTheSame(slot: Slot, a: Address, b: Address)
    requires SameAddress(a, b)
    ensures Owns(slot, a) <==> Owns(slot, b)
  {
  }

  lemma HubSize(h: Hub, owned: set<nat>)
    requires Inv(h, owned)
    ensures |h.slots| == MAX_PEERS
  {
  }

  /** A newcomer's first queue: a slot that was free before the pump and is in use after it
      holds what its address sent in this pump, in order, cut to the latest 64. */
  lemma {:induction false} NewcomerIsFifo(h: Hub, owned: set<nat>, packets: seq<Packet>, index: nat)
    requires Inv(h, owned) && index < MAX_PEERS && !h.slots[index].used
    ensures |DeliverAll(h, packets).slots| == MAX_PEERS
    ensures var slot := DeliverAll(h, packets).slots[index];
      slot.used && Comparable(slot.addr) ==> slot.queue == Latest(SentBy(packets, slot.addr))
  {
    DeliverAllKeepsSize(h, packets);
    HubSize(h, owned);
    hide Inv; hide Deliver; hide SameAddress; hide Latest; hide Enqueue; hide Comparable;
    if packets != [] {
      var init, last := packets[..|packets| - 1], packets[|packets| - 1];
      var h1 := DeliverAll(h, init);
      NewcomerIsFifo(h, owned, init, index);
      PumpKeeps(h, owned, init);
      var slot := DeliverAll(h, packets).slots[index];
      if h1.slots[index].used {
        DeliverToSlot(h1, owned, last, index);
        EnqueueKeepsLatest(SentBy(init, slot.addr), last.bytes);
        assert SentBy(init, slot.addr) + [] == SentBy(init, slot.addr);
      } else if slot.used {
        DeliverToFree(h1, owned, last, index);
        StrangerSentNothing(h, owned, init, index, last.sender);
        ComparesToItself(last.sender);
        assert [] + [last.bytes] == [last.bytes];
        LatestOfOne(last.bytes);
      }
    }
  }

  lemma LatestOfOne(bytes: seq<byte>)
    ensures Latest([bytes]) == [bytes]
  {
  }

  // ---- The life of a slot ----------------------------------------------------------------

  predicate Subsequence<T(==)>(a: seq<T>, b: seq<T>)
    decreases |b|
  {
    if a == [] then true
    else if b == [] then false
    else (a[|a| - 1] == b[|b| - 1] && Subsequence(a[..|a| - 1], b[..|b| - 1])) || Subsequence(a, b[..|b| - 1])
  }

  lemma SubsequencePush<T>(a: seq<T>, b: seq<T>, x: T)
    requires Subsequence(a, b)
    ensures Subsequence(a + [x], b + [x])
  {
    assert (a + [x])[..|a|] == a && (b + [x])[..|b|] == b;
  }

  lemma {:induction false} SubsequenceWidens<T>(a: seq<T>, b: seq<T>, c: seq<T>)
    requires Subsequence(a, b)
    ensures Subsequence(a, b + c)
    decreases |c|
  {
    if c == [] {
      assert b + c == b;
    } else {
      SubsequenceWidens(a, b, c[..|c| - 1]);
      assert (b + c)[..|b + c| - 1] == b + c[..|c| - 1];
    }
  }

  /** A run: each state follows from the one before by one call. */
  ghost predicate IsRun(systems: seq<System>, calls: seq<Call>) {
    && |systems| == |calls| + 1
    && (forall i | 0 <= i < |systems| :: Inv(systems[i].hub, systems[i].owned))
    && forall i | 0 <= i < |calls| :: systems[i + 1] == Perform(systems[i], calls[i])
  }

  /** The datagrams one call reads from the socket. */
  function ReadBy(s: System, call: Call): seq<Packet> {
    if s.hub.closed then []
    else
      match call
      case AcceptCall(arrived) => Readable(arrived)
      case RecvCall(peer, arrived, _) => if peer in s.owned then Readable(arrived) else []
      case _ => []
  }

  /** What one call hands to the peer of a slot. */
  function HandedBy(s: System, call: Call, index: nat): seq<seq<byte>>
    requires Fits(s)
  {
    if call.RecvCall? && call.peer == index && index in s.owned then
      HandedOver(PeerRecv(s.hub, index, call.arrived, call.cap).1)
    else []
  }

  /** All that an address has sent, and all that its peer has been handed, in `k` calls. */
  ghost function Heard(systems: seq<System>, calls: seq<Call>, addr: Address, k: nat): seq<seq<byte>>
    requires IsRun(systems, calls) && k <= |calls|
  {
    if k == 0 then []
    else Heard(systems, calls, addr, k - 1) + SentBy(ReadBy(systems[k - 1], calls[k - 1]), addr)
  }

  ghost function Handed(systems: seq<System>, calls: seq<Call>, index: nat, k: nat): seq<seq<byte>>
    requires IsRun(systems, calls) && k <= |calls|
  {
    if k == 0 then []
    else
      OwnedFit(systems[k - 1]);
      Handed(systems, calls, index, k - 1) + HandedBy(systems[k - 1], calls[k - 1], index)
  }

  lemma OwnedFit(s: System)
    requires Inv(s.hub, s.owned)
    ensures Fits(s)
  {
  }

  /** What a queue holds is the end of all that was sent, and what was handed over is, in
      order, part of what was sent before that. */
  ghost predicate Ledger(handed: seq<seq<byte>>, queue: seq<seq<byte>>, sent: seq<seq<byte>>) {
    && |queue| <= |sent| && |queue| <= MAX_QUEUED
    && queue == sent[|sent| - |queue|..]
    && Subsequence(handed, sent[..|sent| - |queue|])
  }

  lemma LedgerHears(handed: seq<seq<byte>>, queue: seq<seq<byte>>, sent: seq<seq<byte>>, more: seq<seq<byte>>)
    requires Ledger(handed, queue, sent)
    ensures Ledger(handed, Latest(queue + more), sent + more)
  {
    hide Subsequence;
    var queue', sent' := Latest(queue + more), sent + more;
    var before, after := |sent| - |queue|, |sent'| - |queue'|;
    assert sent'[before..] == queue + more;
    assert sent'[after..] == sent'[before..][after - before..];
    assert sent'[..after] == sent[..before] + sent'[before..after];
    SubsequenceWidens(handed, sent[..before], sent'[before..after]);
  }

  lemma LedgerHands(handed: seq<seq<byte>>, queue: seq<seq<byte>>, sent: seq<seq<byte>>)
    requires Ledger(handed, queue, sent) && queue != []
    ensures Ledger(handed + [queue[0]], queue[1..], sent)
  {
    hide Subsequence;
    var k := |sent| - |queue|;
    assert sent[..k + 1] == sent[..k] + [queue[0]];
    assert sent[k + 1..] == queue[1..];
    SubsequencePush(handed, sent[..k], queue[0]);
  }

  /** What pumping does to a slot in use, whether or not the hub is closed. */
  lemma PumpToSlot(h: Hub, owned: set<nat>, arrived: seq<Packet>, index: nat)
    requires Inv(h, owned) && index < MAX_PEERS && h.slots[index].used
    ensures var slot := h.slots[index]; var read := if h.closed then [] else Readable(arrived);
      && |Pump(h, arrived).slots| == MAX_PEERS
      && Pump(h, arrived).slots[index] == slot.(queue := Latest(slot.queue + SentBy(read, slot.addr)))
  {
    var slot := h.slots[index];
    BoundedQueue(h, owned, index);
    assert SentBy([], slot.addr) == [] && slot.queue + [] == slot.queue;
    PumpIsFifo(h, owned, Readable(arrived), index);
  }

  /** A slot after one call that filled its queue and took what was handed over. */
  predicate Served(slot: Slot, slot': Slot, filled: seq<seq<byte>>, handed: seq<seq<byte>>) {
    && slot'.used && slot'.addr == slot.addr
    && (handed == [] ==> slot'.queue == filled)
    && (handed != [] ==> filled != [] && handed == [filled[0]] && slot'.queue == filled[1..])
  }

  function HandedOver(receipt: Receipt): seq<seq<byte>> {
    match receipt case Received(bytes) => [bytes] case _ => []
  }

  /** Taking from one slot hands over its front and leaves the others alone. */
  lemma TakeFromSlot(h: Hub, peer: nat, cap: nat, index: nat)
    requires peer < |h.slots| && index < |h.slots| && h.slots[index].used
    ensures var (h', receipt) := TakeFrom(h, peer, cap);
      && |h'.slots| == |h.slots|
      && Served(h.slots[index], h'.slots[index], h.slots[index].queue,
                if peer == index then HandedOver(receipt) else [])
  {
  }

  lemma RecvToSlot(s: System, peer: nat, arrived: seq<Packet>, cap: nat, index: nat)
    requires Inv(s.hub, s.owned) && index < MAX_PEERS && s.hub.slots[index].used && peer in s.owned
    ensures var call := RecvCall(peer, arrived, cap); var slot := s.hub.slots[index];
      && |Perform(s, call).hub.slots| == MAX_PEERS
      && Served(slot, Perform(s, call).hub.slots[index], Latest(slot.queue + SentBy(ReadBy(s, call), slot.addr)),
                HandedBy(s, call, index))
  {
    hide Pump; hide Readable; hide SentBy; hide Latest; hide SameAddress; hide TakeFrom; hide DistinctAddresses;
    hide DistinctIndices;
    PumpToSlot(s.hub, s.owned, arrived, index);
    TakeFromSlot(Pump(s.hub, arrived), peer, cap, index);
  }

  lemma QuietCall(s: System, call: Call, index: nat)
    requires Inv(s.hub, s.owned) && index < MAX_PEERS && s.hub.slots[index].used
    requires ReadBy(s, call) == []
    ensures var slot := s.hub.slots[index]; Latest(slot.queue + SentBy(ReadBy(s, call), slot.addr)) == slot.queue
  {
    BoundedQueue(s.hub, s.owned, index);
    assert s.hub.slots[index].queue + [] == s.hub.slots[index].queue;
    hide ReadBy; hide Latest;
  }

  /** What one call does to a slot in use that it does not close. */
  lemma CallToSlot(s: System, call: Call, index: nat)
    requires Inv(s.hub, s.owned) && index < MAX_PEERS && s.hub.slots[index].used && call != CloseCall(index)
    ensures var slot := s.hub.slots[index];
      && |Perform(s, call).hub.slots| == MAX_PEERS
      && Served(slot, Perform(s, call).hub.slots[index], Latest(slot.queue + SentBy(ReadBy(s, call), slot.addr)),
                HandedBy(s, call, index))
  {
    if ReadBy(s, call) == [] { QuietCall(s, call, index); }
    hide Latest; hide SentBy; hide Readable; hide SameAddress; hide DeliverAll;
    match call
    case AcceptCall(arrived) => PumpToSlot(s.hub, s.owned, arrived, index);
    case RecvCall(peer, arrived, cap) => if peer in s.owned { RecvToSlot(s, peer, arrived, cap, index); }
    case CloseCall(peer) =>
    case CloseListener =>
  }

  lemma LedgerServes(handed: seq<seq<byte>>, slot: Slot, slot': Slot, sent: seq<seq<byte>>, more: seq<seq<byte>>,
                     now: seq<seq<byte>>)
    requires Ledger(handed, slot.queue, sent) && Served(slot, slot', Latest(slot.queue + more), now)
    ensures Ledger(handed + now, slot'.queue, sent + more)
  {
    hide Ledger; hide Latest;
    LedgerHears(handed, slot.queue, sent, more);
    if now != [] {
      LedgerHands(handed, Latest(slot.queue + more), sent + more);
    } else {
      assert handed + [] == handed;
    }
  }

  /** FIFO over the life of a slot: from any moment on, until its peer closes it, a slot
      keeps its address, its queue is the end of what it held followed by all that its
      address has sent since, and what its peer has been handed is, in order, part of
      what came before that: only the oldest waiting are ever dropped. */
  lemma {:induction false} SlotIsFifo(systems: seq<System>, calls: seq<Call>, index: nat, k: nat)
    requires IsRun(systems, calls) && k <= |calls| && index < MAX_PEERS
    requires |systems[0].hub.slots| == MAX_PEERS && systems[0].hub.slots[index].used
    requires CloseCall(index) !in calls[..k]
    ensures |systems[k].hub.slots| == MAX_PEERS
    ensures var first, slot := systems[0].hub.slots[index], systems[k].hub.slots[index];
      && slot.used && slot.addr == first.addr
      && Ledger(Handed(systems, calls, index, k), slot.queue, first.queue + Heard(systems, calls, first.addr, k))
    decreases k
  {
    hide *;
    RunStep(systems, calls, k);
    if k == 0 {
      SlotAtFirst(systems, calls, index);
    } else {
      assert calls[..k] == calls[..k - 1] + [calls[k - 1]];
      SlotIsFifo(systems, calls, index, k - 1);
      CallToSlot(systems[k - 1], calls[k - 1], index);
      SlotStep(systems, calls, index, k);
    }
  }

  lemma RunStep(systems: seq<System>, calls: seq<Call>, k: nat)
    requires IsRun(systems, calls) && k <= |calls|
    ensures |systems| == |calls| + 1
    ensures k > 0 ==> Inv(systems[k - 1].hub, systems[k - 1].owned)
    ensures k > 0 ==> |systems[k - 1].hub.slots| == MAX_PEERS && Fits(systems[k - 1])
    ensures k > 0 ==> systems[k] == Perform(systems[k - 1], calls[k - 1])
  {
    hide Perform; hide DistinctAddresses; hide DistinctIndices;
    if k > 0 { assert Inv(systems[k - 1].hub, systems[k - 1].owned); }
  }

  lemma SlotAtFirst(systems: seq<System>, calls: seq<Call>, index: nat)
    requires IsRun(systems, calls) && index < MAX_PEERS
    requires |systems[0].hub.slots| == MAX_PEERS
    ensures var slot := systems[0].hub.slots[index];
      Ledger(Handed(systems, calls, index, 0), slot.queue, slot.queue + Heard(systems, calls, slot.addr, 0))
  {
    var slot := systems[0].hub.slots[index];
    assert Inv(systems[0].hub, systems[0].owned);
    QueueIsShort(systems[0].hub, systems[0].owned, index);
    assert slot.queue + [] == slot.queue;
    hide Inv; hide Perform; hide Ledger;
  }

  lemma SlotStep(systems: seq<System>, calls: seq<Call>, index: nat, k: nat)
    requires IsRun(systems, calls) && 0 < k <= |calls| && index < MAX_PEERS && |systems| == |calls| + 1
    requires |systems[0].hub.slots| == |systems[k - 1].hub.slots| == |systems[k].hub.slots| == MAX_PEERS
    requires Fits(systems[k - 1])
    requires var first, slot := systems[0].hub.slots[index], systems[k - 1].hub.slots[index];
      && slot.used && slot.addr == first.addr
      && Ledger(Handed(systems, calls, index, k - 1), slot.queue,
                first.queue + Heard(systems, calls, first.addr, k - 1))
    requires var s, call := systems[k - 1], calls[k - 1]; var slot := s.hub.slots[index];
      Served(slot, systems[k].hub.slots[index], Latest(slot.queue + SentBy(ReadBy(s, call), slot.addr)),
             HandedBy(s, call, index))
    ensures var first, slot := systems[0].hub.slots[index], systems[k].hub.slots[index];
      && slot.used && slot.addr == first.addr
      && Ledger(Handed(systems, calls, index, k), slot.queue, first.queue + Heard(systems, calls, first.addr, k))
  {
    hide Perform; hide Ledger; hide Inv; hide SentBy; hide ReadBy; hide HandedBy; hide Latest; hide IsRun;
    var s, call, first := systems[k - 1], calls[k - 1], systems[0].hub.slots[index];
    var handed, sent := Handed(systems, calls, index, k - 1), first.queue + Heard(systems, calls, first.addr, k - 1);
    var more := SentBy(ReadBy(s, call), first.addr);
    LedgerServes(handed, s.hub.slots[index], systems[k].hub.slots[index], sent, more, HandedBy(s, call, index));
    assert sent + more == first.queue + (Heard(systems, calls, first.addr, k - 1) + more);
  }

  lemma QueueIsShort(h: Hub, owned: set<nat>, index: nat)
    requires Inv(h, owned) && index < MAX_PEERS
    ensures Ledger([], h.slots[index].queue, h.slots[index].queue)
  {
  }
}
