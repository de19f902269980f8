/** Who gets which slot of the hub, in which order peers are accepted, and what a peer is
    handed, told by what is in the slots before and after. */
module UdpLaws {
  import opened Bytes
  import opened Udp
  import opened UdpRuns

  // ---- One datagram ----------------------------------------------------------------------

  /** Two addresses are one iff they are both of internet families and agree on family,
      length, port and host, whatever else they hold. */
  lemma AddressesCompare(a: Address, b: Address)
    ensures SameAddress(a, b) <==> (a.family == Inet || a.family == Inet6) && a == b.(extra := a.extra)
  {
  }

  /** From one hub to the next nothing but the slot at `index` has changed. */
  ghost predicate OnlySlot(h: Hub, h': Hub, index: nat) {
    && |h'.slots| == |h.slots| && h'.closed == h.closed && index < |h.slots|
    && forall i | 0 <= i < |h.slots| && i != index :: h'.slots[i] == h.slots[i]
  }

  ghost predicate Known(h: Hub, sender: Address) {
    exists i | 0 <= i < |h.slots| :: h.slots[i].used && SameAddress(h.slots[i].addr, sender)
  }

  ghost predicate Full(h: Hub) {
    forall i | 0 <= i < |h.slots| :: h.slots[i].used
  }

  /** A datagram of a sender that has a slot joins the queue of that slot. */
  lemma KnownSenderIsServed(h: Hub, owned: set<nat>, p: Packet, index: nat)
    requires Inv(h, owned) && index < 256 && h.slots[index].used && SameAddress(h.slots[index].addr, p.sender)
    ensures var h', queue := Deliver(h, p), h.slots[index].queue;
      && OnlySlot(h, h', index) && h'.waiting == h.waiting
      && h'.slots[index] == h.slots[index].(
           queue := if |queue| < 64 then queue + [p.bytes] else queue[1..] + [p.bytes])
  {
    hide SameAddress;
    var owner := FindOwner(h.slots, p.sender, 0);
    OwnerIsUnique(h.slots, owner, index, p.sender);
  }

  /** A sender that has none gets the first slot that is free, with this datagram for its
      queue, and goes to the end of the line. */
  lemma NewcomerIsSeated(h: Hub, owned: set<nat>, p: Packet) returns (index: nat)
    requires Inv(h, owned) && !Known(h, p.sender) && !Full(h)
    ensures var h' := Deliver(h, p);
      && OnlySlot(h, h', index) && !h.slots[index].used && (forall i | 0 <= i < index :: h.slots[i].used)
      && h'.slots[index] == Slot(true, p.sender, [p.bytes]) && h'.waiting == h.waiting + [index]
  {
    hide SameAddress;
    index := FindFree(h.slots, 0);
    NoNewcomerIsForgotten(h, owned, index, p.sender);
    assert Enqueue([], p.bytes) == [p.bytes];
  }

  /** And if no slot is free its datagram is dropped. */
  lemma StrangerIsDropped(h: Hub, p: Packet)
    requires !Known(h, p.sender) && Full(h)
    ensures Deliver(h, p) == h
  {
    hide SameAddress;
  }

  // ---- The line --------------------------------------------------------------------------

  lemma DeliverKeepsLine(h: Hub, owned: set<nat>, p: Packet)
    requires Inv(h, owned)
    ensures h.waiting <= Deliver(h, p).waiting
  {
    hide SameAddress;
  }

  lemma {:induction false} PumpKeepsLine(h: Hub, owned: set<nat>, packets: seq<Packet>)
    requires Inv(h, owned)
    ensures h.waiting <= DeliverAll(h, packets).waiting
  {
    hide Inv; hide Deliver;
    if packets != [] {
      var init := packets[..|packets| - 1];
      PumpKeepsLine(h, owned, init);
      PumpKeeps(h, owned, init);
      DeliverKeepsLine(DeliverAll(h, init), owned, packets[|packets| - 1]);
    }
  }

  /** A pump reads the first 256 datagrams that have arrived, and none once closed. */
  lemma PumpReads(h: Hub, arrived: seq<Packet>)
    ensures Pump(h, arrived) ==
      if h.closed then h else DeliverAll(h, if |arrived| <= 256 then arrived else arrived[..256])
  {
  }

  lemma PumpGrowsLine(h: Hub, owned: set<nat>, arrived: seq<Packet>)
    requires Inv(h, owned)
    ensures h.waiting <= Pump(h, arrived).waiting
  {
    PumpKeepsLine(h, owned, Readable(arrived));
  }

  /** The slot one call accepts, if it does. */
  function AcceptedBy(s: System, call: Call): seq<nat> {
    match call
    case AcceptCall(arrived) =>
      (match Accept(s.hub, arrived).1 case Some(slot) => [slot] case None => [])
    case _ => []
  }

  /** Everyone who has been accepted so far and everyone still in line. */
  ghost function Line(systems: seq<System>, calls: seq<Call>, k: nat): seq<nat>
    requires k <= |calls| && |systems| == |calls| + 1
  {
    AcceptedUntil(systems, calls, k) + systems[k].hub.waiting
  }

  ghost function AcceptedUntil(systems: seq<System>, calls: seq<Call>, k: nat): seq<nat>
    requires k <= |calls| && |systems| == |calls| + 1
  {
    if k == 0 then [] else AcceptedUntil(systems, calls, k - 1) + AcceptedBy(systems[k - 1], calls[k - 1])
  }

  lemma CallGrowsLine(s: System, call: Call)
    requires Inv(s.hub, s.owned) && Fits(s)
    ensures s.hub.waiting <= AcceptedBy(s, call) + Perform(s, call).hub.waiting
    ensures call.AcceptCall? && AcceptedBy(s, call) == [] ==> s.hub.waiting == []
  {
    hide DeliverAll; hide Readable; hide SameAddress; hide DistinctAddresses; hide DistinctIndices;
    match call
    case AcceptCall(arrived) =>
      PumpGrowsLine(s.hub, s.owned, arrived);
      var waiting := Pump(s.hub, arrived).waiting;
      if waiting != [] { assert waiting == [waiting[0]] + waiting[1..]; }
    case RecvCall(peer, arrived, cap) =>
      PumpGrowsLine(s.hub, s.owned, arrived);
    case CloseCall(_) =>
    case CloseListener =>
  }

  lemma PrefixGrows(before: seq<nat>, waiting: seq<nat>, accepted: seq<nat>, later: seq<nat>)
    requires waiting <= accepted + later
    ensures before + waiting <= before + accepted + later
  {
    assert before + accepted + later == before + (accepted + later);
  }

  /** First come, first served: over every run, those accepted so far followed by those in
      line only ever grows at its end, so peers are accepted exactly in the order in which
      they came; and an accept finds nobody only if nobody is waiting. */
  lemma {:induction false} LineIsFifo(systems: seq<System>, calls: seq<Call>, j: nat, k: nat)
    requires IsRun(systems, calls) && j <= k <= |calls|
    ensures |systems| == |calls| + 1 && Line(systems, calls, j) <= Line(systems, calls, k)
    ensures k < |calls| && calls[k].AcceptCall? && AcceptedBy(systems[k], calls[k]) == [] ==>
      systems[k].hub.waiting == []
    decreases k
  {
    hide Perform; hide Inv;
    RunStep(systems, calls, k);
    if k < |calls| {
      RunStep(systems, calls, k + 1);
      CallGrowsLine(systems[k], calls[k]);
    }
    if j < k {
      LineIsFifo(systems, calls, j, k - 1);
      CallGrowsLine(systems[k - 1], calls[k - 1]);
      PrefixGrows(AcceptedUntil(systems, calls, k - 1), systems[k - 1].hub.waiting,
                  AcceptedBy(systems[k - 1], calls[k - 1]), systems[k].hub.waiting);
    }
  }

  // ---- Taking and closing ----------------------------------------------------------------

  /** A peer is handed the front of its queue if its buffer has room for it, is told the
      room it needs, with nothing lost, if not, and would block iff the queue is empty. */
  lemma RecvIsExact(h: Hub, index: nat, arrived: seq<Packet>, cap: nat)
    requires index < |h.slots| && |Pump(h, arrived).slots| == |h.slots|
    ensures var h1 := Pump(h, arrived); var queue := h1.slots[index].queue;
      var (h', receipt) := PeerRecv(h, index, arrived, cap);
      if queue == [] then receipt == WouldBlock && h' == h1
      else if |queue[0]| > cap then receipt == NeedCapacity(|queue[0]|) && h' == h1
      else
        && receipt == Received(queue[0]) && OnlySlot(h1, h', index) && h'.waiting == h1.waiting
        && h'.slots[index] == h1.slots[index].(queue := queue[1..])
  {
    hide Pump;
  }

  /** Closing a peer frees its slot and nothing else: its address is unknown from then on. */
  lemma ClosingForgets(h: Hub, owned: set<nat>, index: nat)
    requires Inv(h, owned) && index in owned
    ensures var h' := PeerClose(h, index);
      && OnlySlot(h, h', index) && !h'.slots[index].used && h'.slots[index].queue == [] && h'.waiting == h.waiting
      && !Known(h', h.slots[index].addr) && !Full(h')
  {
    var h' := PeerClose(h, index);
    var addr := h.slots[index].addr;
    forall i | 0 <= i < |h'.slots| && h'.slots[i].used ensures !SameAddress(h'.slots[i].addr, addr) {
      if i < index {
        SymmetricAddress(addr, h.slots[i].addr);
        assert !Owns(h.slots[index], h.slots[i].addr);
      } else {
        assert !Owns(h.slots[i], addr);
      }
    }
    hide SameAddress;
    assert !h'.slots[index].used;
  }

  /** On every run there are 256 slots, no queue is longer than 64, and no more than 256
      are in line. */
  lemma RunIsBounded(calls: seq<Call>, index: nat)
    requires index < 256
    ensures var h := Play(calls).hub; |h.slots| == 256 && |h.slots[index].queue| <= 64 && |h.waiting| <= 256
  {
    var s := Play(calls);
    assert Inv(s.hub, s.owned);
    hide Play;
    LineFits(s.hub.waiting);
  }

  lemma LineFits(waiting: seq<nat>)
    requires DistinctIndices(waiting) && forall i | i in waiting :: i < MAX_PEERS
    ensures |waiting| <= MAX_PEERS
  {
    var indices := set i | i in waiting;
    SetOfDistinct(waiting, indices);
    Subset(indices, Below(MAX_PEERS));
  }
}
