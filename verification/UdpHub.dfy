/** The hub as it is kept in memory: a table of slots and a ring of arrivals. */
module UdpHub {
  import opened Bytes
  import opened Udp
  import opened UdpSlot

  /** Where in the ring the `k`-th in line is kept. */
  function Place(head: nat, k: nat): (r: nat)
    ensures r < MAX_PEERS
  {
    (head + k) % MAX_PEERS
  }

  /** Distinct places in line are distinct places in the ring. */
  lemma RingIsInjective(head: nat, j: nat, k: nat)
    requires j < k < MAX_PEERS
    ensures Place(head, j) != Place(head, k)
  {
    var a, b := head + j, head + k;
    assert a == a / MAX_PEERS * MAX_PEERS + a % MAX_PEERS && b == b / MAX_PEERS * MAX_PEERS + b % MAX_PEERS;
  }

  /** Moving the head on by one moves every place in line up by one. */
  lemma RingMovesOn(head: nat, k: nat)
    ensures Place(Place(head, 1), k) == Place(head, k + 1)
  {
  }

  class HubCell {
    const slots: array<SlotCell>
    const arrivals: array<nat>
    var arrivalHead: nat
    var arrivalCount: nat
    var closed: bool
    ghost var model: Hub
    ghost var Repr: set<object>

    ghost predicate Line()
      reads this, arrivals
    {
      && arrivals.Length == MAX_PEERS && arrivalHead < MAX_PEERS && arrivalCount <= MAX_PEERS
      && |model.waiting| == arrivalCount
      && forall k | 0 <= k < arrivalCount :: model.waiting[k] == arrivals[Place(arrivalHead, k)]
    }

    /** The slots are separate objects with separate lists. */
    ghost predicate Table()
      reads this, slots, slots[..], Repr
    {
      && slots.Length == MAX_PEERS == |model.slots|
      && (forall i | 0 <= i < MAX_PEERS ::
            && slots[i] in Repr && slots[i].Repr <= Repr
            && this !in slots[i].Repr && slots !in slots[i].Repr && arrivals !in slots[i].Repr
            && slots[i].Valid() && slots[i].View() == model.slots[i])
      && (forall i, j | 0 <= i < j < MAX_PEERS :: slots[i] != slots[j] && slots[i].Repr !! slots[j].Repr)
    }

    ghost predicate Valid()
      reads this, slots, slots[..], arrivals, Repr
    {
      {this, slots, arrivals} <= Repr && Line() && Table() && closed == model.closed
    }

    /** Puts a datagram into the queue of a slot. */
    method PutAt(index: nat, bytes: seq<byte>)
      requires Valid() && index < MAX_PEERS
      modifies Repr
      ensures Valid() && fresh(Repr - old(Repr)) && model == Put(old(model), index, bytes)
      ensures unchanged(slots) && unchanged(arrivals)
    {
      slots[index].Enqueue(bytes);
      model := Put(model, index, bytes);
      Repr := Repr + slots[index].Repr;
    }

    /** A table of empty slots, each with its own memory. */
    static method EmptyTable() returns (cells: array<SlotCell>, ghost memory: set<object>)
      ensures cells.Length == MAX_PEERS && fresh(cells) && fresh(memory) && cells !in memory
      ensures forall i | 0 <= i < MAX_PEERS ::
        && cells[i] in memory && cells[i].Repr <= memory && cells !in cells[i].Repr
        && cells[i].Valid() && cells[i].View() == FRESH_SLOT
      ensures forall i, j | 0 <= i < j < MAX_PEERS :: cells[i] != cells[j] && cells[i].Repr !! cells[j].Repr
    {
      var first := new SlotCell();
      cells := new SlotCell[MAX_PEERS](_ => first);
      memory := {};
      for n := 0 to MAX_PEERS
        invariant fresh(memory) && cells !in memory
        invariant forall i | 0 <= i < n ::
          && cells[i] in memory && cells[i].Repr <= memory && cells !in cells[i].Repr
          && cells[i].Valid() && cells[i].View() == FRESH_SLOT
        invariant forall i, j | 0 <= i < j < n :: cells[i] != cells[j] && cells[i].Repr !! cells[j].Repr
      {
        var cell := new SlotCell();
        cells[n] := cell;
        memory := memory + cell.Repr;
      }
    }

    constructor ()
      ensures Valid() && fresh(Repr) && model == NewSystem().hub
    {
      var cells, memory := EmptyTable();
      var ring := new nat[MAX_PEERS](_ => 0);
      slots, arrivals := cells, ring;
      arrivalHead, arrivalCount, closed := 0, 0, false;
      model := NewSystem().hub;
      Repr := {this, cells, ring} + memory;
    }

    method ClaimAt(index: nat, sender: Address)
      requires Valid() && index < MAX_PEERS
      modifies this`model, slots[index]
      ensures Valid() && model == old(model).(slots := old(model).slots[index := Slot(true, sender, [])])
    {
      slots[index].Claim(sender);
      model := model.(slots := model.slots[index := Slot(true, sender, [])]);
    }

    method PushArrival(index: nat)
      requires Valid() && arrivalCount < MAX_PEERS
      modifies this`arrivalCount, this`model, arrivals
      ensures Valid() && model == old(model).(waiting := old(model).waiting + [index])
    {
      var at := Place(arrivalHead, arrivalCount);
      forall k | 0 <= k < arrivalCount ensures Place(arrivalHead, k) != at {
        RingIsInjective(arrivalHead, k, arrivalCount);
      }
      arrivals[at] := index;
      arrivalCount := arrivalCount + 1;
      model := model.(waiting := model.waiting + [index]);
    }

    /** A newcomer takes a free slot and goes to the back of the line. */
    method AdmitAt(index: nat, sender: Address)
      requires Valid() && index < MAX_PEERS
      modifies this`arrivalCount, this`model, arrivals, slots[index]
      ensures Valid() && model == Admit(old(model), index, sender)
    {
      hide Table;
      ClaimAt(index, sender);
      if arrivalCount < MAX_PEERS { PushArrival(index); }
    }

    /** One round of the pump. */
    method DeliverOne(sender: Address, bytes: seq<byte>)
      requires Valid()
      modifies Repr
      ensures Valid() && fresh(Repr - old(Repr))
      ensures model == Deliver(old(model), Packet(sender, bytes))
    {
      hide Put; hide Admit; hide SameAddress;
      var chosen := SearchOwner(sender);
      if chosen == MAX_PEERS {
        chosen := SearchFree();
        if chosen == MAX_PEERS { return; }
        AdmitAt(chosen, sender);
      }
      PutAt(chosen, bytes);
    }

    method SearchOwner(sender: Address) returns (chosen: nat)
      requires Valid()
      ensures |model.slots| == MAX_PEERS && chosen == FindOwner(model.slots, sender, 0)
    {
      hide SameAddress;
      chosen := 0;
      while chosen < MAX_PEERS
        invariant 0 <= chosen <= MAX_PEERS
        invariant FindOwner(model.slots, sender, 0) == FindOwner(model.slots, sender, chosen)
      {
        assert slots[chosen].View() == model.slots[chosen];
        if slots[chosen].used && SameAddress(slots[chosen].addr, sender) { return; }
        chosen := chosen + 1;
      }
    }

    method SearchFree() returns (chosen: nat)
      requires Valid()
      ensures |model.slots| == MAX_PEERS && chosen == FindFree(model.slots, 0)
    {
      chosen := 0;
      while chosen < MAX_PEERS
        invariant 0 <= chosen <= MAX_PEERS
        invariant FindFree(model.slots, 0) == FindFree(model.slots, chosen)
      {
        assert slots[chosen].View() == model.slots[chosen];
        if !slots[chosen].used { return; }
        chosen := chosen + 1;
      }
    }

    /** Reads what has arrived, up to the bound on reads. */
    method PumpIn(arrived: seq<Packet>)
      requires Valid()
      modifies Repr
      ensures Valid() && fresh(Repr - old(Repr)) && model == Pump(old(model), arrived)
    {
      hide Table; hide Line; hide Deliver;
      if closed { return; }
      ghost var start := model;
      assert DeliverAll(start, []) == start;
      var round := 0;
      while round < MAX_READS && round < |arrived|
        invariant 0 <= round <= MAX_READS && round <= |arrived|
        invariant Valid() && fresh(Repr - old(Repr))
        invariant model == DeliverAll(start, arrived[..round])
      {
        assert arrived[..round + 1][..round] == arrived[..round];
        DeliverOne(arrived[round].sender, arrived[round].bytes);
        round := round + 1;
      }
      assert arrived[..round] == Readable(arrived);
    }

    /** The slot at the front of the line. */
    method PopArrival() returns (slot: nat)
      requires Valid() && arrivalCount > 0
      modifies this
      ensures Valid() && Repr == old(Repr) && slot == old(model).waiting[0]
      ensures model == old(model).(waiting := old(model).waiting[1..])
    {
      ghost var was := model.waiting;
      slot := arrivals[arrivalHead];
      assert slot == was[0] by { assert was[0] == arrivals[Place(arrivalHead, 0)]; }
      forall k | 0 <= k < arrivalCount - 1
        ensures was[1..][k] == arrivals[Place(Place(arrivalHead, 1), k)]
      {
        RingMovesOn(arrivalHead, k);
        assert was[k + 1] == arrivals[Place(arrivalHead, k + 1)];
      }
      arrivalHead := Place(arrivalHead, 1);
      arrivalCount := arrivalCount - 1;
      model := model.(waiting := was[1..]);
    }

    method AcceptPeer(arrived: seq<Packet>) returns (slot: Option<nat>)
      requires Valid()
      modifies Repr
      ensures Valid() && fresh(Repr - old(Repr))
      ensures (model, slot) == Accept(old(model), arrived)
    {
      hide Table; hide Pump;
      PumpIn(arrived);
      if arrivalCount == 0 { return None; }
      var front := PopArrival();
      return Some(front);
    }

    method TakeAt(index: nat, cap: nat) returns (receipt: Receipt)
      requires Valid() && index < MAX_PEERS
      modifies this, slots[index]
      ensures Valid() && Repr == old(Repr)
      ensures (model, receipt) == TakeFrom(old(model), index, cap)
    {
      receipt := slots[index].TakeFront(cap);
      model := TakeFrom(model, index, cap).0;
    }

    method PeerReceive(index: nat, arrived: seq<Packet>, cap: nat) returns (receipt: Receipt)
      requires Valid() && index < MAX_PEERS
      modifies Repr
      ensures Valid() && fresh(Repr - old(Repr))
      ensures (model, receipt) == PeerRecv(old(model), index, arrived, cap)
    {
      hide Pump; hide TakeFrom;
      PumpKeepsSize(model, arrived);
      PumpIn(arrived);
      receipt := TakeAt(index, cap);
    }

    method ClosePeer(index: nat)
      requires Valid() && index < MAX_PEERS
      modifies this, slots[index]
      ensures Valid() && Repr == old(Repr) && model == PeerClose(old(model), index)
    {
      slots[index].Clear();
      model := PeerClose(model, index);
    }

    method CloseListening()
      requires Valid()
      modifies this
      ensures Valid() && Repr == old(Repr) && model == old(model).(closed := true)
    {
      closed := true;
      model := model.(closed := true);
    }
  }
}
