/** The queue of a slot as the linked list it is. */
module UdpSlot {
  import opened Bytes
  import opened Udp

  class Datagram {
    var next: Datagram?
    const bytes: seq<byte>

    constructor (bytes: seq<byte>)
      ensures this.bytes == bytes && next == null
    {
      this.bytes, next := bytes, null;
    }
  }

  class SlotCell {
    var used: bool
    var addr: Address
    var head: Datagram?
    var tail: Datagram?
    var queued: nat
    ghost var nodes: seq<Datagram>
    ghost var Repr: set<object>

    /** The nodes, in order, are what following `next` from `head` visits. */
    ghost predicate Linked()
      reads this, nodes
    {
      && (forall i, j | 0 <= i < j < |nodes| && j == i + 1 :: nodes[i].next == nodes[j])
      && (|nodes| > 0 ==> nodes[|nodes| - 1].next == null)
      && (forall i, j | 0 <= i < j < |nodes| :: nodes[i] != nodes[j])
    }

    ghost predicate Valid()
      reads this, Repr
    {
      && this in Repr && (forall n | n in nodes :: n in Repr)
      && queued == |nodes|
      && head == (if nodes == [] then null else nodes[0])
      && tail == (if nodes == [] then null else nodes[|nodes| - 1])
      && Linked()
    }

    ghost function BytesOf(list: seq<Datagram>): seq<seq<byte>> {
      seq(|list|, i requires 0 <= i < |list| => list[i].bytes)
    }

    ghost function Contents(): seq<seq<byte>>
      reads this
    {
      BytesOf(nodes)
    }

    ghost function View(): Slot
      reads this
    {
      Slot(used, addr, Contents())
    }

    constructor ()
      ensures Valid() && View() == FRESH_SLOT && fresh(Repr)
    {
      used, addr := false, FRESH_SLOT.addr;
      head, tail, queued := null, null, 0;
      nodes, Repr := [], {this};
    }

    method DropOldest()
      requires Valid() && head != null
      modifies this
      ensures Valid() && Repr == old(Repr)
      ensures View() == old(View()).(queue := old(Contents())[1..])
    {
      ghost var was := nodes;
      assert |nodes| > 1 ==> nodes[0].next == nodes[1];
      head := head.next;
      if head == null { tail := null; }
      queued := queued - 1;
      nodes := nodes[1..];
      forall i | 0 <= i < |nodes| ensures nodes[i] == was[i + 1] {}
      assert BytesOf(nodes) == BytesOf(was)[1..];
    }

    method Append(bytes: seq<byte>)
      requires Valid()
      modifies Repr
      ensures Valid() && fresh(Repr - old(Repr))
      ensures View() == old(View()).(queue := old(Contents()) + [bytes])
    {
      var datagram := new Datagram(bytes);
      if tail == null {
        head := datagram;
      } else {
        tail.next := datagram;
      }
      tail := datagram;
      queued := queued + 1;
      nodes := nodes + [datagram];
      Repr := Repr + {datagram};
    }

    /** A full queue drops its oldest datagram first. */
    method Enqueue(bytes: seq<byte>)
      requires Valid()
      modifies Repr
      ensures Valid() && fresh(Repr - old(Repr))
      ensures View() == old(View()).(queue := Udp.Enqueue(old(Contents()), bytes))
    {
      if queued >= MAX_QUEUED { DropOldest(); }
      Append(bytes);
    }

    /** The front datagram, if there is one and the buffer has room for it. */
    method TakeFront(cap: nat) returns (receipt: Receipt)
      requires Valid()
      modifies this
      ensures Valid() && Repr == old(Repr)
      ensures var queue := old(Contents());
        if queue == [] then receipt == WouldBlock && View() == old(View())
        else if |queue[0]| > cap then receipt == NeedCapacity(|queue[0]|) && View() == old(View())
        else receipt == Received(queue[0]) && View() == old(View()).(queue := queue[1..])
    {
      if head == null { return WouldBlock; }
      assert Contents()[0] == head.bytes;
      if |head.bytes| > cap { return NeedCapacity(|head.bytes|); }
      receipt := Received(head.bytes);
      DropOldest();
    }

    method Claim(sender: Address)
      requires Valid()
      modifies this
      ensures Valid() && Repr == old(Repr) && View() == Slot(true, sender, [])
    {
      used, addr := true, sender;
      head, tail, queued := null, null, 0;
      nodes := [];
    }

    /** Frees the list node by node. */
    method Clear()
      requires Valid()
      modifies this
      ensures Valid() && Repr == old(Repr)
      ensures View() == old(View()).(used := false, queue := [])
    {
      var walk := head;
      ghost var freed := 0;
      while walk != null
        invariant Valid() && nodes == old(nodes) && View() == old(View()) && Repr == old(Repr)
        invariant 0 <= freed <= |nodes|
        invariant walk == if freed < |nodes| then nodes[freed] else null
        decreases |nodes| - freed
      {
        walk := walk.next;
        freed := freed + 1;
      }
      assert freed == |nodes|;
      head, tail, queued := null, null, 0;
      used := false;
      nodes := [];
    }
  }
}
