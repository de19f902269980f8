/** The decider that the code generator emits beside the codecs, and its agreement
    with the one in the network runtime. */
module GeneratedHandshake {
  import opened Bytes
  import opened Schema
  import opened Handshake
  import N = Negotiation

  datatype Outcome = Current | Outdated | Refused | NeedMore

  datatype MessageCheck = Match | Mismatch | NeedPrefix(count: u32)

  /** The generated table search; the midpoint is computed from the sum. */
  method FindGenerated(table: seq<MessageSchema>, id: u32) returns (found: Option<MessageSchema>)
    requires SortedById(table)
    ensures found == Lookup(table, id)
  {
    var low, high := 0, |table|;
    while low < high
      invariant 0 <= low <= high <= |table|
      invariant forall i | 0 <= i < low :: table[i].id < id
      invariant forall i | high <= i < |table| :: id <= table[i].id
    {
      var middle := (low + high) / 2;
      if table[middle].id < id { low := middle + 1; } else { high := middle; }
    }
    LookupMisses(table, id);
    if low < |table| && table[low].id == id {
      LookupFinds(table, low);
      return Some(table[low]);
    }
    return None;
  }

  /** One of the peer's messages against the local table. */
  function CheckMessage(table: seq<MessageSchema>, id: u32, peerCount: u32, peerFingerprint: u64): MessageCheck {
    match Lookup(table, id)
    case None => Match
    case Some(known) =>
      var localCount := |known.prefixes| % 0x1_0000_0000;
      if peerFingerprint == known.fingerprint then Match
      else if peerCount == 0 || localCount == 0 then Match
      else if peerCount == localCount then Mismatch
      else if peerCount < localCount then
        (if peerCount - 1 < |known.prefixes| && known.prefixes[peerCount - 1] == peerFingerprint
         then Match else Mismatch)
      else NeedPrefix(localCount)
  }

  /** The generated comparison: search the table, then compare at the shorter length. */
  method CheckGenerated(table: seq<MessageSchema>, id: u32, peerCount: u32, peerFingerprint: u64)
    returns (check: MessageCheck)
    requires SortedById(table)
    ensures check == CheckMessage(table, id, peerCount, peerFingerprint)
  {
    var found := FindGenerated(table, id);
    if found.None? { return Match; }
    var known := found.value;
    var localCount := |known.prefixes| % 0x1_0000_0000;
    if peerFingerprint == known.fingerprint { return Match; }
    if peerCount == 0 || localCount == 0 { return Match; }
    if peerCount == localCount { return Mismatch; }
    if peerCount < localCount {
      if peerCount - 1 < |known.prefixes| && known.prefixes[peerCount - 1] == peerFingerprint { return Match; }
      return Mismatch;
    }
    return NeedPrefix(localCount);
  }

  type PeerMessage = (u32, u32, u64)

  function CheckRow(table: seq<MessageSchema>, row: PeerMessage): MessageCheck {
    CheckMessage(table, row.0, row.1, row.2)
  }

  ghost predicate Somewhere(table: seq<MessageSchema>, peer: seq<PeerMessage>, mismatch: bool) {
    exists k :: 0 <= k < |peer| &&
      (if mismatch then CheckRow(table, peer[k]) == Mismatch else CheckRow(table, peer[k]).NeedPrefix?)
  }

  /** One mismatch decides; short of that, one open question does. */
  ghost function OutcomeOf(local: Schema, peerFingerprint: u64, peer: seq<PeerMessage>): Outcome {
    if peerFingerprint == local.fingerprint then Current
    else if Somewhere(local.messages, peer, true) then Refused
    else if Somewhere(local.messages, peer, false) then NeedMore
    else Outdated
  }

  method HandshakeOutcome(local: Schema, peerFingerprint: u64, peer: seq<PeerMessage>) returns (r: Outcome)
    requires SortedById(local.messages)
    ensures r == OutcomeOf(local, peerFingerprint, peer)
  {
    if peerFingerprint == local.fingerprint { return Current; }
    var needMore := false;
    var index := 0;
    while index < |peer|
      invariant 0 <= index <= |peer|
      invariant forall k | 0 <= k < index :: CheckRow(local.messages, peer[k]) != Mismatch
      invariant needMore <==> exists k :: 0 <= k < index && CheckRow(local.messages, peer[k]).NeedPrefix?
    {
      var (id, count, fingerprint) := peer[index];
      var check := CheckGenerated(local.messages, id, count, fingerprint);
      match check {
        case Mismatch => return Refused;
        case NeedPrefix(_) => needMore := true;
        case Match =>
      }
      index := index + 1;
    }
    return if needMore then NeedMore else Outdated;
  }

  function RowOf(e: HelloEntry): PeerMessage {
    (e.id, e.fieldCount, e.fingerprint)
  }

  function PeerTable(entries: seq<HelloEntry>): seq<PeerMessage> {
    seq(|entries|, i requires 0 <= i < |entries| => RowOf(entries[i]))
  }

  lemma ChecksAgree(local: Schema, e: HelloEntry)
    requires WellFormed(local)
    ensures CheckEntry(local.messages, e) ==
      match CheckRow(local.messages, RowOf(e))
      case Match => Agrees
      case Mismatch => Conflicts
      case NeedPrefix(count) => if count < 0x1_0000 then NeedsPrefix(count) else Agrees
    ensures CheckRow(local.messages, RowOf(e)).NeedPrefix? ==> CheckRow(local.messages, RowOf(e)).count < 0x1_0000
  {
    LookupIsMember(local.messages, e.id);
  }

  /** What the generated comparison means, for a message of a peer's schema: a match is
      compatible or unknown here, a mismatch is incompatible, and a question is
      decided by the peer's fingerprint at the count asked for. */
  lemma CheckMeaning(peer: Schema, local: Schema, i: nat)
    requires WellFormed(peer) && WellFormed(local) && i < |peer.messages|
    ensures var m := peer.messages[i]; var known := Lookup(local.messages, m.id);
      match CheckMessage(local.messages, m.id, |m.prefixes|, m.fingerprint)
      case Match => known.None? || N.MessageCompatible(m, known.value)
      case Mismatch => known.Some? && !N.MessageCompatible(m, known.value)
      case NeedPrefix(count) =>
        && known.Some? && 0 < count < |m.prefixes|
        && (N.MessageCompatible(m, known.value) <==> m.prefixes[count - 1] == known.value.fingerprint)
  {
    var m := peer.messages[i];
    assert RowOf(EntryOf(m)) == (m.id, |m.prefixes|, m.fingerprint);
    ChecksAgree(local, EntryOf(m));
    N.CheckEntryMeaning(peer, local, i);
    hide CheckMessage; hide CheckEntry; hide N.MessageCompatible;
  }

  /** The runtime's decider and the generated one agree on every table of distinct
      ids: accept, refuse or ask, and the questions are the open ones in table order. */
  lemma DecidersAgree(local: Schema, hello: Hello)
    requires WellFormed(local) && N.DistinctIds(hello.entries)
    ensures var decision := Decide(local, hello, |local.messages|);
      var outcome := OutcomeOf(local, hello.fingerprint, PeerTable(hello.entries));
      && (decision.Accept? <==> outcome.Current? || outcome.Outdated?)
      && (decision.Reject? <==> outcome.Refused?)
      && (decision.Reject? ==> decision.verdict == VSchemaConflict)
      && (decision.Query? <==> outcome.NeedMore?)
      && (decision.Query? ==> decision.items == N.Needs(local.messages, hello.entries))
  {
    N.DecideMeaning(local, hello, |local.messages|);
    var entries, peer := hello.entries, PeerTable(hello.entries);
    forall k | 0 <= k < |entries|
      ensures CheckEntry(local.messages, entries[k]).Conflicts? <==> CheckRow(local.messages, peer[k]) == Mismatch
      ensures CheckEntry(local.messages, entries[k]).NeedsPrefix? <==> CheckRow(local.messages, peer[k]).NeedPrefix?
    {
      ChecksAgree(local, entries[k]);
    }
    hide CheckEntry; hide CheckMessage; hide CheckRow;
    QuestionsExist(local.messages, entries);
    if N.HasConflict(local.messages, entries) {
      var e :| e in entries && CheckEntry(local.messages, e).Conflicts?;
      var k :| 0 <= k < |entries| && entries[k] == e;
      assert CheckRow(local.messages, peer[k]) == Mismatch;
    }
    if Somewhere(local.messages, peer, true) {
      var k :| 0 <= k < |peer| && CheckRow(local.messages, peer[k]) == Mismatch;
      assert entries[k] in entries;
    }
  }

  lemma QuestionsExist(messages: seq<MessageSchema>, entries: seq<HelloEntry>)
    ensures N.Needs(messages, entries) != [] <==>
      exists k :: 0 <= k < |entries| && CheckEntry(messages, entries[k]).NeedsPrefix?
  {
    hide CheckEntry;
    if k :| 0 <= k < |entries| && CheckEntry(messages, entries[k]).NeedsPrefix? {
      N.NeedsCovers(messages, entries, k);
    }
    if N.Needs(messages, entries) != [] {
      N.NeedsOrigin(messages, entries, 0);
    }
  }
}
