/** What the handshake decides: the meaning of the decision procedure, of the extra
    query round, and of the verdict they add up to. */
module Negotiation {
  import opened Bytes
  import opened Schema
  import opened Handshake

  // ---- Meaning of compatibility ------------------------------------------------

  /** Two versions of one message agree on the fields that both carry. */
  predicate MessageCompatible(a: MessageSchema, b: MessageSchema) {
    || a.fingerprint == b.fingerprint
    || |a.prefixes| == 0 || |b.prefixes| == 0
    || (var shared := if |a.prefixes| < |b.prefixes| then |a.prefixes| else |b.prefixes|;
        a.prefixes[shared - 1] == b.prefixes[shared - 1])
  }

  ghost predicate Compatible(a: Schema, b: Schema) {
    a.fingerprint == b.fingerprint ||
    forall i, j | 0 <= i < |a.messages| && 0 <= j < |b.messages| && a.messages[i].id == b.messages[j].id ::
      MessageCompatible(a.messages[i], b.messages[j])
  }

  lemma CompatibleIsSymmetric(a: Schema, b: Schema)
    ensures Compatible(a, b) <==> Compatible(b, a)
  {
    forall i, j | 0 <= i < |a.messages| && 0 <= j < |b.messages|
      ensures MessageCompatible(a.messages[i], b.messages[j]) <==> MessageCompatible(b.messages[j], a.messages[i])
    {
    }
  }

  // ---- Meaning of the decision loop --------------------------------------------

  ghost predicate DistinctIds(entries: seq<HelloEntry>) {
    forall i, j | 0 <= i < j < |entries| :: entries[i].id != entries[j].id
  }

  ghost predicate HasConflict(messages: seq<MessageSchema>, entries: seq<HelloEntry>) {
    exists e | e in entries :: CheckEntry(messages, e).Conflicts?
  }

  /** What has to be asked, in table order. */
  function Needs(messages: seq<MessageSchema>, entries: seq<HelloEntry>): seq<QueryItem> {
    if entries == [] then []
    else
      (match CheckEntry(messages, entries[0])
       case NeedsPrefix(count) => [QueryItem(entries[0].id, count)]
       case _ => [])
      + Needs(messages, entries[1..])
  }

  lemma {:induction false} DecideRestMeaning(messages: seq<MessageSchema>, rest: seq<HelloEntry>,
                                             asked: seq<QueryItem>, cap: nat)
    requires |asked| + |Needs(messages, rest)| <= cap
    ensures DecideRest(messages, rest, asked, cap) ==
      if HasConflict(messages, rest) then Reject(VSchemaConflict)
      else if asked + Needs(messages, rest) == [] then Accept
      else Query(asked + Needs(messages, rest))
  {
    if rest == [] {
      assert asked + [] == asked;
    } else {
      hide CheckEntry;
      var later := rest[1..];
      assert forall e :: e in rest <==> e == rest[0] || e in later;
      match CheckEntry(messages, rest[0])
      case Conflicts =>
      case Agrees =>
        assert Needs(messages, rest) == Needs(messages, later);
        DecideRestMeaning(messages, later, asked, cap);
      case NeedsPrefix(count) =>
        var item := QueryItem(rest[0].id, count);
        DecideRestMeaning(messages, later, asked + [item], cap);
        assert asked + [item] + Needs(messages, later) == asked + ([item] + Needs(messages, later));
    }
  }

  function Ids(messages: seq<MessageSchema>): (r: set<u32>)
    ensures |r| <= |messages|
  {
    if messages == [] then {} else {messages[0].id} + Ids(messages[1..])
  }

  function NeededIds(messages: seq<MessageSchema>, entries: seq<HelloEntry>): set<u32> {
    set e | e in entries && CheckEntry(messages, e).NeedsPrefix? :: e.id
  }

  lemma {:induction false} LookupInIds(messages: seq<MessageSchema>, id: u32)
    requires Lookup(messages, id).Some?
    ensures id in Ids(messages)
  {
    if messages[0].id != id { LookupInIds(messages[1..], id); }
  }

  lemma {:induction false} NeedsCount(messages: seq<MessageSchema>, entries: seq<HelloEntry>)
    requires DistinctIds(entries)
    ensures |Needs(messages, entries)| == |NeededIds(messages, entries)|
  {
    if entries != [] {
      hide CheckEntry;
      var first, later := entries[0], entries[1..];
      NeedsCount(messages, later);
      assert forall e :: e in entries <==> e == first || e in later;
      assert first.id !in NeededIds(messages, later);
      if CheckEntry(messages, first).NeedsPrefix? {
        assert NeededIds(messages, entries) == {first.id} + NeededIds(messages, later);
      } else {
        assert NeededIds(messages, entries) == NeededIds(messages, later);
      }
    }
  }

  lemma {:induction false} SubsetIsNotLarger<T>(a: set<T>, b: set<T>)
    requires a <= b
    ensures |a| <= |b|
  {
    assert b == a + (b - a);
  }

  /** With distinct ids, no more is asked than the local schema has messages, so the
      query cap is never reached. */
  lemma NeedsWithinCap(messages: seq<MessageSchema>, entries: seq<HelloEntry>)
    requires DistinctIds(entries)
    ensures |Needs(messages, entries)| <= |messages|
  {
    NeedsCount(messages, entries);
    forall e | e in entries && CheckEntry(messages, e).NeedsPrefix? ensures e.id in Ids(messages) {
      LookupInIds(messages, e.id);
    }
    SubsetIsNotLarger(NeededIds(messages, entries), Ids(messages));
  }

  lemma {:induction false} NeedsWithinEntries(messages: seq<MessageSchema>, entries: seq<HelloEntry>)
    ensures |Needs(messages, entries)| <= |entries|
  {
    hide CheckEntry;
    if entries != [] { NeedsWithinEntries(messages, entries[1..]); }
  }

  /** The decision in closed form: one conflict refuses, otherwise exactly the
      undecidable lines are asked, in order, and never is a table of distinct ids
      called malformed. */
  lemma DecideMeaning(local: Schema, hello: Hello, cap: nat)
    requires DistinctIds(hello.entries) && cap >= |local.messages|
    ensures Decide(local, hello, cap) ==
      if hello.fingerprint == local.fingerprint then Accept
      else if HasConflict(local.messages, hello.entries) then Reject(VSchemaConflict)
      else if Needs(local.messages, hello.entries) == [] then Accept
      else Query(Needs(local.messages, hello.entries))
  {
    NeedsWithinCap(local.messages, hello.entries);
    DecideRestMeaning(local.messages, hello.entries, [], cap);
    assert [] + Needs(local.messages, hello.entries) == Needs(local.messages, hello.entries);
  }

  // ---- Meaning of the whole exchange -------------------------------------------

  /** The client's message at `i` as the server knows it, if it does. */
  function Counterpart(c: Schema, s: Schema, i: nat): Option<MessageSchema>
    requires i < |c.messages|
  {
    Lookup(s.messages, c.messages[i].id)
  }

  lemma EntriesAreDistinct(c: Schema)
    requires WellFormed(c)
    ensures DistinctIds(HelloOf(c).entries)
  {
  }

  /** Per message: agreement, conflict, or a question whose answer will decide. */
  lemma CheckEntryMeaning(c: Schema, s: Schema, i: nat)
    requires WellFormed(c) && WellFormed(s) && i < |c.messages|
    ensures var check := CheckEntry(s.messages, EntryOf(c.messages[i])); var k := Counterpart(c, s, i);
      && (check.Agrees? ==> k.None? || MessageCompatible(c.messages[i], k.value))
      && (check.Conflicts? ==> k.Some? && !MessageCompatible(c.messages[i], k.value))
      && (check.NeedsPrefix? ==>
            && k.Some? && check.count == |k.value.prefixes| && 0 < check.count < |c.messages[i].prefixes|
            && (MessageCompatible(c.messages[i], k.value)
                <==> c.messages[i].prefixes[check.count - 1] == k.value.fingerprint))
  {
    LookupIsMember(s.messages, c.messages[i].id);
  }

  lemma CompatibleByLookup(c: Schema, s: Schema)
    requires WellFormed(c) && WellFormed(s) && c.fingerprint != s.fingerprint
    ensures Compatible(c, s) <==>
      forall i | 0 <= i < |c.messages| ::
        Counterpart(c, s, i).Some? ==> MessageCompatible(c.messages[i], Counterpart(c, s, i).value)
  {
    hide MessageCompatible;
    forall i, j | 0 <= i < |c.messages| && 0 <= j < |s.messages| && c.messages[i].id == s.messages[j].id
      ensures Counterpart(c, s, i) == Some(s.messages[j])
    {
      LookupFinds(s.messages, j);
    }
    forall i | 0 <= i < |c.messages| && Counterpart(c, s, i).Some?
      ensures exists j | 0 <= j < |s.messages| ::
        s.messages[j].id == c.messages[i].id && Counterpart(c, s, i) == Some(s.messages[j])
    {
      LookupIsMember(s.messages, c.messages[i].id);
      var j :| 0 <= j < |s.messages| && s.messages[j] == Counterpart(c, s, i).value;
    }
  }

  /** Every question stems from one of the client's messages. */
  ghost predicate AskedOf(c: Schema, s: Schema, q: QueryItem, i: nat) {
    && i < |c.messages|
    && CheckEntry(s.messages, EntryOf(c.messages[i])) == NeedsPrefix(q.fieldCount)
    && q.id == c.messages[i].id
  }

  lemma {:induction false} NeedsOrigin(messages: seq<MessageSchema>, entries: seq<HelloEntry>, at: nat)
    requires at < |Needs(messages, entries)|
    ensures exists i :: 0 <= i < |entries| && entries[i].id == Needs(messages, entries)[at].id
              && CheckEntry(messages, entries[i]) == NeedsPrefix(Needs(messages, entries)[at].fieldCount)
  {
    hide CheckEntry;
    var own := if CheckEntry(messages, entries[0]).NeedsPrefix? then 1 else 0;
    if at < own {
      assert entries[0].id == Needs(messages, entries)[at].id;
    } else {
      assert Needs(messages, entries)[at] == Needs(messages, entries[1..])[at - own];
      NeedsOrigin(messages, entries[1..], at - own);
      var i :| 0 <= i < |entries[1..]| && entries[1..][i].id == Needs(messages, entries)[at].id
        && CheckEntry(messages, entries[1..][i]) == NeedsPrefix(Needs(messages, entries)[at].fieldCount);
      assert entries[i + 1] == entries[1..][i];
    }
  }

  lemma {:induction false} NeedsCovers(messages: seq<MessageSchema>, entries: seq<HelloEntry>, i: nat)
    requires i < |entries| && CheckEntry(messages, entries[i]).NeedsPrefix?
    ensures QueryItem(entries[i].id, CheckEntry(messages, entries[i]).count) in Needs(messages, entries)
  {
    hide CheckEntry;
    if i > 0 { NeedsCovers(messages, entries[1..], i - 1); }
  }

  lemma QuestionOrigin(c: Schema, s: Schema, q: QueryItem) returns (i: nat)
    requires q in Needs(s.messages, HelloOf(c).entries)
    ensures AskedOf(c, s, q, i)
  {
    var needs := Needs(s.messages, HelloOf(c).entries);
    var at :| 0 <= at < |needs| && needs[at] == q;
    NeedsOrigin(s.messages, HelloOf(c).entries, at);
    i :| 0 <= i < |c.messages| && HelloOf(c).entries[i].id == q.id
      && CheckEntry(s.messages, HelloOf(c).entries[i]) == NeedsPrefix(q.fieldCount);
  }

  /** A client can answer every question the server may ask it, and its answer
      matches what the server expects iff the message is compatible. */
  lemma AnswerMeaning(c: Schema, s: Schema, q: QueryItem, i: nat)
    requires WellFormed(c) && WellFormed(s) && AskedOf(c, s, q, i)
    ensures AnswerItem(c.messages, q) == Some(ReplyItem(q.id, c.messages[i].prefixes[q.fieldCount - 1]))
    ensures Counterpart(c, s, i).Some?
    ensures Expected(s.messages, q) == Some(Counterpart(c, s, i).value.fingerprint)
    ensures AnswerItem(c.messages, q).value.fingerprint == Counterpart(c, s, i).value.fingerprint
            <==> MessageCompatible(c.messages[i], Counterpart(c, s, i).value)
  {
    CheckEntryMeaning(c, s, i);
    LookupFinds(c.messages, i);
    LookupIsMember(s.messages, q.id);
  }

  lemma {:induction false} ReplyVerdictMeaning(messages: seq<MessageSchema>, asked: seq<QueryItem>,
                                               reply: seq<ReplyItem>, index: nat)
    requires |asked| == |reply| && index <= |asked|
    requires forall k | 0 <= k < |asked| :: asked[k].id == reply[k].id
    ensures ReplyVerdictFrom(messages, asked, reply, index) ==
      if forall k | index <= k < |asked| :: Expected(messages, asked[k]) == Some(reply[k].fingerprint)
      then VAccept else VSchemaConflict
    decreases |asked| - index
  {
    hide Expected;
    if index < |asked| { ReplyVerdictMeaning(messages, asked, reply, index + 1); }
  }

  /** The verdict two schemas arrive at: the server's decision on the client's hello,
      with the client's answers when it asks. */
  function Settled(c: Schema, s: Schema): Verdict {
    match Decide(s, HelloOf(c), |s.messages|)
    case Accept => VAccept
    case Reject(verdict) => verdict
    case Query(items) =>
      if Answerable(c.messages, items) then ReplyVerdict(s.messages, items, Answers(c.messages, items))
      else VMalformedHello
  }

  /** The questions asked are all answerable, and all answered right iff every
      message asked about is compatible. */
  lemma QueryRoundMeaning(c: Schema, s: Schema)
    requires WellFormed(c) && WellFormed(s)
    ensures var items := Needs(s.messages, HelloOf(c).entries);
      && Answerable(c.messages, items)
      && ReplyVerdict(s.messages, items, Answers(c.messages, items)) ==
         if forall i | 0 <= i < |c.messages| ::
              CheckEntry(s.messages, EntryOf(c.messages[i])).NeedsPrefix? ==>
                Counterpart(c, s, i).Some? && MessageCompatible(c.messages[i], Counterpart(c, s, i).value)
         then VAccept else VSchemaConflict
  {
    var items := Needs(s.messages, HelloOf(c).entries);
    forall k | 0 <= k < |items| ensures AnswerItem(c.messages, items[k]).Some?
        && AnswerItem(c.messages, items[k]).value.id == items[k].id {
      var i := QuestionOrigin(c, s, items[k]);
      AnswerMeaning(c, s, items[k], i);
    }
    var reply := Answers(c.messages, items);
    ReplyVerdictMeaning(s.messages, items, reply, 0);
    RightAnswersMeanCompatible(c, s, items, reply);
  }

  lemma RightAnswersMeanCompatible(c: Schema, s: Schema, items: seq<QueryItem>, reply: seq<ReplyItem>)
    requires WellFormed(c) && WellFormed(s)
    requires items == Needs(s.messages, HelloOf(c).entries)
    requires Answerable(c.messages, items) && reply == Answers(c.messages, items)
    ensures (forall k | 0 <= k < |items| :: Expected(s.messages, items[k]) == Some(reply[k].fingerprint))
       <==> forall i | 0 <= i < |c.messages| ::
              CheckEntry(s.messages, EntryOf(c.messages[i])).NeedsPrefix? ==>
                Counterpart(c, s, i).Some? && MessageCompatible(c.messages[i], Counterpart(c, s, i).value)
  {
    if forall k | 0 <= k < |items| :: Expected(s.messages, items[k]) == Some(reply[k].fingerprint) {
      forall i | 0 <= i < |c.messages| && CheckEntry(s.messages, EntryOf(c.messages[i])).NeedsPrefix?
        ensures Counterpart(c, s, i).Some? && MessageCompatible(c.messages[i], Counterpart(c, s, i).value)
      {
        NeedsCovers(s.messages, HelloOf(c).entries, i);
        var q := QueryItem(c.messages[i].id, CheckEntry(s.messages, EntryOf(c.messages[i])).count);
        var k :| 0 <= k < |items| && items[k] == q;
        AnswerMeaning(c, s, q, i);
      }
    } else {
      var k :| 0 <= k < |items| && Expected(s.messages, items[k]) != Some(reply[k].fingerprint);
      var i := QuestionOrigin(c, s, items[k]);
      AnswerMeaning(c, s, items[k], i);
    }
  }

  /** Each line of the hello, judged: what is not asked is decided rightly. */
  ghost predicate JudgedRight(c: Schema, s: Schema) {
    forall i | 0 <= i < |c.messages| ::
      var check := CheckEntry(s.messages, EntryOf(c.messages[i])); var k := Counterpart(c, s, i);
      && (check.Agrees? ==> k.None? || MessageCompatible(c.messages[i], k.value))
      && (check.Conflicts? ==> k.Some? && !MessageCompatible(c.messages[i], k.value))
      && (check.NeedsPrefix? ==> k.Some?)
  }

  lemma EveryLineJudgedRight(c: Schema, s: Schema)
    requires WellFormed(c) && WellFormed(s)
    ensures JudgedRight(c, s)
  {
    forall i | 0 <= i < |c.messages|
      ensures var check := CheckEntry(s.messages, EntryOf(c.messages[i])); var k := Counterpart(c, s, i);
        && (check.Agrees? ==> k.None? || MessageCompatible(c.messages[i], k.value))
        && (check.Conflicts? ==> k.Some? && !MessageCompatible(c.messages[i], k.value))
        && (check.NeedsPrefix? ==> k.Some?)
    {
      CheckEntryMeaning(c, s, i);
    }
  }

  lemma ConflictLine(c: Schema, s: Schema) returns (i: nat)
    requires HasConflict(s.messages, HelloOf(c).entries)
    ensures i < |c.messages| && CheckEntry(s.messages, EntryOf(c.messages[i])).Conflicts?
  {
    hide CheckEntry;
    var entries := HelloOf(c).entries;
    var e :| e in entries && CheckEntry(s.messages, e).Conflicts?;
    i :| 0 <= i < |entries| && entries[i] == e;
  }

  lemma NoConflictLine(c: Schema, s: Schema)
    requires !HasConflict(s.messages, HelloOf(c).entries)
    ensures forall i | 0 <= i < |c.messages| :: !CheckEntry(s.messages, EntryOf(c.messages[i])).Conflicts?
    ensures Needs(s.messages, HelloOf(c).entries) == [] ==>
      forall i | 0 <= i < |c.messages| :: CheckEntry(s.messages, EntryOf(c.messages[i])).Agrees?
  {
    hide CheckEntry;
    var entries := HelloOf(c).entries;
    forall i | 0 <= i < |c.messages|
      ensures !CheckEntry(s.messages, EntryOf(c.messages[i])).Conflicts?
      ensures Needs(s.messages, entries) == [] ==> CheckEntry(s.messages, EntryOf(c.messages[i])).Agrees?
    {
      assert EntryOf(c.messages[i]) == entries[i] && entries[i] in entries;
      if CheckEntry(s.messages, entries[i]).NeedsPrefix? { NeedsCovers(s.messages, entries, i); }
    }
  }

  /** The verdict is right: accepted iff compatible, and otherwise a conflict is
      reported - never a malformed or unanswerable exchange. */
  lemma SettledMeaning(c: Schema, s: Schema)
    requires WellFormed(c) && WellFormed(s)
    ensures Settled(c, s) == if Compatible(c, s) then VAccept else VSchemaConflict
  {
    hide CheckEntry; hide MessageCompatible; hide Lookup; hide Needs; hide DecideRest; hide Answerable;
    hide HasConflict;
    if c.fingerprint != s.fingerprint {
      EntriesAreDistinct(c);
      DecideMeaning(s, HelloOf(c), |s.messages|);
      CompatibleByLookup(c, s);
      EveryLineJudgedRight(c, s);
      if HasConflict(s.messages, HelloOf(c).entries) {
        var i := ConflictLine(c, s);
      } else {
        NoConflictLine(c, s);
        QueryRoundMeaning(c, s);
      }
    }
  }

  /** Who is the client does not matter. */
  lemma NegotiationIsSymmetric(c: Schema, s: Schema)
    requires WellFormed(c) && WellFormed(s)
    ensures Settled(c, s) == Settled(s, c)
  {
    SettledMeaning(c, s);
    SettledMeaning(s, c);
    CompatibleIsSymmetric(c, s);
  }

  // ---- What it means for the field lists ---------------------------------------

  /** `fields` gives each message's field list, and `hash` the fingerprint of a message
      with a given id and field list. */
  ghost predicate Describes<F>(s: Schema, fields: map<u32, seq<F>>, hash: (u32, seq<F>) -> u64) {
    && (forall i | 0 <= i < |s.messages| :: s.messages[i].id in fields)
    && (forall id | id in fields :: exists i | 0 <= i < |s.messages| :: s.messages[i].id == id)
    && forall i | 0 <= i < |s.messages| :: Fingerprints(s.messages[i], fields[s.messages[i].id], hash)
  }

  ghost predicate Fingerprints<F>(m: MessageSchema, list: seq<F>, hash: (u32, seq<F>) -> u64) {
    && m.fingerprint == hash(m.id, list) && |m.prefixes| == |list|
    && forall k | 0 <= k < |list| :: m.prefixes[k] == hash(m.id, list[..k + 1])
  }

  predicate OnePrefixesTheOther<F(==)>(a: seq<F>, b: seq<F>) {
    a <= b || b <= a
  }

  /** Two lists that disagree on a shared field, and yet one of the two comparisons of
      the exchange cannot tell: of the whole lists, or as far as both reach. */
  predicate Confused<F(==)>(id: u32, x: seq<F>, y: seq<F>, hash: (u32, seq<F>) -> u64) {
    var shared := if |x| < |y| then |x| else |y|;
    && !OnePrefixesTheOther(x, y)
    && (hash(id, x) == hash(id, y) || hash(id, x[..shared]) == hash(id, y[..shared]))
  }

  lemma MessageCompatibleMeaning<F>(a: MessageSchema, b: MessageSchema, x: seq<F>, y: seq<F>,
                                    hash: (u32, seq<F>) -> u64)
    requires Fingerprints(a, x, hash) && Fingerprints(b, y, hash) && a.id == b.id
    ensures MessageCompatible(a, b) <==> OnePrefixesTheOther(x, y) || Confused(a.id, x, y, hash)
  {
    var shared := if |x| < |y| then |x| else |y|;
    assert OnePrefixesTheOther(x, y) <==> x[..shared] == y[..shared] by {
      assert |x| == shared ==> x[..shared] == x;
      assert |y| == shared ==> y[..shared] == y;
    }
    if shared > 0 {
      assert a.prefixes[shared - 1] == hash(a.id, x[..shared]);
      assert b.prefixes[shared - 1] == hash(a.id, y[..shared]);
    }
  }

  /** Exactly when two schemas are accepted, whatever the fingerprints: the schema
      fingerprints agree, or on every shared message the shorter field list is a
      beginning of the longer or is confused with it. */
  lemma AcceptedExactly<F>(c: Schema, s: Schema, cf: map<u32, seq<F>>, sf: map<u32, seq<F>>,
                           hash: (u32, seq<F>) -> u64)
    requires WellFormed(c) && WellFormed(s) && Describes(c, cf, hash) && Describes(s, sf, hash)
    ensures Settled(c, s) == VAccept <==>
      || c.fingerprint == s.fingerprint
      || forall id | id in cf && id in sf :: OnePrefixesTheOther(cf[id], sf[id]) || Confused(id, cf[id], sf[id], hash)
  {
    SettledMeaning(c, s);
    hide MessageCompatible; hide Settled; hide Confused; hide OnePrefixesTheOther;
    forall i, j | 0 <= i < |c.messages| && 0 <= j < |s.messages| && c.messages[i].id == s.messages[j].id
      ensures var id := c.messages[i].id;
        MessageCompatible(c.messages[i], s.messages[j])
        <==> OnePrefixesTheOther(cf[id], sf[id]) || Confused(id, cf[id], sf[id], hash)
    {
      MessageCompatibleMeaning(c.messages[i], s.messages[j], cf[c.messages[i].id], sf[c.messages[i].id], hash);
    }
    if Compatible(c, s) && c.fingerprint != s.fingerprint {
      forall id | id in cf && id in sf
        ensures OnePrefixesTheOther(cf[id], sf[id]) || Confused(id, cf[id], sf[id], hash)
      {
        var i :| 0 <= i < |c.messages| && c.messages[i].id == id;
        var j :| 0 <= j < |s.messages| && s.messages[j].id == id;
      }
    }
  }

  /** Fingerprints tell apart the beginnings of the two field lists of a shared message. */
  ghost predicate TellsApart<F(!new)>(cf: map<u32, seq<F>>, sf: map<u32, seq<F>>, hash: (u32, seq<F>) -> u64) {
    forall id, l: seq<F>, m: seq<F> {:trigger hash(id, l), hash(id, m)}
      | id in cf && id in sf && l <= cf[id] && m <= sf[id] :: hash(id, l) == hash(id, m) ==> l == m
  }

  /** So, if fingerprints tell apart what the exchange compares, two schemas are accepted
      iff on every shared message the shorter field list is a beginning of the longer. */
  lemma AcceptedMeansPrefixes<F(!new)>(c: Schema, s: Schema, cf: map<u32, seq<F>>, sf: map<u32, seq<F>>,
                                       hash: (u32, seq<F>) -> u64)
    requires WellFormed(c) && WellFormed(s) && Describes(c, cf, hash) && Describes(s, sf, hash)
    requires TellsApart(cf, sf, hash)
    requires c.fingerprint == s.fingerprint ==> cf == sf
    ensures Settled(c, s) == VAccept <==>
      forall id | id in cf && id in sf :: OnePrefixesTheOther(cf[id], sf[id])
  {
    AcceptedExactly(c, s, cf, sf, hash);
    hide Settled; hide Describes; hide WellFormed;
    forall id | id in cf && id in sf ensures !Confused(id, cf[id], sf[id], hash) {
      var x, y := cf[id], sf[id];
      var shared := if |x| < |y| then |x| else |y|;
      assert x[..shared] <= x && y[..shared] <= y;
      assert |x| == shared ==> x[..shared] == x;
      assert |y| == shared ==> y[..shared] == y;
    }
  }

  // ---- Both outcomes, and the exception, on one message ------------------------

  /** A small fingerprint: the length of the list and its last field. */
  function Mark(id: u32, list: seq<byte>): u64 {
    if 0 < |list| <= 7 then 256 * |list| + list[|list| - 1] as nat else 0
  }

  /** The schema of one message with these fields. */
  function Table(fingerprint: u64, list: seq<byte>): Schema {
    var prefixes := seq(|list|, k requires 0 <= k < |list| => Mark(7, list[..k + 1]));
    Schema(fingerprint, [MessageSchema(7, Mark(7, list), prefixes)])
  }

  lemma TableDescribes(fingerprint: u64, list: seq<byte>)
    requires |list| <= 7
    ensures WellFormed(Table(fingerprint, list)) && Describes(Table(fingerprint, list), map[7 := list], Mark)
  {
    assert list[..|list|] == list;
    assert Table(fingerprint, list).messages[0].id == 7;
  }

  lemma TablesSettle(f: u64, x: seq<byte>, g: u64, y: seq<byte>)
    requires |x| <= 7 && |y| <= 7 && f != g
    ensures Settled(Table(f, x), Table(g, y)) ==
      if OnePrefixesTheOther(x, y) || Confused(7, x, y, Mark) then VAccept else VSchemaConflict
  {
    TableDescribes(f, x);
    TableDescribes(g, y);
    SettledMeaning(Table(f, x), Table(g, y));
    AcceptedExactly(Table(f, x), Table(g, y), map[7 := x], map[7 := y], Mark);
    hide Settled; hide Describes; hide WellFormed; hide Compatible; hide Confused; hide OnePrefixesTheOther;
  }

  const ORIGINAL: seq<byte> := [1, 2]
  const GROWN: seq<byte> := [1, 2, 3]
  const CHANGED: seq<byte> := [1, 5]
  const LOOKALIKE: seq<byte> := [3, 2]

  /** A list grown by a field is told apart and accepted, a changed one told apart and
      refused; one that `Mark` confuses is accepted although it is no prefix. */
  lemma OneMessageDecides()
    ensures TellsApart(map[7 := ORIGINAL], map[7 := GROWN], Mark)
    ensures Settled(Table(1, ORIGINAL), Table(2, GROWN)) == VAccept
    ensures TellsApart(map[7 := CHANGED], map[7 := GROWN], Mark)
    ensures Settled(Table(3, CHANGED), Table(2, GROWN)) == VSchemaConflict
    ensures !OnePrefixesTheOther(LOOKALIKE, ORIGINAL)
    ensures Settled(Table(4, LOOKALIKE), Table(1, ORIGINAL)) == VAccept
  {
    TablesSettle(1, ORIGINAL, 2, GROWN);
    TablesSettle(3, CHANGED, 2, GROWN);
    TablesSettle(4, LOOKALIKE, 1, ORIGINAL);
    hide Settled; hide Table;
    MarkTellsApart(ORIGINAL, GROWN);
    MarkTellsApart(CHANGED, GROWN);
    assert LOOKALIKE[..2] == LOOKALIKE && ORIGINAL[..2] == ORIGINAL;
    assert CHANGED[..2] == CHANGED && CHANGED[1] != GROWN[1] && GROWN[..2] == [1, 2];
  }

  lemma MarkTellsApart(x: seq<byte>, y: seq<byte>)
    requires |x| <= 7 && |y| <= 7
    requires forall k | 0 <= k < |x| && k < |y| :: x[k] == y[k] ==> x[..k + 1] == y[..k + 1]
    ensures TellsApart(map[7 := x], map[7 := y], Mark)
  {
    forall l: seq<byte>, m: seq<byte> | l <= x && m <= y && Mark(7, l) == Mark(7, m) ensures l == m {
      if l != [] && m != [] {
        assert |l| == |m|;
        assert l == x[..|l|] && m == y[..|l|] && l[|l| - 1] == x[|l| - 1] && m[|l| - 1] == y[|l| - 1];
      }
    }
  }
}
