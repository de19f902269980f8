/** The handshake payloads - hello, query, reply - and the decisions taken on them. */
module Handshake {
  import opened Bytes
  import opened Schema

  const PROTOCOL_VERSION: u32 := 2
  const QUERY_TAG: byte := 4

  const HELLO_HEADER_LEN := 16
  const HELLO_ENTRY_LEN := 14
  const QUERY_HEADER_LEN := 5
  const QUERY_ENTRY_LEN := 6
  const REPLY_HEADER_LEN := 4
  const REPLY_ENTRY_LEN := 12

  datatype HelloEntry = HelloEntry(id: u32, fieldCount: u16, fingerprint: u64)
  datatype Hello = Hello(version: u32, fingerprint: u64, entries: seq<HelloEntry>)
  datatype QueryItem = QueryItem(id: u32, fieldCount: u16)
  datatype ReplyItem = ReplyItem(id: u32, fingerprint: u64)

  datatype Verdict = VAccept | VWrongVersion | VSchemaConflict | VMalformedHello

  datatype HandshakeFailure =
    | FailWrongVersion | FailSchemaConflict | FailMalformedHello | FailMalformedPeer | FailTimeout

  function VerdictByte(v: Verdict): byte {
    match v
    case VAccept => 0
    case VWrongVersion => 1
    case VSchemaConflict => 2
    case VMalformedHello => 3
  }

  function VerdictOfByte(b: byte): Verdict
    requires b <= 3
  {
    if b == 0 then VAccept else if b == 1 then VWrongVersion else if b == 2 then VSchemaConflict
    else VMalformedHello
  }

  function FailureOf(v: Verdict): HandshakeFailure {
    match v
    case VWrongVersion => FailWrongVersion
    case VSchemaConflict => FailSchemaConflict
    case VMalformedHello => FailMalformedHello
    case VAccept => FailMalformedPeer
  }

  // ---- Tables of fixed-width rows ----------------------------------------------

  /** The rows of a table one after the other. */
  function Rows<T>(items: seq<T>, row: T -> seq<byte>): seq<byte> {
    if items == [] then [] else Rows(items[..|items| - 1], row) + row(items[|items| - 1])
  }

  lemma {:induction false} RowsLength<T>(items: seq<T>, row: T -> seq<byte>, width: nat)
    requires forall x: T {:trigger row(x)} | x in items :: |row(x)| == width
    ensures |Rows(items, row)| == width * |items|
  {
    if items != [] {
      RowsLength(items[..|items| - 1], row, width);
      assert width * (|items| - 1) + width == width * |items|;
    }
  }

  /** Row `at` is found at `width * at`. */
  lemma {:induction false} RowAt<T>(items: seq<T>, row: T -> seq<byte>, width: nat, at: nat)
    requires forall x: T {:trigger row(x)} | x in items :: |row(x)| == width
    requires at < |items|
    ensures 0 <= width * at <= width * at + width <= |Rows(items, row)|
    ensures Rows(items, row)[width * at..width * at + width] == row(items[at])
  {
    var n := |items| - 1;
    var init := items[..n];
    var before, last, start := Rows(init, row), row(items[n]), width * at;
    RowsLength(init, row, width);
    assert Rows(items, row) == before + last;
    if at < n {
      RowAt(init, row, width, at);
      assert (before + last)[start..start + width] == before[start..start + width];
    } else {
      assert |before| == start;
      assert (before + last)[start..start + width] == last;
    }
  }

  function EntryRow(e: HelloEntry): (r: seq<byte>)
    ensures |r| == HELLO_ENTRY_LEN
  {
    LeBytes(e.id, 4) + LeBytes(e.fieldCount, 2) + LeBytes(e.fingerprint, 8)
  }

  function QueryRow(q: QueryItem): (r: seq<byte>)
    ensures |r| == QUERY_ENTRY_LEN
  {
    LeBytes(q.id, 4) + LeBytes(q.fieldCount, 2)
  }

  function ReplyRow(p: ReplyItem): (r: seq<byte>)
    ensures |r| == REPLY_ENTRY_LEN
  {
    LeBytes(p.id, 4) + LeBytes(p.fingerprint, 8)
  }

  function ReadEntry(row: seq<byte>): HelloEntry
    requires |row| == HELLO_ENTRY_LEN
  {
    HelloEntry(ReadU32(row[..4]), ReadU16(row[4..6]), ReadU64(row[6..]))
  }

  function ReadQuery(row: seq<byte>): QueryItem
    requires |row| == QUERY_ENTRY_LEN
  {
    QueryItem(ReadU32(row[..4]), ReadU16(row[4..]))
  }

  function ReadReply(row: seq<byte>): ReplyItem
    requires |row| == REPLY_ENTRY_LEN
  {
    ReplyItem(ReadU32(row[..4]), ReadU64(row[4..]))
  }

  lemma EntryRowRoundTrip(e: HelloEntry)
    ensures ReadEntry(EntryRow(e)) == e
  {
    var row := EntryRow(e);
    assert row[..4] == LeBytes(e.id, 4) && row[4..6] == LeBytes(e.fieldCount, 2);
    assert row[6..] == LeBytes(e.fingerprint, 8);
    U32RoundTrip(e.id); U16RoundTrip(e.fieldCount); U64RoundTrip(e.fingerprint);
  }

  lemma QueryRowRoundTrip(q: QueryItem)
    ensures ReadQuery(QueryRow(q)) == q
  {
    var row := QueryRow(q);
    assert row[..4] == LeBytes(q.id, 4) && row[4..] == LeBytes(q.fieldCount, 2);
    U32RoundTrip(q.id); U16RoundTrip(q.fieldCount);
  }

  lemma ReplyRowRoundTrip(p: ReplyItem)
    ensures ReadReply(ReplyRow(p)) == p
  {
    var row := ReplyRow(p);
    assert row[..4] == LeBytes(p.id, 4) && row[4..] == LeBytes(p.fingerprint, 8);
    U32RoundTrip(p.id); U64RoundTrip(p.fingerprint);
  }

  // ---- The three payloads ------------------------------------------------------

  function HelloLen(s: Schema): nat {
    HELLO_HEADER_LEN + HELLO_ENTRY_LEN * |s.messages|
  }

  function EntryOf(m: MessageSchema): HelloEntry {
    HelloEntry(m.id, FieldCount(m), m.fingerprint)
  }

  function EntriesOf(messages: seq<MessageSchema>): seq<HelloEntry> {
    seq(|messages|, i requires 0 <= i < |messages| => EntryOf(messages[i]))
  }

  /** What a client announces about its schema. */
  function HelloOf(s: Schema): Hello {
    Hello(PROTOCOL_VERSION, s.fingerprint, EntriesOf(s.messages))
  }

  function HelloHeader(h: Hello): seq<byte> {
    LeBytes(h.version, 4) + LeBytes(h.fingerprint, 8) + LeBytes(|h.entries|, 4)
  }

  function HelloBytes(h: Hello): seq<byte> {
    HelloHeader(h) + Rows(h.entries, EntryRow)
  }

  function QueryBytes(items: seq<QueryItem>): seq<byte> {
    [QUERY_TAG] + LeBytes(|items|, 4) + Rows(items, QueryRow)
  }

  function ReplyBytes(items: seq<ReplyItem>): seq<byte> {
    LeBytes(|items|, 4) + Rows(items, ReplyRow)
  }

  function EntryAt(entries: seq<byte>, index: nat): HelloEntry
    requires HELLO_ENTRY_LEN * index + HELLO_ENTRY_LEN <= |entries|
  {
    ReadEntry(entries[HELLO_ENTRY_LEN * index..HELLO_ENTRY_LEN * index + HELLO_ENTRY_LEN])
  }

  function ParseHello(payload: seq<byte>): Option<Hello> {
    if |payload| < HELLO_HEADER_LEN then None
    else
      var declared := ReadU32(payload[12..16]);
      if declared > MAX_SCHEMA_MESSAGES then None
      else if |payload| != HELLO_HEADER_LEN + HELLO_ENTRY_LEN * declared then None
      else Some(Hello(ReadU32(payload[..4]), ReadU64(payload[4..12]),
                      seq(declared, i requires 0 <= i < declared =>
                            EntryAt(payload[HELLO_HEADER_LEN..], i))))
  }

  /** The item table a payload declares after `skip` bytes, if its length is right
      and no more than `cap` items are declared. */
  function ParseQuery(payload: seq<byte>, cap: nat): Option<seq<QueryItem>> {
    if |payload| < QUERY_HEADER_LEN || payload[0] != QUERY_TAG then None
    else
      var declared := ReadU32(payload[1..5]);
      if declared > MAX_SCHEMA_MESSAGES then None
      else if |payload| != QUERY_HEADER_LEN + QUERY_ENTRY_LEN * declared then None
      else if declared > cap then None
      else Some(seq(declared, i requires 0 <= i < declared =>
                      ReadQuery(payload[QUERY_HEADER_LEN + QUERY_ENTRY_LEN * i..][..QUERY_ENTRY_LEN])))
  }

  function ParseReply(payload: seq<byte>, cap: nat): Option<seq<ReplyItem>> {
    if |payload| < REPLY_HEADER_LEN then None
    else
      var declared := ReadU32(payload[..4]);
      if declared > MAX_SCHEMA_MESSAGES then None
      else if |payload| != REPLY_HEADER_LEN + REPLY_ENTRY_LEN * declared then None
      else if declared > cap then None
      else Some(seq(declared, i requires 0 <= i < declared =>
                      ReadReply(payload[REPLY_HEADER_LEN + REPLY_ENTRY_LEN * i..][..REPLY_ENTRY_LEN])))
  }

  lemma HelloRoundTrip(h: Hello)
    requires |h.entries| <= MAX_SCHEMA_MESSAGES
    ensures ParseHello(HelloBytes(h)) == Some(h)
    ensures |HelloBytes(h)| == HELLO_HEADER_LEN + HELLO_ENTRY_LEN * |h.entries|
  {
    var payload, rows := HelloBytes(h), Rows(h.entries, EntryRow);
    RowsLength(h.entries, EntryRow, HELLO_ENTRY_LEN);
    U32RoundTrip(h.version); U64RoundTrip(h.fingerprint); U32RoundTrip(|h.entries|);
    assert payload[..4] == LeBytes(h.version, 4);
    assert payload[4..12] == LeBytes(h.fingerprint, 8);
    assert payload[12..16] == LeBytes(|h.entries|, 4);
    assert payload[16..] == rows;
    forall i | 0 <= i < |h.entries| ensures EntryAt(rows, i) == h.entries[i] {
      RowAt(h.entries, EntryRow, HELLO_ENTRY_LEN, i);
      EntryRowRoundTrip(h.entries[i]);
    }
    assert ParseHello(payload).value.entries == h.entries;
  }

  lemma QueryRowRead(items: seq<QueryItem>, i: nat)
    requires i < |items|
    ensures |QueryBytes(items)| == QUERY_HEADER_LEN + QUERY_ENTRY_LEN * |items|
    ensures ReadQuery(QueryBytes(items)[QUERY_HEADER_LEN + QUERY_ENTRY_LEN * i..][..QUERY_ENTRY_LEN]) == items[i]
  {
    var rows := Rows(items, QueryRow);
    RowsLength(items, QueryRow, QUERY_ENTRY_LEN);
    RowAt(items, QueryRow, QUERY_ENTRY_LEN, i);
    QueryRowRoundTrip(items[i]);
    hide Rows; hide QueryRow; hide ReadQuery;
    assert QueryBytes(items)[5 + 6 * i..][..6] == rows[6 * i..6 * i + 6];
  }

  lemma ReplyRowRead(items: seq<ReplyItem>, i: nat)
    requires i < |items|
    ensures |ReplyBytes(items)| == REPLY_HEADER_LEN + REPLY_ENTRY_LEN * |items|
    ensures ReadReply(ReplyBytes(items)[REPLY_HEADER_LEN + REPLY_ENTRY_LEN * i..][..REPLY_ENTRY_LEN]) == items[i]
  {
    var rows := Rows(items, ReplyRow);
    RowsLength(items, ReplyRow, REPLY_ENTRY_LEN);
    RowAt(items, ReplyRow, REPLY_ENTRY_LEN, i);
    ReplyRowRoundTrip(items[i]);
    hide Rows; hide ReplyRow; hide ReadReply;
    assert ReplyBytes(items)[4 + 12 * i..][..12] == rows[12 * i..12 * i + 12];
  }

  /** A query is read back unless it lists more items than the reader has messages. */
  lemma QueryRoundTrip(items: seq<QueryItem>, cap: nat)
    requires |items| <= MAX_SCHEMA_MESSAGES
    ensures ParseQuery(QueryBytes(items), cap) == if |items| > cap then None else Some(items)
    ensures |QueryBytes(items)| == QUERY_HEADER_LEN + QUERY_ENTRY_LEN * |items|
  {
    var payload := QueryBytes(items);
    RowsLength(items, QueryRow, QUERY_ENTRY_LEN);
    U32RoundTrip(|items|);
    assert payload[1..5] == LeBytes(|items|, 4);
    forall i | 0 <= i < |items|
      ensures ReadQuery(payload[QUERY_HEADER_LEN + QUERY_ENTRY_LEN * i..][..QUERY_ENTRY_LEN]) == items[i]
    {
      QueryRowRead(items, i);
    }
    hide Rows; hide QueryRow; hide ReadQuery;
    if |items| <= cap { assert ParseQuery(payload, cap).value == items; }
  }

  lemma ReplyRoundTrip(items: seq<ReplyItem>, cap: nat)
    requires |items| <= MAX_SCHEMA_MESSAGES
    ensures ParseReply(ReplyBytes(items), cap) == if |items| > cap then None else Some(items)
    ensures |ReplyBytes(items)| == REPLY_HEADER_LEN + REPLY_ENTRY_LEN * |items|
  {
    var payload := ReplyBytes(items);
    RowsLength(items, ReplyRow, REPLY_ENTRY_LEN);
    U32RoundTrip(|items|);
    assert payload[..4] == LeBytes(|items|, 4);
    forall i | 0 <= i < |items|
      ensures ReadReply(payload[REPLY_HEADER_LEN + REPLY_ENTRY_LEN * i..][..REPLY_ENTRY_LEN]) == items[i]
    {
      ReplyRowRead(items, i);
    }
    hide Rows; hide ReplyRow; hide ReadReply;
    if |items| <= cap { assert ParseReply(payload, cap).value == items; }
  }

  // ---- Decisions ---------------------------------------------------------------

  datatype EntryCheck = Agrees | Conflicts | NeedsPrefix(count: u16)

  /** One line of the peer's table against the local schema. */
  function CheckEntry(messages: seq<MessageSchema>, e: HelloEntry): EntryCheck {
    match Lookup(messages, e.id)
    case None => Agrees
    case Some(known) =>
      var fields := FieldCount(known);
      if e.fingerprint == known.fingerprint then Agrees
      else if e.fieldCount == 0 || fields == 0 then Agrees
      else if e.fieldCount == fields then Conflicts
      else if e.fieldCount < fields then
        if Prefix(known, e.fieldCount) == Some(e.fingerprint) then Agrees else Conflicts
      else NeedsPrefix(fields)
  }

  datatype Decision = Accept | Reject(verdict: Verdict) | Query(items: seq<QueryItem>)

  /** The rest of the table, after the lines that led to asking for `asked`. */
  function DecideRest(messages: seq<MessageSchema>, rest: seq<HelloEntry>, asked: seq<QueryItem>,
                      cap: nat): Decision
  {
    if rest == [] then (if asked == [] then Accept else Query(asked))
    else
      match CheckEntry(messages, rest[0])
      case Agrees => DecideRest(messages, rest[1..], asked, cap)
      case Conflicts => Reject(VSchemaConflict)
      case NeedsPrefix(count) =>
        if |asked| >= cap then Reject(VMalformedHello)
        else DecideRest(messages, rest[1..], asked + [QueryItem(rest[0].id, count)], cap)
  }

  function Decide(local: Schema, hello: Hello, cap: nat): Decision {
    if hello.fingerprint == local.fingerprint then Accept
    else DecideRest(local.messages, hello.entries, [], cap)
  }

  /** A peer answers only for messages it has, at a count below its own. */
  function AnswerItem(messages: seq<MessageSchema>, q: QueryItem): Option<ReplyItem> {
    match Lookup(messages, q.id)
    case None => None
    case Some(known) =>
      if q.fieldCount == 0 || q.fieldCount >= FieldCount(known) then None
      else
        match Prefix(known, q.fieldCount)
        case None => None
        case Some(prefix) => Some(ReplyItem(q.id, prefix))
  }

  predicate Answerable(messages: seq<MessageSchema>, items: seq<QueryItem>) {
    forall i | 0 <= i < |items| :: AnswerItem(messages, items[i]).Some?
  }

  function Answers(messages: seq<MessageSchema>, items: seq<QueryItem>): (r: seq<ReplyItem>)
    requires Answerable(messages, items)
    ensures |r| == |items|
  {
    seq(|items|, i requires 0 <= i < |items| => AnswerItem(messages, items[i]).value)
  }

  /** The prefix the peer must have at this place. */
  function Expected(messages: seq<MessageSchema>, q: QueryItem): Option<u64> {
    match Lookup(messages, q.id)
    case None => None
    case Some(known) => Prefix(known, q.fieldCount)
  }

  /** The first difference, from `index` on, decides. */
  function ReplyVerdictFrom(messages: seq<MessageSchema>, asked: seq<QueryItem>, reply: seq<ReplyItem>,
                            index: nat): Verdict
    requires |asked| == |reply| && index <= |asked|
    decreases |asked| - index
  {
    if index == |asked| then VAccept
    else if asked[index].id != reply[index].id then VMalformedHello
    else if Expected(messages, asked[index]) != Some(reply[index].fingerprint) then VSchemaConflict
    else ReplyVerdictFrom(messages, asked, reply, index + 1)
  }

  function ReplyVerdict(messages: seq<MessageSchema>, asked: seq<QueryItem>, reply: seq<ReplyItem>): Verdict {
    if |asked| != |reply| then VMalformedHello else ReplyVerdictFrom(messages, asked, reply, 0)
  }
}
