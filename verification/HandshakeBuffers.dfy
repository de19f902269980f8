/** The same payloads and decisions as they run: loops over byte buffers and item
    tables that the caller owns, each proved against its specification. */
module HandshakeBuffers {
  import opened Bytes
  import opened Schema
  import opened Handshake

  /** `out` starts with `bytes` and is otherwise as it was. */
  twostate predicate Filled(out: array<byte>, bytes: seq<byte>)
    reads out
  {
    |bytes| <= out.Length && out[..] == bytes + old(out[..])[|bytes|..]
  }

  lemma RowsSnoc<T>(items: seq<T>, index: nat, row: T -> seq<byte>)
    requires index < |items|
    ensures Rows(items[..index + 1], row) == Rows(items[..index], row) + row(items[index])
  {
    assert items[..index + 1][..index] == items[..index];
  }

  lemma MulStep(width: nat, index: nat, count: nat)
    requires index < count
    ensures width * (index + 1) == width * index + width <= width * count
  {
    assert width * count - width * (index + 1) == width * (count - index - 1) >= 0;
  }

  /** Puts `head` and then one row per item into `out`, row by row. */
  method WriteRows<T>(out: array<byte>, head: seq<byte>, items: seq<T>, row: T -> seq<byte>, width: nat)
    requires forall x: T {:trigger row(x)} :: |row(x)| == width
    requires |head| + width * |items| <= out.Length
    modifies out
    ensures Filled(out, head + Rows(items, row))
  {
    ghost var was := out[..];
    CopyInto(out, 0, head);
    var index := 0;
    ghost var at := |head|;
    while index < |items|
      invariant 0 <= index <= |items|
      invariant at == |head| + width * index <= out.Length
      invariant out[..at] == head + Rows(items[..index], row)
      invariant out[at..] == was[at..]
    {
      ghost var done := out[..at];
      MulStep(width, index, |items|);
      RowsSnoc(items, index, row);
      CopyInto(out, |head| + width * index, row(items[index]));
      assert out[..at + width] == done + row(items[index]);
      assert out[at + width..] == was[at + width..];
      at := at + width;
      index := index + 1;
    }
    assert items[..index] == items;
    assert out[..] == out[..at] + out[at..];
  }

  method HelloEncode(s: Schema, out: array<byte>) returns (written: nat)
    requires |s.messages| <= MAX_SCHEMA_MESSAGES
    modifies out
    ensures written == if out.Length < HelloLen(s) then 0 else HelloLen(s)
    ensures if written == 0 then out[..] == old(out[..]) else Filled(out, HelloBytes(HelloOf(s)))
  {
    if out.Length < HelloLen(s) { return 0; }
    WriteRows(out, HelloHeader(HelloOf(s)), EntriesOf(s.messages), EntryRow, HELLO_ENTRY_LEN);
    return HelloLen(s);
  }

  method QueryEncode(items: seq<QueryItem>, out: array<byte>) returns (written: nat)
    modifies out
    ensures written == if out.Length < QUERY_HEADER_LEN + QUERY_ENTRY_LEN * |items| then 0
                       else QUERY_HEADER_LEN + QUERY_ENTRY_LEN * |items|
    ensures if written == 0 then out[..] == old(out[..]) else Filled(out, QueryBytes(items))
  {
    var total := QUERY_HEADER_LEN + QUERY_ENTRY_LEN * |items|;
    if out.Length < total { return 0; }
    WriteRows(out, [QUERY_TAG] + LeBytes(|items|, 4), items, QueryRow, QUERY_ENTRY_LEN);
    return total;
  }

  method ReplyEncode(items: seq<ReplyItem>, out: array<byte>) returns (written: nat)
    modifies out
    ensures written == if out.Length < REPLY_HEADER_LEN + REPLY_ENTRY_LEN * |items| then 0
                       else REPLY_HEADER_LEN + REPLY_ENTRY_LEN * |items|
    ensures if written == 0 then out[..] == old(out[..]) else Filled(out, ReplyBytes(items))
  {
    var total := REPLY_HEADER_LEN + REPLY_ENTRY_LEN * |items|;
    if out.Length < total { return 0; }
    WriteRows(out, LeBytes(|items|, 4), items, ReplyRow, REPLY_ENTRY_LEN);
    return total;
  }

  /** Decodes into the caller's table, of which the first `cap` places may be used. */
  method QueryDecode(payload: seq<byte>, items: array<QueryItem>, cap: nat) returns (count: Option<nat>)
    requires cap <= items.Length
    modifies items
    ensures count.Some? <==> ParseQuery(payload, cap).Some?
    ensures count.Some? ==> count.value <= cap && items[..count.value] == ParseQuery(payload, cap).value
  {
    if |payload| < QUERY_HEADER_LEN || payload[0] != QUERY_TAG { return None; }
    var declared := ReadU32(payload[1..5]);
    if declared > MAX_SCHEMA_MESSAGES { return None; }
    if |payload| != QUERY_HEADER_LEN + QUERY_ENTRY_LEN * declared { return None; }
    if declared > cap { return None; }
    ghost var parsed := ParseQuery(payload, cap).value;
    var index := 0;
    while index < declared
      invariant 0 <= index <= declared
      invariant items[..index] == parsed[..index]
    {
      var at := QUERY_HEADER_LEN + QUERY_ENTRY_LEN * index;
      items[index] := ReadQuery(payload[at..][..QUERY_ENTRY_LEN]);
      assert items[..index + 1] == items[..index] + [items[index]];
      index := index + 1;
    }
    return Some(declared);
  }

  method ReplyDecode(payload: seq<byte>, items: array<ReplyItem>, cap: nat) returns (count: Option<nat>)
    requires cap <= items.Length
    modifies items
    ensures count.Some? <==> ParseReply(payload, cap).Some?
    ensures count.Some? ==> count.value <= cap && items[..count.value] == ParseReply(payload, cap).value
  {
    if |payload| < REPLY_HEADER_LEN { return None; }
    var declared := ReadU32(payload[..4]);
    if declared > MAX_SCHEMA_MESSAGES { return None; }
    if |payload| != REPLY_HEADER_LEN + REPLY_ENTRY_LEN * declared { return None; }
    if declared > cap { return None; }
    ghost var parsed := ParseReply(payload, cap).value;
    var index := 0;
    while index < declared
      invariant 0 <= index <= declared
      invariant items[..index] == parsed[..index]
    {
      var at := REPLY_HEADER_LEN + REPLY_ENTRY_LEN * index;
      items[index] := ReadReply(payload[at..][..REPLY_ENTRY_LEN]);
      assert items[..index + 1] == items[..index] + [items[index]];
      index := index + 1;
    }
    return Some(declared);
  }

  /** Walks the peer's table once; what must be asked is put into `queries`. */
  method HandshakeDecide(local: Schema, hello: Hello, queries: array<QueryItem>, cap: nat)
    returns (decision: Decision)
    requires SortedById(local.messages) && cap <= queries.Length
    modifies queries
    ensures decision == Decide(local, hello, cap)
    ensures decision.Query? ==> |decision.items| <= cap && queries[..|decision.items|] == decision.items
  {
    if hello.fingerprint == local.fingerprint { return Accept; }
    var count := 0;
    var index := 0;
    while index < |hello.entries|
      invariant 0 <= index <= |hello.entries| && 0 <= count <= cap
      invariant Decide(local, hello, cap)
             == DecideRest(local.messages, hello.entries[index..], queries[..count], cap)
    {
      var entry := hello.entries[index];
      ghost var rest := hello.entries[index..];
      assert rest[0] == entry && rest[1..] == hello.entries[index + 1..];
      var known := FindMessage(local, entry.id);
      index := index + 1;
      if known.None? { continue; }
      if entry.fingerprint == known.value.fingerprint { continue; }
      var fields := FieldCount(known.value);
      if entry.fieldCount == 0 || fields == 0 { continue; }
      if entry.fieldCount == fields { return Reject(VSchemaConflict); }
      if entry.fieldCount < fields {
        if Prefix(known.value, entry.fieldCount) != Some(entry.fingerprint) {
          return Reject(VSchemaConflict);
        }
        continue;
      }
      if count >= cap { return Reject(VMalformedHello); }
      queries[count] := QueryItem(entry.id, fields);
      assert queries[..count + 1] == queries[..count] + [queries[count]];
      count := count + 1;
    }
    if count > 0 { return Query(queries[..count]); }
    return Accept;
  }

  method QueryAnswer(local: Schema, items: seq<QueryItem>, out: array<ReplyItem>) returns (ok: bool)
    requires SortedById(local.messages) && |items| <= out.Length
    modifies out
    ensures ok <==> Answerable(local.messages, items)
    ensures ok ==> out[..|items|] == Answers(local.messages, items)
  {
    var index := 0;
    while index < |items|
      invariant 0 <= index <= |items|
      invariant forall i | 0 <= i < index ::
        AnswerItem(local.messages, items[i]).Some? && out[i] == AnswerItem(local.messages, items[i]).value
    {
      var known := FindMessage(local, items[index].id);
      if known.None? { return false; }
      if items[index].fieldCount == 0 || items[index].fieldCount >= FieldCount(known.value) {
        return false;
      }
      var prefix := Prefix(known.value, items[index].fieldCount);
      if prefix.None? { return false; }
      out[index] := ReplyItem(items[index].id, prefix.value);
      index := index + 1;
    }
    return true;
  }

  method ReplyCheck(local: Schema, asked: seq<QueryItem>, reply: seq<ReplyItem>) returns (verdict: Verdict)
    requires SortedById(local.messages)
    ensures verdict == ReplyVerdict(local.messages, asked, reply)
  {
    if |asked| != |reply| { return VMalformedHello; }
    var index := 0;
    while index < |asked|
      invariant 0 <= index <= |asked|
      invariant ReplyVerdict(local.messages, asked, reply) == ReplyVerdictFrom(local.messages, asked, reply, index)
    {
      if asked[index].id != reply[index].id { return VMalformedHello; }
      var known := FindMessage(local, asked[index].id);
      if known.None? { return VSchemaConflict; }
      var prefix := Prefix(known.value, asked[index].fieldCount);
      if prefix.None? || prefix.value != reply[index].fingerprint { return VSchemaConflict; }
      index := index + 1;
    }
    return VAccept;
  }
}
