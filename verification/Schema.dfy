/** Schema tables: what the start-up check accepts, and the lookup by id. */
module Schema {
  import opened Bytes

  const MAX_SCHEMA_MESSAGES := 1_000_000

  /** `prefixes[k - 1]` covers the first `k` fields. */
  datatype MessageSchema = MessageSchema(id: u32, fingerprint: u64, prefixes: seq<u64>)

  datatype Schema = Schema(fingerprint: u64, messages: seq<MessageSchema>)

  predicate MessageWellFormed(m: MessageSchema) {
    |m.prefixes| <= 0xFFFF && (|m.prefixes| > 0 ==> m.prefixes[|m.prefixes| - 1] == m.fingerprint)
  }

  ghost predicate SortedById(messages: seq<MessageSchema>) {
    forall i, j | 0 <= i < j < |messages| :: messages[i].id < messages[j].id
  }

  ghost predicate WellFormed(s: Schema) {
    && |s.messages| <= MAX_SCHEMA_MESSAGES
    && SortedById(s.messages)
    && forall i | 0 <= i < |s.messages| :: MessageWellFormed(s.messages[i])
  }

  /** The start-up check compares only neighbours, and that is enough. */
  method SchemaCheck(s: Schema) returns (ok: bool)
    ensures ok <==> WellFormed(s)
  {
    if |s.messages| > MAX_SCHEMA_MESSAGES { return false; }
    var index := 0;
    while index < |s.messages|
      invariant 0 <= index <= |s.messages|
      invariant SortedById(s.messages[..index])
      invariant forall i | 0 <= i < index :: MessageWellFormed(s.messages[i])
    {
      var message := s.messages[index];
      if |message.prefixes| > 0xFFFF { return false; }
      if |message.prefixes| > 0 && message.prefixes[|message.prefixes| - 1] != message.fingerprint {
        return false;
      }
      if index > 0 && s.messages[index - 1].id >= message.id { return false; }
      assert forall i | 0 <= i < index :: s.messages[..index][i].id <= s.messages[..index][index - 1].id;
      index := index + 1;
    }
    assert s.messages[..index] == s.messages;
    return true;
  }

  /** Reference lookup: the first message with this id. */
  function Lookup(messages: seq<MessageSchema>, id: u32): Option<MessageSchema> {
    if messages == [] then None
    else if messages[0].id == id then Some(messages[0])
    else Lookup(messages[1..], id)
  }

  lemma {:induction false} LookupMisses(messages: seq<MessageSchema>, id: u32)
    ensures Lookup(messages, id).None? <==> forall i | 0 <= i < |messages| :: messages[i].id != id
  {
    if messages != [] {
      LookupMisses(messages[1..], id);
      assert forall i | 0 < i < |messages| :: messages[i] == messages[1..][i - 1];
      assert messages[0].id != id && Lookup(messages, id).Some? ==>
          exists i | 0 <= i < |messages[1..]| :: messages[1..][i].id == id;
    }
  }

  lemma {:induction false} LookupFinds(messages: seq<MessageSchema>, at: nat)
    requires SortedById(messages) && at < |messages|
    ensures Lookup(messages, messages[at].id) == Some(messages[at])
  {
    if at > 0 {
      assert messages[0].id < messages[at].id;
      LookupFinds(messages[1..], at - 1);
    }
  }

  lemma {:induction false} LookupIsMember(messages: seq<MessageSchema>, id: u32)
    ensures var m := Lookup(messages, id); m.Some? ==> m.value in messages && m.value.id == id
  {
    if messages != [] { LookupIsMember(messages[1..], id); }
  }

  /** Binary search agrees with the linear lookup on a sorted table. */
  method FindMessage(s: Schema, id: u32) returns (found: Option<MessageSchema>)
    requires SortedById(s.messages)
    ensures found == Lookup(s.messages, id)
  {
    var low, high := 0, |s.messages|;
    while low < high
      invariant 0 <= low <= high <= |s.messages|
      invariant forall i | 0 <= i < low :: s.messages[i].id < id
      invariant forall i | high <= i < |s.messages| :: id <= s.messages[i].id
    {
      var middle := low + (high - low) / 2;
      if s.messages[middle].id < id {
        low := middle + 1;
      } else {
        high := middle;
      }
    }
    LookupMisses(s.messages, id);
    if low < |s.messages| && s.messages[low].id == id {
      LookupFinds(s.messages, low);
      return Some(s.messages[low]);
    }
    return None;
  }

  /** The count travels in sixteen bits. */
  function FieldCount(m: MessageSchema): u16 {
    |m.prefixes| % 0x1_0000
  }

  /** The fingerprint of the first `count` fields; the empty prefix has none. */
  function Prefix(m: MessageSchema, count: nat): Option<u64> {
    if count == 0 || count > |m.prefixes| then None else Some(m.prefixes[count - 1])
  }
}
