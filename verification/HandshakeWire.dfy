/** The handshake payloads as bytes: where each number stands, and that every payload the
    parsers take was printed from what they make of it. */
module HandshakeWire {
  import opened Bytes
  import opened Schema
  import opened Handshake

  // ---- What was parsed was printed ---------------------------------------------

  /** Rows cut out of a table print to the table. */
  lemma {:induction false} RowsOfSlices<T>(items: seq<T>, row: T -> seq<byte>, width: nat, bytes: seq<byte>)
    requires |bytes| == width * |items|
    requires forall i | 0 <= i < |items| :: Slice(bytes, width, i) == row(items[i])
    ensures Rows(items, row) == bytes
  {
    if items == [] {
      assert bytes == [];
    } else {
      var n := |items| - 1;
      var start := width * n;
      LastSlice(bytes, width, n);
      hide Slice;
      forall i | 0 <= i < n ensures Slice(bytes[..start], width, i) == row(items[..n][i]) {
        SliceOfPrefix(bytes, width, i, n);
        assert Slice(bytes, width, i) == row(items[i]);
      }
      RowsOfSlices(items[..n], row, width, bytes[..start]);
      assert bytes == bytes[..start] + bytes[start..];
    }
  }

  function Slice(bytes: seq<byte>, width: nat, i: nat): seq<byte> {
    if width * i + width <= |bytes| then bytes[width * i..width * i + width] else []
  }

  lemma LastSlice(bytes: seq<byte>, width: nat, n: nat)
    requires |bytes| == width * (n + 1)
    ensures width * n + width == |bytes| && Slice(bytes, width, n) == bytes[width * n..]
  {
  }

  lemma SliceOfPrefix(bytes: seq<byte>, width: nat, i: nat, n: nat)
    requires i < n && width * n <= |bytes|
    ensures Slice(bytes[..width * n], width, i) == Slice(bytes, width, i)
  {
    assert width * i + width <= width * n by { assert width * (n - i - 1) >= 0; }
  }

  lemma SliceOfTail(bytes: seq<byte>, skip: nat, width: nat, i: nat)
    requires skip + (width * i + width) <= |bytes|
    ensures skip + width * i + width <= |bytes|
    ensures bytes[skip + width * i..][..width] == Slice(bytes[skip..], width, i)
  {
    var at := width * i;
    assert bytes[skip..][at..at + width] == bytes[skip + at..][..width];
  }

  lemma EntryRowOfRead(row: seq<byte>)
    requires |row| == HELLO_ENTRY_LEN
    ensures EntryRow(ReadEntry(row)) == row
  {
    LeBytesOfValue(row[..4]); LeBytesOfValue(row[4..6]); LeBytesOfValue(row[6..]);
    assert row == row[..4] + row[4..6] + row[6..];
  }

  lemma QueryRowOfRead(row: seq<byte>)
    requires |row| == QUERY_ENTRY_LEN
    ensures QueryRow(ReadQuery(row)) == row
  {
    LeBytesOfValue(row[..4]); LeBytesOfValue(row[4..]);
    assert row == row[..4] + row[4..];
  }

  lemma ReplyRowOfRead(row: seq<byte>)
    requires |row| == REPLY_ENTRY_LEN
    ensures ReplyRow(ReadReply(row)) == row
  {
    LeBytesOfValue(row[..4]); LeBytesOfValue(row[4..]);
    assert row == row[..4] + row[4..];
  }

  /** A payload is taken for a hello iff it is the print of one, of that one. */
  lemma HelloOfParse(payload: seq<byte>)
    ensures var h := ParseHello(payload);
      h.Some? ==> |h.value.entries| <= 1_000_000 && HelloBytes(h.value) == payload
  {
    var parsed := ParseHello(payload);
    if parsed.Some? {
      var h, rows := parsed.value, payload[HELLO_HEADER_LEN..];
      LeBytesOfValue(payload[..4]); LeBytesOfValue(payload[4..12]); LeBytesOfValue(payload[12..16]);
      forall i | 0 <= i < |h.entries| ensures Slice(rows, HELLO_ENTRY_LEN, i) == EntryRow(h.entries[i]) {
        EntryRowOfRead(rows[HELLO_ENTRY_LEN * i..HELLO_ENTRY_LEN * i + HELLO_ENTRY_LEN]);
      }
      RowsOfSlices(h.entries, EntryRow, HELLO_ENTRY_LEN, rows);
      assert payload == payload[..4] + payload[4..12] + payload[12..16] + rows;
    }
  }

  lemma QueryOfParse(payload: seq<byte>, cap: nat)
    ensures var q := ParseQuery(payload, cap);
      q.Some? ==> |q.value| <= cap && |q.value| <= 1_000_000 && QueryBytes(q.value) == payload
  {
    var parsed := ParseQuery(payload, cap);
    if parsed.Some? {
      var items, rows := parsed.value, payload[QUERY_HEADER_LEN..];
      LeBytesOfValue(payload[1..5]);
      forall i | 0 <= i < |items| ensures Slice(rows, QUERY_ENTRY_LEN, i) == QueryRow(items[i]) {
        SliceOfTail(payload, QUERY_HEADER_LEN, QUERY_ENTRY_LEN, i);
        QueryRowOfRead(Slice(rows, QUERY_ENTRY_LEN, i));
      }
      RowsOfSlices(items, QueryRow, QUERY_ENTRY_LEN, rows);
      assert payload == [payload[0]] + payload[1..5] + rows;
    }
  }

  lemma ReplyOfParse(payload: seq<byte>, cap: nat)
    ensures var r := ParseReply(payload, cap);
      r.Some? ==> |r.value| <= cap && |r.value| <= 1_000_000 && ReplyBytes(r.value) == payload
  {
    var parsed := ParseReply(payload, cap);
    if parsed.Some? {
      var items, rows := parsed.value, payload[REPLY_HEADER_LEN..];
      LeBytesOfValue(payload[..4]);
      forall i | 0 <= i < |items| ensures Slice(rows, REPLY_ENTRY_LEN, i) == ReplyRow(items[i]) {
        SliceOfTail(payload, REPLY_HEADER_LEN, REPLY_ENTRY_LEN, i);
        ReplyRowOfRead(Slice(rows, REPLY_ENTRY_LEN, i));
      }
      RowsOfSlices(items, ReplyRow, REPLY_ENTRY_LEN, rows);
      assert payload == payload[..4] + rows;
    }
  }

  // ---- Where the numbers stand -------------------------------------------------

  /** `n` stands in `bytes` from `at` on, in `width` bytes, the lowest first. */
  predicate Stands(bytes: seq<byte>, at: nat, width: nat, n: nat) {
    at + width <= |bytes| && bytes[at..at + width] == LeBytes(n, width)
  }

  lemma HelloLayout(h: Hello, i: nat)
    requires i < |h.entries| <= 1_000_000
    ensures var bytes := HelloBytes(h); var e := h.entries[i];
      && |bytes| == 16 + 14 * |h.entries|
      && Stands(bytes, 0, 4, h.version) && Stands(bytes, 4, 8, h.fingerprint) && Stands(bytes, 12, 4, |h.entries|)
      && Stands(bytes, 16 + 14 * i, 4, e.id) && Stands(bytes, 20 + 14 * i, 2, e.fieldCount)
      && Stands(bytes, 22 + 14 * i, 8, e.fingerprint)
  {
    var bytes, rows := HelloBytes(h), Rows(h.entries, EntryRow);
    RowsLength(h.entries, EntryRow, HELLO_ENTRY_LEN);
    RowAt(h.entries, EntryRow, HELLO_ENTRY_LEN, i);
    var row := EntryRow(h.entries[i]);
    assert bytes[16..] == rows;
    hide Rows;
    assert bytes[16 + 14 * i..30 + 14 * i] == row;
    Within(bytes, 16 + 14 * i, row, 0, 4);
    Within(bytes, 16 + 14 * i, row, 4, 2);
    Within(bytes, 16 + 14 * i, row, 6, 8);
  }

  lemma Within(bytes: seq<byte>, at: nat, row: seq<byte>, from: nat, width: nat)
    requires at + |row| <= |bytes| && bytes[at..at + |row|] == row && from + width <= |row|
    ensures bytes[at + from..at + from + width] == row[from..from + width]
  {
    var left, right := bytes[at + from..at + from + width], row[from..from + width];
    forall k | 0 <= k < width ensures left[k] == right[k] {
      assert bytes[at..at + |row|][from + k] == bytes[at + (from + k)];
    }
  }

  lemma QueryLayout(items: seq<QueryItem>, i: nat)
    requires i < |items|
    ensures var bytes := QueryBytes(items);
      && |bytes| == 5 + 6 * |items| && bytes[0] == 4 && Stands(bytes, 1, 4, |items|)
      && Stands(bytes, 5 + 6 * i, 4, items[i].id) && Stands(bytes, 9 + 6 * i, 2, items[i].fieldCount)
  {
    var bytes, rows := QueryBytes(items), Rows(items, QueryRow);
    RowsLength(items, QueryRow, QUERY_ENTRY_LEN);
    RowAt(items, QueryRow, QUERY_ENTRY_LEN, i);
    var row := QueryRow(items[i]);
    assert bytes[5..] == rows;
    hide Rows;
    assert bytes[5 + 6 * i..11 + 6 * i] == row;
    Within(bytes, 5 + 6 * i, row, 0, 4);
    Within(bytes, 5 + 6 * i, row, 4, 2);
  }

  lemma ReplyLayout(items: seq<ReplyItem>, i: nat)
    requires i < |items|
    ensures var bytes := ReplyBytes(items);
      && |bytes| == 4 + 12 * |items| && Stands(bytes, 0, 4, |items|)
      && Stands(bytes, 4 + 12 * i, 4, items[i].id) && Stands(bytes, 8 + 12 * i, 8, items[i].fingerprint)
  {
    var bytes, rows := ReplyBytes(items), Rows(items, ReplyRow);
    RowsLength(items, ReplyRow, REPLY_ENTRY_LEN);
    RowAt(items, ReplyRow, REPLY_ENTRY_LEN, i);
    var row := ReplyRow(items[i]);
    assert bytes[4..] == rows;
    hide Rows;
    assert bytes[4 + 12 * i..16 + 12 * i] == row;
    Within(bytes, 4 + 12 * i, row, 0, 4);
    Within(bytes, 4 + 12 * i, row, 4, 8);
  }
}
