/** The value codec: how values are laid out, what reading does to any bytes at all,
    and what happens when writer and reader know different numbers of fields. */
module Codec {
  import opened Bytes
  import opened Utf8

  const U32_MAX := 0xFFFF_FFFF

  datatype Kind = U8 | U16 | U32 | U64 | F32 | F64 | Bool | Text | Blob

  /** Floating-point numbers are their raw bits, strings their UTF-8 bytes. */
  datatype Value = Num(n: nat) | Flag(b: bool) | Octets(bytes: seq<byte>)

  datatype Limits = Limits(maxStringLen: nat, maxBytesLen: nat, maxArrayCount: nat)

  const UNLIMITED := Limits(U32_MAX, U32_MAX, U32_MAX)

  datatype DecodeError =
    | UnexpectedEof(needed: nat, remaining: nat)
    | InvalidBool(b: byte)
    | InvalidUtf8
    | LengthOverflow(length: nat, limit: nat)

  datatype Outcome<+T> = Ok(value: T) | Err(error: DecodeError)

  /** A value read, and the number of bytes it took. */
  datatype Field = Field(value: Value, used: nat)

  /** The bytes of a fixed-width kind, or of the length that precedes the others. */
  function Width(kind: Kind): (r: nat)
    ensures r > 0
  {
    match kind
    case U8 => 1
    case U16 => 2
    case U32 => 4
    case U64 => 8
    case F32 => 4
    case F64 => 8
    case Bool => 1
    case Text => 4
    case Blob => 4
  }

  predicate Numeric(kind: Kind) {
    !kind.Bool? && !kind.Text? && !kind.Blob?
  }

  /** The values a writer can be given for a kind. */
  ghost predicate Suits(kind: Kind, v: Value) {
    match kind
    case Bool => v.Flag?
    case Text => v.Octets? && |v.bytes| <= U32_MAX && IsText(v.bytes)
    case Blob => v.Octets? && |v.bytes| <= U32_MAX
    case _ => v.Num? && v.n < Pow256(Width(kind))
  }

  function LengthLimit(kind: Kind, limits: Limits): nat {
    if kind.Text? then limits.maxStringLen else limits.maxBytesLen
  }

  predicate Within(kind: Kind, v: Value, limits: Limits) {
    v.Octets? ==> |v.bytes| <= LengthLimit(kind, limits)
  }

  function Zero(kind: Kind): Value {
    match kind
    case Bool => Flag(false)
    case Text => Octets([])
    case Blob => Octets([])
    case _ => Num(0)
  }

  function Print(kind: Kind, v: Value): seq<byte> {
    match v
    case Num(n) => LeBytes(n, Width(kind))
    case Flag(b) => [if b then 1 else 0]
    case Octets(bytes) => LeBytes(|bytes|, 4) + bytes
  }

  ghost function ReadOctets(kind: Kind, rest: seq<byte>, limits: Limits): Outcome<Field>
    requires |rest| >= 4
  {
    var length := ReadU32(rest[..4]);
    if length > LengthLimit(kind, limits) then Err(LengthOverflow(length, LengthLimit(kind, limits)))
    else if length > |rest| - 4 then Err(UnexpectedEof(length, |rest| - 4))
    else if kind.Text? && !IsText(rest[4..4 + length]) then Err(InvalidUtf8)
    else Ok(Field(Octets(rest[4..4 + length]), 4 + length))
  }

  /** What reading a value of a kind makes of the bytes that remain. */
  ghost function Read(kind: Kind, rest: seq<byte>, limits: Limits): Outcome<Field> {
    if |rest| < Width(kind) then Err(UnexpectedEof(Width(kind), |rest|))
    else
      match kind
      case Bool => if rest[0] <= 1 then Ok(Field(Flag(rest[0] == 1), 1)) else Err(InvalidBool(rest[0]))
      case Text => ReadOctets(kind, rest, limits)
      case Blob => ReadOctets(kind, rest, limits)
      case _ => Ok(Field(Num(LeValue(rest[..Width(kind)])), Width(kind)))
  }

  // ---- One value ---------------------------------------------------------------

  lemma ReadOfPrint(kind: Kind, v: Value, tail: seq<byte>, limits: Limits)
    requires Suits(kind, v) && Within(kind, v, limits)
    ensures Read(kind, Print(kind, v) + tail, limits) == Ok(Field(v, |Print(kind, v)|))
  {
    var bytes := Print(kind, v) + tail;
    hide LeBytes; hide LeValue; hide Pow256; hide IsText;
    match v
    case Num(n) =>
      LeValueOfBytes(n, Width(kind));
      assert bytes[..Width(kind)] == LeBytes(n, Width(kind));
    case Flag(b) =>
    case Octets(body) =>
      U32RoundTrip(|body|);
      assert bytes[..4] == LeBytes(|body|, 4);
      assert bytes[4..4 + |body|] == body;
  }

  lemma PrintOfRead(kind: Kind, rest: seq<byte>, limits: Limits)
    requires Read(kind, rest, limits).Ok?
    ensures var f := Read(kind, rest, limits).value;
      && Suits(kind, f.value) && Within(kind, f.value, limits)
      && 0 < f.used <= |rest| && Print(kind, f.value) == rest[..f.used]
  {
    hide LeBytes; hide LeValue; hide Pow256; hide IsText;
    if Numeric(kind) {
      LeValueBound(rest[..Width(kind)]);
      LeBytesOfValue(rest[..Width(kind)]);
    } else if kind.Bool? {
      assert rest[..1] == [rest[0]];
    } else {
      LeBytesOfValue(rest[..4]);
      var length := ReadU32(rest[..4]);
      assert rest[..4 + length] == rest[..4] + rest[4..4 + length];
    }
  }

  /** A value cut short is an unexpected end, never a different value. */
  lemma ReadOfCut(kind: Kind, v: Value, cut: nat, limits: Limits)
    requires Suits(kind, v) && Within(kind, v, limits) && cut < |Print(kind, v)|
    ensures Read(kind, Print(kind, v)[..cut], limits)
         == Err(if cut < Width(kind) then UnexpectedEof(Width(kind), cut)
                else UnexpectedEof(|Print(kind, v)| - 4, cut - 4))
  {
    var bytes := Print(kind, v)[..cut];
    hide LeBytes; hide LeValue; hide Pow256; hide IsText;
    if v.Octets? && cut >= 4 {
      U32RoundTrip(|v.bytes|);
      assert bytes[..4] == LeBytes(|v.bytes|, 4);
    }
  }

  // ---- Records: fields in declaration order ------------------------------------

  ghost predicate Suit(layout: seq<Kind>, values: seq<Value>, limits: Limits) {
    |values| == |layout|
    && forall i | 0 <= i < |layout| :: Suits(layout[i], values[i]) && Within(layout[i], values[i], limits)
  }

  function PrintAll(layout: seq<Kind>, values: seq<Value>): seq<byte>
    requires |values| == |layout|
  {
    if layout == [] then [] else Print(layout[0], values[0]) + PrintAll(layout[1..], values[1..])
  }

  function Zeros(layout: seq<Kind>): (r: seq<Value>)
    ensures |r| == |layout|
  {
    if layout == [] then [] else [Zero(layout[0])] + Zeros(layout[1..])
  }

  /** The fields decoded, the bytes they took and the error that ended the decoding. */
  datatype Record = Record(values: seq<Value>, used: nat, error: Option<DecodeError>)

  function Prepend(f: Field, r: Record): Record {
    r.(values := [f.value] + r.values, used := f.used + r.used)
  }

  /** A generated decoder: a field the bytes ended before is zero, a field they ended
      inside is an error. */
  ghost function ReadAll(layout: seq<Kind>, rest: seq<byte>, limits: Limits): Record
    decreases |layout|
  {
    if layout == [] then Record([], 0, None)
    else if rest == [] then Prepend(Field(Zero(layout[0]), 0), ReadAll(layout[1..], [], limits))
    else
      match Read(layout[0], rest, limits)
      case Err(error) => Record([], 0, Some(error))
      case Ok(f) =>
        PrintOfRead(layout[0], rest, limits);
        Prepend(f, ReadAll(layout[1..], rest[f.used..], limits))
  }

  lemma {:induction false} ReadAllOfNothing(layout: seq<Kind>, limits: Limits)
    ensures ReadAll(layout, [], limits) == Record(Zeros(layout), 0, None)
  {
    if layout != [] { ReadAllOfNothing(layout[1..], limits); }
  }

  lemma PrintIsNotEmpty(kind: Kind, v: Value)
    ensures |Print(kind, v)| > 0
  {
  }

  /** One whole field in front, whatever follows. */
  lemma ReadAllStep(layout: seq<Kind>, v: Value, tail: seq<byte>, limits: Limits)
    requires layout != [] && Suits(layout[0], v) && Within(layout[0], v, limits)
    ensures ReadAll(layout, Print(layout[0], v) + tail, limits)
         == Prepend(Field(v, |Print(layout[0], v)|), ReadAll(layout[1..], tail, limits))
  {
    hide Read; hide Print;
    ReadOfPrint(layout[0], v, tail, limits);
    PrintIsNotEmpty(layout[0], v);
    assert (Print(layout[0], v) + tail)[|Print(layout[0], v)|..] == tail;
  }

  lemma SuitStep(layout: seq<Kind>, values: seq<Value>, limits: Limits)
    requires layout != [] && Suit(layout, values, limits)
    ensures Suits(layout[0], values[0]) && Within(layout[0], values[0], limits)
    ensures Suit(layout[1..], values[1..], limits)
  {
  }

  /** Leading fields written, then anything: the reader gets those fields and carries
      on with what follows. */
  lemma {:induction false} ReadAllSplits(known: seq<Kind>, more: seq<Kind>, values: seq<Value>, tail: seq<byte>,
                                         limits: Limits)
    requires |values| == |known| && Suit(known, values, limits)
    ensures var after := ReadAll(more, tail, limits); var written := PrintAll(known, values);
      ReadAll(known + more, written + tail, limits)
        == Record(values + after.values, |written| + after.used, after.error)
    decreases |known|
  {
    hide Read; hide Print; hide Suits; hide Within; hide ReadAll; hide Suit;
    if known == [] {
      assert known + more == more && PrintAll(known, values) + tail == tail && values == [];
    } else {
      SuitStep(known, values, limits);
      var later := PrintAll(known[1..], values[1..]) + tail;
      assert PrintAll(known, values) + tail == Print(known[0], values[0]) + later;
      assert (known + more)[0] == known[0] && (known + more)[1..] == known[1..] + more;
      ReadAllStep(known + more, values[0], later, limits);
      ReadAllSplits(known[1..], more, values[1..], tail, limits);
      assert values == [values[0]] + values[1..];
    }
  }

  /** A reader of the same fields gets them back, and bytes after them change nothing:
      they are a newer writer's. */
  lemma NewerWriter(layout: seq<Kind>, values: seq<Value>, tail: seq<byte>, limits: Limits)
    requires Suit(layout, values, limits)
    ensures ReadAll(layout, PrintAll(layout, values) + tail, limits)
         == Record(values, |PrintAll(layout, values)|, None)
  {
    ReadAllSplits(layout, [], values, tail, limits);
    assert layout + [] == layout && values + [] == values;
    hide ReadAll; hide PrintAll;
    assert ReadAll([], tail, limits) == Record([], 0, None) by { NoFields(tail, limits); }
  }

  lemma NoFields(rest: seq<byte>, limits: Limits)
    ensures ReadAll([], rest, limits) == Record([], 0, None)
  {
  }

  /** A reader that knows more fields than were written finds the rest zero. */
  lemma OlderWriter(known: seq<Kind>, more: seq<Kind>, values: seq<Value>, limits: Limits)
    requires Suit(known, values, limits)
    ensures ReadAll(known + more, PrintAll(known, values), limits)
         == Record(values + Zeros(more), |PrintAll(known, values)|, None)
  {
    ReadAllSplits(known, more, values, [], limits);
    ReadAllOfNothing(more, limits);
    hide ReadAll; hide PrintAll; hide Zeros;
    assert PrintAll(known, values) + [] == PrintAll(known, values);
  }

  lemma SuitPrefix(layout: seq<Kind>, values: seq<Value>, k: nat, limits: Limits)
    requires Suit(layout, values, limits) && k <= |layout|
    ensures Suit(layout[..k], values[..k], limits)
  {
  }

  lemma ReadAllFails(layout: seq<Kind>, rest: seq<byte>, limits: Limits)
    requires layout != [] && rest != [] && Read(layout[0], rest, limits).Err?
    ensures ReadAll(layout, rest, limits) == Record([], 0, Some(Read(layout[0], rest, limits).error))
  {
    hide Read;
  }

  /** Where an encoding was cut: before field `field`, or `inside` bytes into it. */
  datatype Cut = Cut(field: nat, inside: nat)

  function CutOf(layout: seq<Kind>, values: seq<Value>, at: nat): (c: Cut)
    requires |values| == |layout| && at <= |PrintAll(layout, values)|
    ensures c.field <= |layout|
    ensures c.inside > 0 ==> c.field < |layout| && c.inside < |Print(layout[c.field], values[c.field])|
    decreases |layout|
  {
    if layout == [] then Cut(0, 0)
    else
      var first := |Print(layout[0], values[0])|;
      if at < first then Cut(0, at)
      else
        var c := CutOf(layout[1..], values[1..], at - first);
        Cut(c.field + 1, c.inside)
  }

  lemma PrintAllStep(layout: seq<Kind>, values: seq<Value>, k: nat)
    requires |values| == |layout| && k < |layout|
    ensures PrintAll(layout[..k + 1], values[..k + 1])
         == Print(layout[0], values[0]) + PrintAll(layout[1..][..k], values[1..][..k])
  {
    hide Print;
    assert layout[..k + 1][1..] == layout[1..][..k] && values[..k + 1][1..] == values[1..][..k];
  }

  /** A cut leaves the fields before it whole, and so many bytes of the one it hits. */
  lemma {:induction false} CutLeaves(layout: seq<Kind>, values: seq<Value>, at: nat)
    requires |values| == |layout| && at <= |PrintAll(layout, values)|
    ensures var c := CutOf(layout, values, at);
      PrintAll(layout, values)[..at] ==
        PrintAll(layout[..c.field], values[..c.field])
        + (if c.inside > 0 then Print(layout[c.field], values[c.field])[..c.inside] else [])
    decreases |layout|
  {
    hide Print;
    if layout != [] {
      var first, rest := Print(layout[0], values[0]), PrintAll(layout[1..], values[1..]);
      assert PrintAll(layout, values) == first + rest;
      if at >= |first| {
        var c := CutOf(layout[1..], values[1..], at - |first|);
        var known := PrintAll(layout[1..][..c.field], values[1..][..c.field]);
        CutLeaves(layout[1..], values[1..], at - |first|);
        PrintAllStep(layout, values, c.field);
        hide PrintAll;
        assert (first + rest)[..at] == first + rest[..at - |first|];
        var part := if c.inside > 0 then Print(layout[1..][c.field], values[1..][c.field])[..c.inside] else [];
        assert first + (known + part) == (first + known) + part;
      }
    }
  }

  /** Version skew, for every cut: cut between fields, an encoding decodes to the
      fields before the cut and zeros after; cut inside a field, it is an unexpected
      end in that field, and the fields before it have been read. */
  lemma EveryCut(layout: seq<Kind>, values: seq<Value>, at: nat, limits: Limits)
    requires |values| == |layout| && Suit(layout, values, limits) && at <= |PrintAll(layout, values)|
    ensures var c := CutOf(layout, values, at); var r := ReadAll(layout, PrintAll(layout, values)[..at], limits);
      if c.inside == 0
      then r == Record(values[..c.field] + Zeros(layout[c.field..]), at, None)
      else r.values == values[..c.field] && r.used == at - c.inside
           && r.error.Some? && r.error.value.UnexpectedEof?
           && r.error.value.needed > r.error.value.remaining
  {
    hide ReadAll; hide PrintAll; hide Zeros; hide Read; hide Print; hide Suits; hide Within; hide CutOf; hide Suit;
    var c := CutOf(layout, values, at);
    var known, more := layout[..c.field], layout[c.field..];
    CutLeaves(layout, values, at);
    SuitPrefix(layout, values, c.field, limits);
    assert known + more == layout;
    if c.inside == 0 {
      assert PrintAll(layout, values)[..at] == PrintAll(known, values[..c.field]);
      OlderWriter(known, more, values[..c.field], limits);
    } else {
      var part := Print(layout[c.field], values[c.field])[..c.inside];
      ReadAllSplits(known, more, values[..c.field], part, limits);
      CutIsUnexpected(layout, values, c, limits);
      ReadAllFails(more, part, limits);
      assert values[..c.field] + [] == values[..c.field];
    }
  }

  lemma CutIsUnexpected(layout: seq<Kind>, values: seq<Value>, c: Cut, limits: Limits)
    requires Suit(layout, values, limits) && c.field < |layout|
    requires 0 < c.inside < |Print(layout[c.field], values[c.field])|
    ensures var r := Read(layout[c.field], Print(layout[c.field], values[c.field])[..c.inside], limits);
      r.Err? && r.error.UnexpectedEof? && r.error.needed > r.error.remaining
  {
    hide Read; hide Print; hide Suits; hide Within;
    ReadOfCut(layout[c.field], values[c.field], c.inside, limits);
  }

  /** Conversely, whatever decodes was written by someone: the bytes used are the print
      of leading fields, and the others are zero because the bytes had ended. */
  lemma {:induction false} DecodedWasWritten(layout: seq<Kind>, rest: seq<byte>, limits: Limits)
    requires ReadAll(layout, rest, limits).error.None?
    ensures var r := ReadAll(layout, rest, limits);
      && |r.values| == |layout| && r.used <= |rest|
      && exists k | 0 <= k <= |layout| ::
           && Suit(layout[..k], r.values[..k], limits)
           && PrintAll(layout[..k], r.values[..k]) == rest[..r.used]
           && r.values[k..] == Zeros(layout[k..])
           && (k < |layout| ==> r.used == |rest|)
    decreases |layout|
  {
    hide Read; hide Print; hide Suits; hide Within;
    var r := ReadAll(layout, rest, limits);
    if layout == [] {
      assert Suit(layout[..0], r.values[..0], limits) && PrintAll(layout[..0], r.values[..0]) == rest[..r.used];
    } else if rest == [] {
      ReadAllOfNothing(layout, limits);
      assert r.values[0..] == Zeros(layout[0..]) by { assert layout[0..] == layout && r.values[0..] == r.values; }
      assert Suit(layout[..0], r.values[..0], limits) && PrintAll(layout[..0], r.values[..0]) == rest[..r.used];
    } else {
      var f := Read(layout[0], rest, limits).value;
      PrintOfRead(layout[0], rest, limits);
      var later := ReadAll(layout[1..], rest[f.used..], limits);
      DecodedWasWritten(layout[1..], rest[f.used..], limits);
      var k :| 0 <= k <= |layout| - 1
        && Suit(layout[1..][..k], later.values[..k], limits)
        && PrintAll(layout[1..][..k], later.values[..k]) == rest[f.used..][..later.used]
        && later.values[k..] == Zeros(layout[1..][k..])
        && (k < |layout| - 1 ==> later.used == |rest| - f.used);
      PutBack(layout, rest, f, later, k, limits);
    }
  }

  lemma PutBack(layout: seq<Kind>, rest: seq<byte>, f: Field, later: Record, k: nat, limits: Limits)
    requires layout != [] && k <= |layout| - 1 && |later.values| == |layout| - 1
    requires 0 < f.used <= |rest| && later.used <= |rest| - f.used
    requires Suits(layout[0], f.value) && Within(layout[0], f.value, limits)
    requires Print(layout[0], f.value) == rest[..f.used]
    requires Suit(layout[1..][..k], later.values[..k], limits)
    requires PrintAll(layout[1..][..k], later.values[..k]) == rest[f.used..][..later.used]
    ensures var values := [f.value] + later.values;
      && Suit(layout[..k + 1], values[..k + 1], limits)
      && PrintAll(layout[..k + 1], values[..k + 1]) == rest[..f.used + later.used]
      && values[k + 1..] == later.values[k..] && layout[k + 1..] == layout[1..][k..]
  {
    hide Print; hide Suits; hide Within;
    var values := [f.value] + later.values;
    assert layout[..k + 1][1..] == layout[1..][..k] && values[..k + 1][1..] == later.values[..k];
    assert rest[..f.used + later.used] == rest[..f.used] + rest[f.used..][..later.used];
  }
}
