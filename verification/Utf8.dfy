/** The hand-written UTF-8 validator, proved exact against the encoding that
    sections 3 and 4 of RFC 3629 define. */
module Utf8 {
  import opened Bytes

  // ---- The standard ------------------------------------------------------------

  /** A Unicode scalar value: a code point that is no surrogate. */
  type Scalar = x: int | 0 <= x < 0xD800 || 0xE000 <= x < 0x11_0000

  /** The octets of one scalar value, in the shortest of the four forms. */
  function EncodeScalar(c: Scalar): (r: seq<byte>)
    ensures 0 < |r| <= 4
  {
    if c < 0x80 then [c]
    else if c < 0x800 then [0xC0 + c / 0x40, 0x80 + c % 0x40]
    else if c < 0x1_0000 then [0xE0 + c / 0x1000, 0x80 + c / 0x40 % 0x40, 0x80 + c % 0x40]
    else [0xF0 + c / 0x4_0000, 0x80 + c / 0x1000 % 0x40, 0x80 + c / 0x40 % 0x40, 0x80 + c % 0x40]
  }

  function EncodeText(text: seq<Scalar>): seq<byte> {
    if text == [] then [] else EncodeScalar(text[0]) + EncodeText(text[1..])
  }

  /** The byte strings that are UTF-8. */
  ghost predicate IsText(bytes: seq<byte>) {
    exists text: seq<Scalar> :: EncodeText(text) == bytes
  }

  // ---- What the validator does to the front of its input -----------------------

  lemma NextBits(x: bv8)
    requires x != 0xFF
    ensures (x + 1) as int == x as int + 1
  {
  }

  /** The eight bits of a byte: the bit pattern whose value the byte is. */
  function BitsOf(b: byte): (x: bv8)
    ensures x as int == b
  {
    if b == 0 then 0 else NextBits(BitsOf(b - 1)); BitsOf(b - 1) + 1
  }

  /** A byte with all but the bits of a mask cleared. */
  function Masked(b: byte, mask: bv8): byte {
    (BitsOf(b) & mask) as int
  }

  lemma TwoLow(x: bv8)
    ensures (x & 0x1F) as int == x as int % 0x20
  {
  }

  lemma ThreeLow(x: bv8)
    ensures (x & 0x0F) as int == x as int % 0x10
  {
  }

  lemma FourLow(x: bv8)
    ensures (x & 0x07) as int == x as int % 0x08
  {
  }

  lemma TailLow(x: bv8)
    ensures (x & 0x3F) as int == x as int % 0x40
  {
  }

  lemma TwoHigh(x: bv8)
    ensures (x & 0xE0) as int == 0xC0 <==> x as int / 0x20 == 6
  {
  }

  lemma ThreeHigh(x: bv8)
    ensures (x & 0xF0) as int == 0xE0 <==> x as int / 0x10 == 14
  {
  }

  lemma FourHigh(x: bv8)
    ensures (x & 0xF8) as int == 0xF0 <==> x as int / 0x08 == 30
  {
  }

  lemma TailHigh(x: bv8)
    ensures (x & 0xC0) as int == 0x80 <==> x as int / 0x40 == 2
  {
  }

  /** The tests by bit mask that the validator makes are tests of high digits, and the
      bits it keeps are low digits. */
  lemma MasksAreDigits(b: byte)
    ensures (Masked(b, 0xE0) == 0xC0 <==> b / 0x20 == 6) && Masked(b, 0x1F) == b % 0x20
    ensures (Masked(b, 0xF0) == 0xE0 <==> b / 0x10 == 14) && Masked(b, 0x0F) == b % 0x10
    ensures (Masked(b, 0xF8) == 0xF0 <==> b / 0x08 == 30) && Masked(b, 0x07) == b % 0x08
    ensures (Masked(b, 0xC0) == 0x80 <==> b / 0x40 == 2) && Masked(b, 0x3F) == b % 0x40
  {
    hide BitsOf;
    var x := BitsOf(b);
    TwoHigh(x); TwoLow(x);
    ThreeHigh(x); ThreeLow(x);
    FourHigh(x); FourLow(x);
    TailHigh(x); TailLow(x);
  }

  /** Shifting a code point on and filling in six bits is multiplying and adding. */
  lemma ShiftIsTimes(codepoint: bv32, continuation: bv32)
    requires codepoint < 0x400_0000
    ensures (codepoint << 6) | (continuation & 0x3F) == codepoint * 0x40 + continuation % 0x40
  {
  }

  /** How many bytes follow the lead byte, the least value of this form, and the
      bits the lead byte contributes. */
  datatype Form = Form(extra: nat, minimum: nat, bits: nat)

  function FormOf(lead: byte): Option<Form>
    requires lead >= 0x80
  {
    if lead / 0x20 == 6 then Some(Form(1, 0x80, lead % 0x20))
    else if lead / 0x10 == 14 then Some(Form(2, 0x800, lead % 0x10))
    else if lead / 0x08 == 30 then Some(Form(3, 0x1_0000, lead % 0x08))
    else None
  }

  predicate Continuation(b: byte) {
    b / 0x40 == 2
  }

  /** The number that lead bits and continuation bytes make up. */
  function Gather(bits: nat, tail: seq<byte>): nat {
    if tail == [] then bits else Gather(bits, tail[..|tail| - 1]) * 0x40 + tail[|tail| - 1] % 0x40
  }

  datatype Taken = Taken(value: Scalar, length: nat)

  /** The scalar value the bytes begin with. */
  function Front(bytes: seq<byte>): (r: Option<Taken>)
    requires bytes != []
    ensures r.Some? ==> 0 < r.value.length <= |bytes|
  {
    if bytes[0] < 0x80 then Some(Taken(bytes[0], 1))
    else
      match FormOf(bytes[0])
      case None => None
      case Some(form) =>
        if |bytes| <= form.extra then None
        else if exists k | 1 <= k <= form.extra :: !Continuation(bytes[k]) then None
        else
          var value := Gather(form.bits, bytes[1..1 + form.extra]);
          if value < form.minimum || value > 0x10_FFFF || 0xD800 <= value <= 0xDFFF then None
          else Some(Taken(value, 1 + form.extra))
  }

  lemma GatherOne(bits: nat, a: byte)
    ensures Gather(bits, [a]) == bits * 0x40 + a % 0x40
  {
    assert [a][..0] == [];
  }

  lemma GatherTwo(bits: nat, a: byte, b: byte)
    ensures Gather(bits, [a, b]) == (bits * 0x40 + a % 0x40) * 0x40 + b % 0x40
  {
    GatherOne(bits, a);
    assert [a, b][..1] == [a];
  }

  lemma GatherThree(bits: nat, a: byte, b: byte, c: byte)
    ensures Gather(bits, [a, b, c]) == ((bits * 0x40 + a % 0x40) * 0x40 + b % 0x40) * 0x40 + c % 0x40
  {
    GatherTwo(bits, a, b);
    assert [a, b, c][..2] == [a, b];
  }

  /** Base-64 digits: of a number, and back from its digits. */
  lemma Digits(v: nat)
    ensures v / 0x1000 == v / 0x40 / 0x40 && v / 0x4_0000 == v / 0x40 / 0x40 / 0x40
    ensures v == v / 0x40 * 0x40 + v % 0x40
  {
  }

  lemma DigitBack(high: nat, b: byte)
    requires Continuation(b)
    ensures (high * 0x40 + b % 0x40) / 0x40 == high && (high * 0x40 + b % 0x40) % 0x40 == b % 0x40
    ensures 0x80 + b % 0x40 == b
  {
  }

  lemma DigitIsContinuation(d: nat)
    requires d < 0x40
    ensures Continuation(0x80 + d) && (0x80 + d) % 0x40 == d
  {
  }

  /** The number the three continuation bytes of an encoding make up with its lead. */
  lemma GatherOfEncoding(c: Scalar)
    requires c >= 0x80
    ensures var code := EncodeScalar(c); var form := FormOf(code[0]);
      && form.Some? && |code| == 1 + form.value.extra && form.value.minimum <= c
      && Gather(form.value.bits, code[1..]) == c
      && forall k | 1 <= k < |code| :: Continuation(code[k])
  {
    hide Gather; hide Continuation;
    var code := EncodeScalar(c);
    Digits(c);
    Digits(c / 0x40);
    Digits(c / 0x1000);
    DigitIsContinuation(c % 0x40);
    DigitIsContinuation(c / 0x40 % 0x40);
    DigitIsContinuation(c / 0x1000 % 0x40);
    if c < 0x800 {
      assert FormOf(code[0]) == Some(Form(1, 0x80, c / 0x40));
      GatherOne(c / 0x40, code[1]);
      assert code[1..] == [code[1]];
    } else if c < 0x1_0000 {
      assert FormOf(code[0]) == Some(Form(2, 0x800, c / 0x1000));
      GatherTwo(c / 0x1000, code[1], code[2]);
      assert code[1..] == [code[1], code[2]];
    } else {
      assert FormOf(code[0]) == Some(Form(3, 0x1_0000, c / 0x4_0000));
      GatherThree(c / 0x4_0000, code[1], code[2], code[3]);
      assert code[1..] == [code[1], code[2], code[3]];
    }
  }

  /** What was encoded is what the validator finds at the front. */
  lemma FrontOfEncoding(c: Scalar, tail: seq<byte>)
    ensures Front(EncodeScalar(c) + tail) == Some(Taken(c, |EncodeScalar(c)|))
  {
    var code := EncodeScalar(c);
    var bytes := code + tail;
    if c >= 0x80 {
      GatherOfEncoding(c);
      assert code[0] >= 0x80;
      hide Gather; hide Continuation; hide EncodeScalar; hide FormOf;
      assert bytes[1..|code|] == code[1..];
      forall k | 1 <= k < |code| ensures Continuation(bytes[k]) { assert bytes[k] == code[k]; }
    }
  }

  lemma TwoDigits(bits: nat, a: byte, b: byte)
    requires Continuation(a) && Continuation(b)
    ensures var v := (bits * 0x40 + a % 0x40) * 0x40 + b % 0x40;
      v / 0x1000 == bits && 0x80 + v / 0x40 % 0x40 == a && 0x80 + v % 0x40 == b
  {
    Digits((bits * 0x40 + a % 0x40) * 0x40 + b % 0x40);
    DigitBack(bits, a);
    DigitBack(bits * 0x40 + a % 0x40, b);
  }

  lemma ThreeDigits(bits: nat, a: byte, b: byte, d: byte)
    requires Continuation(a) && Continuation(b) && Continuation(d)
    ensures var v := ((bits * 0x40 + a % 0x40) * 0x40 + b % 0x40) * 0x40 + d % 0x40;
      && v / 0x4_0000 == bits && 0x80 + v / 0x1000 % 0x40 == a
      && 0x80 + v / 0x40 % 0x40 == b && 0x80 + v % 0x40 == d
  {
    var high := (bits * 0x40 + a % 0x40) * 0x40 + b % 0x40;
    hide Continuation;
    TwoDigits(bits, a, b);
    DigitBack(high, d);
    Digits(high * 0x40 + d % 0x40);
    Digits(high);
  }

  lemma SpellTwo(lead: byte, tail: seq<byte>, c: Scalar)
    requires lead / 0x20 == 6 && |tail| == 1 && Continuation(tail[0])
    requires c == Gather(lead % 0x20, tail) && c >= 0x80
    ensures EncodeScalar(c) == [lead] + tail
  {
    assert tail == [tail[0]];
    GatherOne(lead % 0x20, tail[0]);
    hide Gather;
    DigitBack(lead % 0x20, tail[0]);
    LongEnough(lead % 0x20, 0x20, tail[0]);
  }

  lemma SpellThree(lead: byte, tail: seq<byte>, c: Scalar)
    requires lead / 0x10 == 14 && |tail| == 2 && Continuation(tail[0]) && Continuation(tail[1])
    requires c == Gather(lead % 0x10, tail) && c >= 0x800
    ensures EncodeScalar(c) == [lead] + tail
  {
    assert tail == [tail[0], tail[1]];
    GatherTwo(lead % 0x10, tail[0], tail[1]);
    hide Gather;
    TwoDigits(lead % 0x10, tail[0], tail[1]);
    LongEnough(lead % 0x10, 0x10, tail[0]);
    LongEnough(lead % 0x10 * 0x40 + tail[0] % 0x40, 0x400, tail[1]);
  }

  lemma SpellFour(lead: byte, tail: seq<byte>, c: Scalar)
    requires lead / 0x08 == 30 && |tail| == 3
    requires Continuation(tail[0]) && Continuation(tail[1]) && Continuation(tail[2])
    requires c == Gather(lead % 0x08, tail) && c >= 0x1_0000
    ensures EncodeScalar(c) == [lead] + tail
  {
    assert tail == [tail[0], tail[1], tail[2]];
    GatherThree(lead % 0x08, tail[0], tail[1], tail[2]);
    hide Gather;
    ThreeDigits(lead % 0x08, tail[0], tail[1], tail[2]);
  }

  lemma FormCases(lead: byte)
    requires lead >= 0x80 && FormOf(lead).Some?
    ensures var form := FormOf(lead).value;
      || (lead / 0x20 == 6 && form == Form(1, 0x80, lead % 0x20))
      || (lead / 0x10 == 14 && form == Form(2, 0x800, lead % 0x10))
      || (lead / 0x08 == 30 && form == Form(3, 0x1_0000, lead % 0x08))
  {
  }

  /** Lead and continuation bytes that gather to a value of their form spell it. */
  lemma EncodingOfGather(lead: byte, tail: seq<byte>, c: Scalar)
    requires lead >= 0x80 && FormOf(lead).Some? && |tail| == FormOf(lead).value.extra
    requires forall k | 0 <= k < |tail| :: Continuation(tail[k])
    requires c == Gather(FormOf(lead).value.bits, tail) && c >= FormOf(lead).value.minimum
    ensures EncodeScalar(c) == [lead] + tail
  {
    hide *;
    FormCases(lead);
    if |tail| == 1 {
      SpellTwo(lead, tail, c);
    } else if |tail| == 2 {
      SpellThree(lead, tail, c);
    } else {
      SpellFour(lead, tail, c);
    }
  }

  lemma LongEnough(high: nat, limit: nat, b: byte)
    requires high < limit
    ensures high * 0x40 + b % 0x40 < limit * 0x40
  {
  }

  /** What the validator finds at the front is encoded by exactly the bytes it takes. */
  lemma EncodingOfFront(bytes: seq<byte>)
    requires bytes != [] && Front(bytes).Some?
    ensures EncodeScalar(Front(bytes).value.value) == bytes[..Front(bytes).value.length]
  {
    hide Gather; hide Continuation; hide EncodeScalar; hide FormOf;
    var found := Front(bytes).value;
    if bytes[0] >= 0x80 {
      var tail := bytes[1..found.length];
      forall k | 0 <= k < |tail| ensures Continuation(tail[k]) { assert tail[k] == bytes[k + 1]; }
      EncodingOfGather(bytes[0], tail, found.value);
      assert bytes[..found.length] == [bytes[0]] + tail;
    } else {
      SmallIsItself(bytes[0]);
      assert bytes[..1] == [bytes[0]];
    }
  }

  lemma SmallIsItself(b: byte)
    requires b < 0x80
    ensures EncodeScalar(b) == [b]
  {
  }

  // ---- Exactness ---------------------------------------------------------------

  /** A byte string is text exactly when its front is and the rest is. */
  lemma TextByFront(bytes: seq<byte>)
    requires bytes != []
    ensures IsText(bytes) <==> Front(bytes).Some? && IsText(bytes[Front(bytes).value.length..])
  {
    hide Front; hide EncodeScalar;
    if IsText(bytes) {
      var text: seq<Scalar> :| EncodeText(text) == bytes;
      FrontOfEncoding(text[0], EncodeText(text[1..]));
      assert bytes[|EncodeScalar(text[0])|..] == EncodeText(text[1..]);
    }
    if Front(bytes).Some? && IsText(bytes[Front(bytes).value.length..]) {
      var found := Front(bytes).value;
      var rest: seq<Scalar> :| EncodeText(rest) == bytes[found.length..];
      EncodingOfFront(bytes);
      assert ([found.value] + rest)[1..] == rest;
      assert EncodeText([found.value] + rest) == bytes[..found.length] + bytes[found.length..];
    }
  }

  lemma EmptyIsText()
    ensures IsText([])
  {
    assert EncodeText([]) == [];
  }

  /** No byte string is the encoding of two texts. */
  lemma {:induction false} TextIsUnique(a: seq<Scalar>, b: seq<Scalar>)
    requires EncodeText(a) == EncodeText(b)
    ensures a == b
  {
    hide EncodeScalar; hide Front;
    if a != [] && b != [] {
      FrontOfEncoding(a[0], EncodeText(a[1..]));
      FrontOfEncoding(b[0], EncodeText(b[1..]));
      var n := |EncodeScalar(a[0])|;
      assert EncodeText(a)[n..] == EncodeText(a[1..]) && EncodeText(b)[n..] == EncodeText(b[1..]);
      TextIsUnique(a[1..], b[1..]);
      assert a == [a[0]] + a[1..] && b == [b[0]] + b[1..];
    }
  }

  /** The validator: it accepts the encodings of texts and nothing else. */
  method IsValidUtf8(data: seq<byte>) returns (valid: bool)
    ensures valid <==> IsText(data)
  {
    hide EncodeScalar; hide IsText; hide Gather; hide Masked;
    var i := 0;
    while i < |data|
      invariant 0 <= i <= |data|
      invariant IsText(data) <==> IsText(data[i..])
    {
      var lead := data[i];
      var extra: nat, minimum: nat, codepoint: nat;
      TextByFront(data[i..]);
      MasksAreDigits(lead);
      if lead < 0x80 {
        i := i + 1;
        continue;
      }
      if Masked(lead, 0xE0) == 0xC0 {
        extra, minimum, codepoint := 1, 0x80, Masked(lead, 0x1F);
      } else if Masked(lead, 0xF0) == 0xE0 {
        extra, minimum, codepoint := 2, 0x800, Masked(lead, 0x0F);
      } else if Masked(lead, 0xF8) == 0xF0 {
        extra, minimum, codepoint := 3, 0x1_0000, Masked(lead, 0x07);
      } else {
        return false;
      }
      ghost var bits := codepoint;
      assert FormOf(lead) == Some(Form(extra, minimum, bits));
      GatherNone(bits, data[i..][1..1]);
      if i + extra >= |data| { return false; }
      for j := 1 to extra + 1
        invariant forall k | 1 <= k < j :: Continuation(data[i..][k])
        invariant codepoint == Gather(bits, data[i..][1..j])
      {
        var continuation := data[i + j];
        MasksAreDigits(continuation);
        if Masked(continuation, 0xC0) != 0x80 {
          assert !Continuation(data[i..][j]);
          return false;
        }
        GatherMore(bits, data[i..], j);
        codepoint := codepoint * 0x40 + Masked(continuation, 0x3F);
      }
      if codepoint < minimum { return false; }
      if codepoint > 0x10_FFFF { return false; }
      if 0xD800 <= codepoint <= 0xDFFF { return false; }
      assert data[i..][extra + 1..] == data[i + extra + 1..];
      i := i + extra + 1;
    }
    EmptyIsText();
    assert data[i..] == [];
    return true;
  }

  lemma GatherNone(bits: nat, none: seq<byte>)
    requires none == []
    ensures Gather(bits, none) == bits
  {
  }

  lemma GatherMore(bits: nat, bytes: seq<byte>, j: nat)
    requires 1 <= j < |bytes|
    ensures Gather(bits, bytes[1..j + 1]) == Gather(bits, bytes[1..j]) * 0x40 + bytes[j] % 0x40
  {
    assert bytes[1..j + 1][..j - 1] == bytes[1..j];
  }
}
