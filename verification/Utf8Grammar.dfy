/** The grammar that section 4 of RFC 3629 gives for UTF-8, as ranges of octets, and that
    it describes exactly the encodings of scalar values. */
module Utf8Grammar {
  import opened Bytes
  import opened Utf8

  predicate Tail(b: byte) {
    0x80 <= b <= 0xBF
  }

  /** The octets allowed after a lead octet of three. */
  predicate SecondOfThree(lead: byte, b: byte) {
    || (lead == 0xE0 && 0xA0 <= b <= 0xBF)
    || ((0xE1 <= lead <= 0xEC || 0xEE <= lead <= 0xEF) && Tail(b))
    || (lead == 0xED && 0x80 <= b <= 0x9F)
  }

  /** The octets allowed after a lead octet of four. */
  predicate SecondOfFour(lead: byte, b: byte) {
    || (lead == 0xF0 && 0x90 <= b <= 0xBF)
    || (0xF1 <= lead <= 0xF3 && Tail(b))
    || (lead == 0xF4 && 0x80 <= b <= 0x8F)
  }

  /** The length of the UTF8-char the bytes begin with, zero if they begin with none. */
  function CharLength(bytes: seq<byte>): (r: nat)
    ensures r <= |bytes|
  {
    if bytes == [] then 0
    else if bytes[0] <= 0x7F then 1
    else if |bytes| >= 2 && 0xC2 <= bytes[0] <= 0xDF && Tail(bytes[1]) then 2
    else if |bytes| >= 3 && SecondOfThree(bytes[0], bytes[1]) && Tail(bytes[2]) then 3
    else if |bytes| >= 4 && SecondOfFour(bytes[0], bytes[1]) && Tail(bytes[2]) && Tail(bytes[3]) then 4
    else 0
  }

  /** UTF8-octets: any number of UTF8-chars. */
  predicate Octets(bytes: seq<byte>)
    decreases |bytes|
  {
    bytes == [] || (CharLength(bytes) > 0 && Octets(bytes[CharLength(bytes)..]))
  }

  lemma TwoForm(bytes: seq<byte>)
    requires |bytes| > 0 && bytes[0] / 0x20 == 6
    ensures CharLength(bytes) == match Front(bytes) case None => 0 case Some(taken) => taken.length
  {
    if |bytes| >= 2 {
      assert bytes[1..2] == [bytes[1]];
      GatherOne(bytes[0] % 0x20, bytes[1]);
    }
  }

  lemma ThreeForm(bytes: seq<byte>)
    requires |bytes| > 0 && bytes[0] / 0x10 == 14
    ensures CharLength(bytes) == match Front(bytes) case None => 0 case Some(taken) => taken.length
  {
    if |bytes| >= 3 {
      assert bytes[1..3] == [bytes[1], bytes[2]];
      GatherTwo(bytes[0] % 0x10, bytes[1], bytes[2]);
    }
    hide Gather;
  }

  lemma FourForm(bytes: seq<byte>)
    requires |bytes| > 0 && bytes[0] / 0x08 == 30
    ensures CharLength(bytes) == match Front(bytes) case None => 0 case Some(taken) => taken.length
  {
    if |bytes| >= 4 {
      assert bytes[1..4] == [bytes[1], bytes[2], bytes[3]];
      GatherThree(bytes[0] % 0x08, bytes[1], bytes[2], bytes[3]);
    }
    hide Gather;
  }

  lemma FrontIsGrammar(bytes: seq<byte>)
    requires bytes != []
    ensures CharLength(bytes) == match Front(bytes) case None => 0 case Some(taken) => taken.length
  {
    if bytes[0] / 0x20 == 6 {
      TwoForm(bytes);
    } else if bytes[0] / 0x10 == 14 {
      ThreeForm(bytes);
    } else if bytes[0] / 0x08 == 30 {
      FourForm(bytes);
    }
  }

  /** The grammar is the encoding: a byte string is UTF8-octets by the ranges of the
      standard iff it is the encoding of a sequence of scalar values. */
  lemma {:induction false} GrammarIsEncoding(bytes: seq<byte>)
    ensures Octets(bytes) <==> IsText(bytes)
    decreases |bytes|
  {
    hide Front; hide IsText; hide CharLength;
    if bytes == [] {
      EmptyIsText();
    } else {
      FrontIsGrammar(bytes);
      TextByFront(bytes);
      if CharLength(bytes) > 0 { GrammarIsEncoding(bytes[CharLength(bytes)..]); }
    }
  }
}
