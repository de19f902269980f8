/** The writer and the reader as objects: a growing buffer, and a cursor that a failed
    read leaves where it was. */
module CodecBuffers {
  import opened Bytes
  import opened Utf8
  import opened Codec

  class Writer {
    var buf: seq<byte>

    constructor ()
      ensures buf == []
    {
      buf := [];
    }

    method WriteLittleEndian(value: nat, byteCount: nat)
      modifies this
      ensures buf == old(buf) + LeBytes(value, byteCount)
    {
      var rest := value;
      for i := 0 to byteCount
        invariant rest >= 0
        invariant buf + LeBytes(rest, byteCount - i) == old(buf) + LeBytes(value, byteCount)
      {
        ghost var digits := LeBytes(rest, byteCount - i);
        assert digits == [rest % 0x100] + LeBytes(rest / 0x100, byteCount - i - 1);
        ghost var was := buf;
        buf := buf + [rest % 0x100];
        assert buf + LeBytes(rest / 0x100, byteCount - i - 1) == was + digits;
        rest := rest / 0x100;
      }
      assert buf + LeBytes(rest, 0) == buf;
    }

    method WriteBool(value: bool)
      modifies this
      ensures buf == old(buf) + Print(Bool, Flag(value))
    {
      buf := buf + [if value then 1 else 0];
    }

    method WriteU8(value: byte)
      modifies this
      ensures buf == old(buf) + Print(U8, Num(value))
    {
      WriteLittleEndian(value, 1);
    }

    method WriteU32(value: u32)
      modifies this
      ensures buf == old(buf) + Print(U32, Num(value))
    {
      WriteLittleEndian(value, 4);
    }

    /** The bit pattern goes out unmodified. */
    method WriteF32(bits: u32)
      modifies this
      ensures buf == old(buf) + Print(F32, Num(bits))
    {
      WriteLittleEndian(bits, 4);
    }

    /** The length must be one the wire can say. */
    method WriteLen(length: nat)
      requires length <= U32_MAX
      modifies this
      ensures buf == old(buf) + LeBytes(length, 4)
    {
      WriteLittleEndian(length, 4);
    }

    method WriteString(value: seq<byte>)
      requires |value| <= U32_MAX && IsText(value)
      modifies this
      ensures buf == old(buf) + Print(Text, Octets(value))
    {
      WriteLen(|value|);
      buf := buf + value;
    }

    method WriteBytes(value: seq<byte>)
      requires |value| <= U32_MAX
      modifies this
      ensures buf == old(buf) + Print(Blob, Octets(value))
    {
      WriteLen(|value|);
      buf := buf + value;
    }
  }

  /** What asking for a field must give, and how far it must move the cursor. */
  ghost predicate FieldIs(kind: Kind, rest: seq<byte>, limits: Limits, outcome: Outcome<Value>, took: int) {
    if rest == [] then outcome == Ok(Zero(kind)) && took == 0
    else IsRead(kind, rest, limits, outcome, took)
  }

  ghost predicate IsRead(kind: Kind, rest: seq<byte>, limits: Limits, outcome: Outcome<Value>, took: int) {
    match Read(kind, rest, limits)
    case Ok(f) => outcome == Ok(f.value) && took == f.used
    case Err(error) => outcome == Err(error) && took == 0
  }

  function AsNum(r: Outcome<nat>): Outcome<Value> {
    match r case Ok(n) => Ok(Num(n)) case Err(error) => Err(error)
  }

  function AsFlag(r: Outcome<bool>): Outcome<Value> {
    match r case Ok(b) => Ok(Flag(b)) case Err(error) => Err(error)
  }

  function AsOctets(r: Outcome<seq<byte>>): Outcome<Value> {
    match r case Ok(bytes) => Ok(Octets(bytes)) case Err(error) => Err(error)
  }

  lemma {:induction false} LeValuePush(bytes: seq<byte>, b: byte)
    ensures LeValue(bytes + [b]) == LeValue(bytes) + b * Pow256(|bytes|)
  {
    if bytes == [] {
      assert [b][1..] == [];
      assert bytes + [b] == [b];
    } else {
      LeValuePush(bytes[1..], b);
      assert (bytes + [b])[1..] == bytes[1..] + [b];
      Regroup(bytes[0], LeValue(bytes[1..]), b, Pow256(|bytes| - 1));
    }
  }

  lemma Regroup(first: int, rest: int, b: int, scale: int)
    ensures first + 0x100 * (rest + b * scale) == first + 0x100 * rest + b * (0x100 * scale)
  {
  }

  class Reader {
    const buf: seq<byte>
    var pos: nat
    const limits: Limits

    ghost predicate Valid()
      reads this
    {
      pos <= |buf|
    }

    function Rest(): seq<byte>
      requires Valid()
      reads this
    {
      buf[pos..]
    }

    constructor (buf: seq<byte>, limits: Limits)
      ensures Valid() && this.buf == buf && this.limits == limits && pos == 0
    {
      this.buf, this.limits, pos := buf, limits, 0;
    }

    method Remaining() returns (left: nat)
      requires Valid()
      ensures left == |Rest()|
    {
      left := |buf| - pos;
    }

    /** The one place where the cursor moves on. */
    method Take(length: nat) returns (r: Outcome<seq<byte>>)
      requires Valid()
      modifies this
      ensures Valid()
      ensures var rest := old(Rest());
        if length > |rest| then r == Err(UnexpectedEof(length, |rest|)) && pos == old(pos)
        else r == Ok(rest[..length]) && pos == old(pos) + length && Rest() == rest[length..]
    {
      ghost var rest := Rest();
      var left := Remaining();
      if length > left {
        return Err(UnexpectedEof(length, left));
      }
      var bytes := buf[pos..pos + length];
      pos := pos + length;
      assert bytes == rest[..length] && Rest() == rest[length..];
      return Ok(bytes);
    }

    /** Little-endian bytes, gathered one shift at a time. */
    method ReadLittleEndian(byteCount: nat) returns (r: Outcome<nat>)
      requires Valid()
      modifies this
      ensures Valid()
      ensures var rest := old(Rest());
        if byteCount > |rest| then r == Err(UnexpectedEof(byteCount, |rest|)) && pos == old(pos)
        else r == Ok(LeValue(rest[..byteCount])) && pos == old(pos) + byteCount && Rest() == rest[byteCount..]
    {
      var bytes := Take(byteCount);
      if bytes.Err? { return Err(bytes.error); }
      var value: nat, scale: nat := 0, 1;
      for i := 0 to byteCount
        invariant Valid() && pos == old(pos) + byteCount && Rest() == old(Rest())[byteCount..]
        invariant scale == Pow256(i)
        invariant value == LeValue(bytes.value[..i])
      {
        LeValuePush(bytes.value[..i], bytes.value[i]);
        assert bytes.value[..i] + [bytes.value[i]] == bytes.value[..i + 1];
        value := value + bytes.value[i] * scale;
        scale := scale * 0x100;
      }
      assert bytes.value[..byteCount] == bytes.value;
      return Ok(value);
    }

    method ReadNum(kind: Kind) returns (r: Outcome<nat>)
      requires Valid() && Numeric(kind)
      modifies this
      ensures Valid() && IsRead(kind, old(Rest()), limits, AsNum(r), pos - old(pos))
    {
      hide LeValue;
      r := ReadLittleEndian(Width(kind));
    }

    method ReadBool() returns (r: Outcome<bool>)
      requires Valid()
      modifies this
      ensures Valid() && IsRead(Bool, old(Rest()), limits, AsFlag(r), pos - old(pos))
    {
      var bytes := Take(1);
      if bytes.Err? { return Err(bytes.error); }
      var b := bytes.value[0];
      if b == 0 { return Ok(false); }
      if b == 1 { return Ok(true); }
      pos := pos - 1;
      return Err(InvalidBool(b));
    }

    /** A length prefix, checked against its limit before anything else is read. */
    method ReadLen(limit: nat) returns (r: Outcome<nat>)
      requires Valid()
      modifies this
      ensures Valid()
      ensures var rest := old(Rest());
        if |rest| < 4 then r == Err(UnexpectedEof(4, |rest|)) && pos == old(pos)
        else if ReadU32(rest[..4]) > limit
        then r == Err(LengthOverflow(ReadU32(rest[..4]), limit)) && pos == old(pos)
        else r == Ok(ReadU32(rest[..4])) && pos == old(pos) + 4 && Rest() == rest[4..]
    {
      hide LeValue;
      var start := pos;
      var length := ReadLittleEndian(4);
      if length.Err? { return Err(length.error); }
      if length.value > limit {
        pos := start;
        return Err(LengthOverflow(length.value, limit));
      }
      return Ok(length.value);
    }

    method ReadString() returns (r: Outcome<seq<byte>>)
      requires Valid()
      modifies this
      ensures Valid() && IsRead(Text, old(Rest()), limits, AsOctets(r), pos - old(pos))
    {
      hide LeValue; hide IsText;
      ghost var rest := Rest();
      var start := pos;
      var length := ReadLen(limits.maxStringLen);
      if length.Err? { return Err(length.error); }
      var bytes := Take(length.value);
      if bytes.Err? {
        pos := start;
        return Err(bytes.error);
      }
      assert bytes.value == rest[4..4 + length.value];
      var valid := IsValidUtf8(bytes.value);
      if !valid {
        pos := start;
        return Err(InvalidUtf8);
      }
      return Ok(bytes.value);
    }

    method ReadBytes() returns (r: Outcome<seq<byte>>)
      requires Valid()
      modifies this
      ensures Valid() && IsRead(Blob, old(Rest()), limits, AsOctets(r), pos - old(pos))
    {
      hide LeValue;
      ghost var rest := Rest();
      var start := pos;
      var length := ReadLen(limits.maxBytesLen);
      if length.Err? { return Err(length.error); }
      var bytes := Take(length.value);
      if bytes.Err? {
        pos := start;
        return Err(bytes.error);
      }
      assert bytes.value == rest[4..4 + length.value];
      return Ok(bytes.value);
    }

    /** Whether the writer's model stopped before the next field. */
    method FieldAbsent() returns (absent: bool)
      requires Valid()
      ensures absent <==> Rest() == []
    {
      var left := Remaining();
      absent := left == 0;
    }

    /** The next field of a record, or zero if the writer did not have it. */
    method NumOrZero(kind: Kind) returns (r: Outcome<nat>)
      requires Valid() && Numeric(kind)
      modifies this
      ensures Valid() && FieldIs(kind, old(Rest()), limits, AsNum(r), pos - old(pos))
      ensures r.Ok? ==> r.value < Pow256(Width(kind))
    {
      hide Read; hide Pow256;
      PowIsPositive(kind);
      var absent := FieldAbsent();
      if absent { return Ok(0); }
      NumIsInRange(kind, Rest(), limits);
      r := ReadNum(kind);
    }

    method BoolOrZero() returns (r: Outcome<bool>)
      requires Valid()
      modifies this
      ensures Valid() && FieldIs(Bool, old(Rest()), limits, AsFlag(r), pos - old(pos))
    {
      hide Read;
      var absent := FieldAbsent();
      if absent { return Ok(false); }
      r := ReadBool();
    }
  }

  lemma PowIsPositive(kind: Kind)
    ensures 0 < Pow256(Width(kind))
  {
  }

  lemma NumIsInRange(kind: Kind, rest: seq<byte>, limits: Limits)
    requires Numeric(kind)
    ensures var r := Read(kind, rest, limits); r.Ok? ==> r.value.value.Num? && r.value.value.n < Pow256(Width(kind))
  {
    if Read(kind, rest, limits).Ok? { PrintOfRead(kind, rest, limits); }
    hide Pow256; hide LeValue; hide ReadOctets;
  }
}
