/** The generated message codecs: two flat records, and a snapshot holding a list of
    one of them. */
module Messages {
  import opened Bytes
  import opened Codec
  import opened CodecBuffers

  /** Floating-point fields are raw bits throughout. */
  datatype PlayerInput = PlayerInput(sequence: u32, moveX: u32, moveZ: u32, jump: bool, lookYaw: u32, lookPitch: u32)

  datatype PlayerState = PlayerState(playerId: u32, clientKind: byte, color: u32, positionX: u32, positionZ: u32,
                                     positionY: u32, lookYaw: u32, lookPitch: u32)

  datatype WorldSnapshot = WorldSnapshot(tick: u32, players: seq<PlayerState>)

  const INPUT_LAYOUT := [U32, F32, F32, Bool, F32, F32]
  const STATE_LAYOUT := [U32, U8, U32, F32, F32, F32, F32, F32]

  function InputValues(v: PlayerInput): seq<Value> {
    [Num(v.sequence), Num(v.moveX), Num(v.moveZ), Flag(v.jump), Num(v.lookYaw), Num(v.lookPitch)]
  }

  function StateValues(v: PlayerState): seq<Value> {
    [Num(v.playerId), Num(v.clientKind), Num(v.color), Num(v.positionX), Num(v.positionZ), Num(v.positionY),
     Num(v.lookYaw), Num(v.lookPitch)]
  }

  lemma InputSuits(v: PlayerInput, limits: Limits)
    ensures Suit(INPUT_LAYOUT, InputValues(v), limits)
  {
    Pow256Widths();
  }

  lemma StateSuits(v: PlayerState, limits: Limits)
    ensures Suit(STATE_LAYOUT, StateValues(v), limits)
  {
    Pow256Widths();
  }

  /** Version skew on input messages, for every cut of every encoding. */
  lemma InputEveryCut(v: PlayerInput, at: nat, limits: Limits)
    requires at <= |PrintAll(INPUT_LAYOUT, InputValues(v))|
    ensures var c := CutOf(INPUT_LAYOUT, InputValues(v), at);
      var r := ReadAll(INPUT_LAYOUT, PrintAll(INPUT_LAYOUT, InputValues(v))[..at], limits);
      if c.inside == 0
      then r == Record(InputValues(v)[..c.field] + Zeros(INPUT_LAYOUT[c.field..]), at, None)
      else r.error.Some? && r.error.value.UnexpectedEof?
  {
    hide ReadAll; hide PrintAll; hide Zeros; hide CutOf; hide Suit; hide InputValues;
    InputSuits(v, limits);
    EveryCut(INPUT_LAYOUT, InputValues(v), at, limits);
  }

  /** A message decodes to itself, whatever a newer writer added after it. */
  lemma InputRoundTrip(v: PlayerInput, tail: seq<byte>, limits: Limits)
    ensures ReadAll(INPUT_LAYOUT, PrintAll(INPUT_LAYOUT, InputValues(v)) + tail, limits)
         == Record(InputValues(v), |PrintAll(INPUT_LAYOUT, InputValues(v))|, None)
  {
    InputSuits(v, limits);
    NewerWriter(INPUT_LAYOUT, InputValues(v), tail, limits);
  }

  // ---- Following a decoder through its fields ------------------------------------

  /** After the fields `done`, which took `used` bytes, decoding is what decoding the
      rest of the layout makes of the rest of the bytes. */
  ghost predicate Reached(layout: seq<Kind>, start: seq<byte>, limits: Limits, done: seq<Value>, used: nat) {
    && |done| <= |layout| && used <= |start|
    && var r := ReadAll(layout[|done|..], start[used..], limits);
      ReadAll(layout, start, limits) == Record(done + r.values, used + r.used, r.error)
  }

  lemma ReachedStart(layout: seq<Kind>, start: seq<byte>, limits: Limits)
    ensures Reached(layout, start, limits, [], 0)
  {
    hide ReadAll;
    assert layout[0..] == layout && start[0..] == start;
    assert [] + ReadAll(layout, start, limits).values == ReadAll(layout, start, limits).values;
  }

  lemma ReadAllField(layout: seq<Kind>, rest: seq<byte>, limits: Limits, v: Value, took: nat)
    requires layout != [] && FieldIs(layout[0], rest, limits, Ok(v), took)
    ensures took <= |rest|
    ensures ReadAll(layout, rest, limits) == Prepend(Field(v, took), ReadAll(layout[1..], rest[took..], limits))
  {
    if rest != [] { PrintOfRead(layout[0], rest, limits); }
    hide Read; hide Print; hide Suits;
  }

  lemma ReachedField(layout: seq<Kind>, start: seq<byte>, limits: Limits, done: seq<Value>, used: nat,
                     v: Value, took: nat)
    requires Reached(layout, start, limits, done, used) && |done| < |layout|
    requires FieldIs(layout[|done|], start[used..], limits, Ok(v), took)
    ensures Reached(layout, start, limits, done + [v], used + took)
  {
    hide ReadAll; hide FieldIs;
    var kinds, rest := layout[|done|..], start[used..];
    ReadAllField(kinds, rest, limits, v, took);
    assert kinds[1..] == layout[|done| + 1..] && rest[took..] == start[used + took..];
    var r := ReadAll(kinds[1..], rest[took..], limits);
    assert done + ([v] + r.values) == (done + [v]) + r.values;
  }

  lemma ReachedError(layout: seq<Kind>, start: seq<byte>, limits: Limits, done: seq<Value>, used: nat,
                     error: DecodeError)
    requires Reached(layout, start, limits, done, used) && |done| < |layout|
    requires FieldIs(layout[|done|], start[used..], limits, Err(error), 0)
    ensures ReadAll(layout, start, limits) == Record(done, used, Some(error))
  {
    hide Read; hide ReadAll;
    ReadAllFails(layout[|done|..], start[used..], limits);
    assert done + [] == done;
  }

  lemma ReachedEnd(layout: seq<Kind>, start: seq<byte>, limits: Limits, done: seq<Value>, used: nat)
    requires Reached(layout, start, limits, done, used) && |done| == |layout|
    ensures ReadAll(layout, start, limits) == Record(done, used, None)
  {
    NoFields(start[used..], limits);
    hide ReadAll;
    assert layout[|done|..] == [] && done + [] == done;
  }

  /** What a decoder has done when it returns: the fields it reached are overwritten. */
  ghost predicate DecodeIs(layout: seq<Kind>, start: seq<byte>, limits: Limits, before: seq<Value>,
                           after: seq<Value>, moved: int, error: Option<DecodeError>)
  {
    var r := ReadAll(layout, start, limits);
    && |r.values| <= |before| && after == r.values + before[|r.values|..]
    && moved == r.used && error == r.error
  }

  /** The reader stands after the fields `done` of a record that began at `from`. */
  ghost predicate At(reader: Reader, layout: seq<Kind>, from: nat, done: seq<Value>)
    reads reader
  {
    && from <= reader.pos <= |reader.buf|
    && Reached(layout, reader.buf[from..], reader.limits, done, reader.pos - from)
  }

  lemma AtStart(reader: Reader, layout: seq<Kind>)
    requires reader.Valid()
    ensures At(reader, layout, reader.pos, [])
  {
    ReachedStart(layout, reader.Rest(), reader.limits);
    hide Reached;
  }

  lemma AtEnd(reader: Reader, layout: seq<Kind>, from: nat, done: seq<Value>)
    requires At(reader, layout, from, done) && |done| == |layout|
    ensures ReadAll(layout, reader.buf[from..], reader.limits) == Record(done, reader.pos - from, None)
  {
    hide Reached; hide ReadAll;
    ReachedEnd(layout, reader.buf[from..], reader.limits, done, reader.pos - from);
  }

  lemma RestIs(reader: Reader, from: nat)
    requires from <= reader.pos <= |reader.buf|
    ensures reader.Valid() && reader.Rest() == reader.buf[from..][reader.pos - from..]
  {
  }

  lemma Move(reader: Reader, layout: seq<Kind>, start: seq<byte>, done: seq<Value>, used: nat,
             outcome: Outcome<Value>, took: int)
    requires Reached(layout, start, reader.limits, done, used) && |done| < |layout|
    requires FieldIs(layout[|done|], start[used..], reader.limits, outcome, took)
    ensures outcome.Ok? ==> took >= 0 && Reached(layout, start, reader.limits, done + [outcome.value], used + took)
    ensures outcome.Err? ==>
      took == 0 && ReadAll(layout, start, reader.limits) == Record(done, used, Some(outcome.error))
  {
    FieldMoves(layout[|done|], start[used..], reader.limits, outcome, took);
    hide FieldIs; hide ReadAll;
    match outcome
    case Ok(v) => ReachedField(layout, start, reader.limits, done, used, v, took);
    case Err(error) => ReachedError(layout, start, reader.limits, done, used, error);
  }

  lemma FieldMoves(kind: Kind, rest: seq<byte>, limits: Limits, outcome: Outcome<Value>, took: int)
    requires FieldIs(kind, rest, limits, outcome, took)
    ensures took >= 0 && (outcome.Err? ==> took == 0)
  {
    hide Read;
  }

  /** Takes the fields of one record in turn. As with the `?` after each read of a
      generated decoder, the first failure ends the decoding: every later field keeps
      the value it had. */
  class FieldReader {
    const reader: Reader
    var error: Option<DecodeError>
    ghost const layout: seq<Kind>
    ghost const before: seq<Value>
    ghost const from: nat
    ghost var fields: seq<Value>

    /** The first fields read, and the others left as they were. */
    ghost predicate Failed()
      requires from <= |reader.buf|
      reads this, reader
    {
      var r := ReadAll(layout, reader.buf[from..], reader.limits);
      && r.error == error && from + r.used == reader.pos && |r.values| < |fields| <= |before|
      && forall i | 0 <= i < |fields| :: fields[i] == if i < |r.values| then r.values[i] else before[i]
    }

    ghost predicate Valid()
      reads this, reader
    {
      && |fields| <= |layout| == |before| && from <= reader.pos <= |reader.buf|
      && if error.None? then At(reader, layout, from, fields) else Failed()
    }

    constructor (reader: Reader, ghost layout: seq<Kind>, ghost before: seq<Value>)
      requires reader.Valid() && |layout| == |before|
      ensures Valid() && fields == [] && error.None?
      ensures this.reader == reader && this.layout == layout && this.before == before && from == reader.pos
    {
      hide Reached;
      this.reader, this.layout, this.before := reader, layout, before;
      from, fields, error := reader.pos, [], None;
      new;
      AtStart(reader, layout);
    }

    /** A failed record goes on with the values it had. */
    ghost method Keep()
      requires Valid() && error.Some? && |fields| < |layout|
      modifies this`fields
      ensures Valid() && fields == old(fields) + [before[|old(fields)|]]
    {
      hide ReadAll;
      fields := fields + [before[|fields|]];
    }

    /** What a read that began at `used` has made of the record. */
    ghost method Note(outcome: Outcome<Value>, used: nat)
      requires error.None? && |fields| < |layout| == |before| && from + used <= |reader.buf| && reader.pos <= |reader.buf|
      requires Reached(layout, reader.buf[from..], reader.limits, fields, used)
      requires FieldIs(layout[|fields|], reader.buf[from..][used..], reader.limits, outcome, reader.pos - from - used)
      modifies this`fields
      ensures from + used <= reader.pos
      ensures fields == old(fields) + [if outcome.Ok? then outcome.value else before[|old(fields)|]]
      ensures outcome.Ok? ==> At(reader, layout, from, fields)
      ensures outcome.Err? ==>
        reader.pos == from + used
        && ReadAll(layout, reader.buf[from..], reader.limits) == Record(old(fields), used, Some(outcome.error))
    {
      FieldMoves(layout[|fields|], reader.buf[from..][used..], reader.limits, outcome, reader.pos - from - used);
      hide FieldIs; hide Reached; hide ReadAll;
      Move(reader, layout, reader.buf[from..], fields, used, outcome, reader.pos - from - used);
      fields := fields + [if outcome.Ok? then outcome.value else before[|fields|]];
    }

    method TakeNum(kind: Kind, was: nat) returns (n: nat)
      requires Valid() && |fields| < |layout| && layout[|fields|] == kind && Numeric(kind)
      requires before[|fields|] == Num(was) && was < Pow256(Width(kind))
      modifies this, reader
      ensures Valid() && fields == old(fields) + [Num(n)] && n < Pow256(Width(kind))
    {
      hide FieldIs; hide Reached; hide ReadAll; hide Pow256; hide Reader.Rest;
      if error.Some? {
        Keep();
        return was;
      }
      ghost var used := reader.pos - from;
      RestIs(reader, from);
      var r := reader.NumOrZero(kind);
      Note(AsNum(r), used);
      if r.Err? {
        error := Some(r.error);
        return was;
      }
      return r.value;
    }

    method TakeBool(was: bool) returns (b: bool)
      requires Valid() && |fields| < |layout| && layout[|fields|] == Bool && before[|fields|] == Flag(was)
      modifies this, reader
      ensures Valid() && fields == old(fields) + [Flag(b)]
    {
      hide FieldIs; hide Reached; hide ReadAll; hide Reader.Rest;
      if error.Some? {
        Keep();
        return was;
      }
      ghost var used := reader.pos - from;
      RestIs(reader, from);
      var r := reader.BoolOrZero();
      Note(AsFlag(r), used);
      if r.Err? {
        error := Some(r.error);
        return was;
      }
      return r.value;
    }

    lemma Finish()
      requires Valid() && |fields| == |layout|
      ensures reader.Valid()
      ensures DecodeIs(layout, reader.buf[from..], reader.limits, before, fields, reader.pos - from, error)
    {
      hide Reached; hide ReadAll;
      var r := ReadAll(layout, reader.buf[from..], reader.limits);
      if error.None? { AtEnd(reader, layout, from, fields); }
      assert fields == r.values + before[|r.values|..];
    }
  }

  // ---- Following an encoder ------------------------------------------------------

  lemma {:induction false} PrintAllPush(layout: seq<Kind>, values: seq<Value>, k: nat)
    requires k < |layout| == |values|
    ensures PrintAll(layout[..k + 1], values[..k + 1])
         == PrintAll(layout[..k], values[..k]) + Print(layout[k], values[k])
    decreases k
  {
    hide Print;
    if k == 0 {
      assert layout[..1][1..] == [] && values[..1][1..] == [];
      assert PrintAll(layout[..1][1..], values[..1][1..]) == [];
    } else {
      PrintAllPush(layout[1..], values[1..], k - 1);
      assert layout[..k + 1][1..] == layout[1..][..k] && values[..k + 1][1..] == values[1..][..k];
      assert layout[..k][1..] == layout[1..][..k - 1] && values[..k][1..] == values[1..][..k - 1];
    }
  }

  lemma OneMoreWritten(buf: seq<byte>, was: seq<byte>, layout: seq<Kind>, values: seq<Value>, k: nat)
    requires k < |layout| == |values| && buf == was + PrintAll(layout[..k], values[..k])
    ensures buf + Print(layout[k], values[k]) == was + PrintAll(layout[..k + 1], values[..k + 1])
  {
    hide PrintAll; hide Print;
    PrintAllPush(layout, values, k);
  }

  lemma NothingWritten(was: seq<byte>, layout: seq<Kind>, values: seq<Value>)
    requires |layout| == |values|
    ensures was == was + PrintAll(layout[..0], values[..0])
  {
  }

  // ---- Player input --------------------------------------------------------------

  method EncodeInput(writer: Writer, value: PlayerInput)
    modifies writer
    ensures writer.buf == old(writer.buf) + PrintAll(INPUT_LAYOUT, InputValues(value))
  {
    hide Print; hide PrintAll;
    ghost var was, all := writer.buf, InputValues(value);
    NothingWritten(was, INPUT_LAYOUT, all);
    OneMoreWritten(writer.buf, was, INPUT_LAYOUT, all, 0);
    writer.WriteU32(value.sequence);
    OneMoreWritten(writer.buf, was, INPUT_LAYOUT, all, 1);
    writer.WriteF32(value.moveX);
    OneMoreWritten(writer.buf, was, INPUT_LAYOUT, all, 2);
    writer.WriteF32(value.moveZ);
    OneMoreWritten(writer.buf, was, INPUT_LAYOUT, all, 3);
    writer.WriteBool(value.jump);
    OneMoreWritten(writer.buf, was, INPUT_LAYOUT, all, 4);
    writer.WriteF32(value.lookYaw);
    OneMoreWritten(writer.buf, was, INPUT_LAYOUT, all, 5);
    writer.WriteF32(value.lookPitch);
    assert INPUT_LAYOUT[..6] == INPUT_LAYOUT && all[..6] == all;
  }

  /** Fields from the failed one on keep the values they had. */
  method DecodeInput(reader: Reader, before: PlayerInput) returns (value: PlayerInput, error: Option<DecodeError>)
    requires reader.Valid()
    modifies reader
    ensures reader.Valid()
    ensures DecodeIs(INPUT_LAYOUT, old(reader.Rest()), reader.limits, InputValues(before), InputValues(value),
                     reader.pos - old(reader.pos), error)
  {
    hide DecodeIs; hide FieldReader.Valid; hide Pow256;
    Pow256Widths();
    var record := new FieldReader(reader, INPUT_LAYOUT, InputValues(before));
    var sequence := record.TakeNum(U32, before.sequence);
    var moveX := record.TakeNum(F32, before.moveX);
    var moveZ := record.TakeNum(F32, before.moveZ);
    var jump := record.TakeBool(before.jump);
    var lookYaw := record.TakeNum(F32, before.lookYaw);
    var lookPitch := record.TakeNum(F32, before.lookPitch);
    value, error := PlayerInput(sequence, moveX, moveZ, jump, lookYaw, lookPitch), record.error;
    assert record.fields == InputValues(value);
    record.Finish();
  }

  // ---- Player state --------------------------------------------------------------

  method EncodeState(writer: Writer, value: PlayerState)
    modifies writer
    ensures writer.buf == old(writer.buf) + PrintAll(STATE_LAYOUT, StateValues(value))
  {
    hide Print; hide PrintAll;
    ghost var was, all := writer.buf, StateValues(value);
    NothingWritten(was, STATE_LAYOUT, all);
    OneMoreWritten(writer.buf, was, STATE_LAYOUT, all, 0);
    writer.WriteU32(value.playerId);
    OneMoreWritten(writer.buf, was, STATE_LAYOUT, all, 1);
    writer.WriteU8(value.clientKind);
    OneMoreWritten(writer.buf, was, STATE_LAYOUT, all, 2);
    writer.WriteU32(value.color);
    OneMoreWritten(writer.buf, was, STATE_LAYOUT, all, 3);
    writer.WriteF32(value.positionX);
    OneMoreWritten(writer.buf, was, STATE_LAYOUT, all, 4);
    writer.WriteF32(value.positionZ);
    OneMoreWritten(writer.buf, was, STATE_LAYOUT, all, 5);
    writer.WriteF32(value.positionY);
    OneMoreWritten(writer.buf, was, STATE_LAYOUT, all, 6);
    writer.WriteF32(value.lookYaw);
    OneMoreWritten(writer.buf, was, STATE_LAYOUT, all, 7);
    writer.WriteF32(value.lookPitch);
    assert STATE_LAYOUT[..8] == STATE_LAYOUT && all[..8] == all;
  }

  method DecodeState(reader: Reader, before: PlayerState) returns (value: PlayerState, error: Option<DecodeError>)
    requires reader.Valid()
    modifies reader
    ensures reader.Valid()
    ensures DecodeIs(STATE_LAYOUT, old(reader.Rest()), reader.limits, StateValues(before), StateValues(value),
                     reader.pos - old(reader.pos), error)
  {
    hide DecodeIs; hide FieldReader.Valid; hide Pow256;
    Pow256Widths();
    var record := new FieldReader(reader, STATE_LAYOUT, StateValues(before));
    var playerId := record.TakeNum(U32, before.playerId);
    var clientKind := record.TakeNum(U8, before.clientKind);
    var color := record.TakeNum(U32, before.color);
    var positionX := record.TakeNum(F32, before.positionX);
    var positionZ := record.TakeNum(F32, before.positionZ);
    var positionY := record.TakeNum(F32, before.positionY);
    var lookYaw := record.TakeNum(F32, before.lookYaw);
    var lookPitch := record.TakeNum(F32, before.lookPitch);
    value, error := PlayerState(playerId, clientKind, color, positionX,
                                positionZ, positionY, lookYaw, lookPitch), record.error;
    assert record.fields == StateValues(value);
    record.Finish();
  }
}
