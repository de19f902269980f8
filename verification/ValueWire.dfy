/** Values and messages as bytes: exactly which bytes are read as a value, which error the
    others give, and where each field of a message stands. */
module ValueWire {
  import opened Bytes
  import opened Utf8
  import opened Codec
  import opened HandshakeWire
  import opened Messages
  import opened Snapshot

  // ---- One value ---------------------------------------------------------------

  /** Bytes are read as a value iff they begin with its print, and it is one that may be
      written and is within the limits. */
  lemma ReadIsExact(kind: Kind, rest: seq<byte>, limits: Limits, v: Value)
    ensures (exists used :: Read(kind, rest, limits) == Ok(Field(v, used)))
       <==> Suits(kind, v) && Codec.Within(kind, v, limits) && Print(kind, v) <= rest
  {
    if Read(kind, rest, limits).Ok? { PrintOfRead(kind, rest, limits); }
    if Suits(kind, v) && Codec.Within(kind, v, limits) && Print(kind, v) <= rest {
      var tail := rest[|Print(kind, v)|..];
      assert Print(kind, v) + tail == rest;
      ReadOfPrint(kind, v, tail, limits);
    }
    hide Read; hide Print; hide Suits; hide Codec.Within;
  }

  /** The size of a number, or of the length before octets. */
  function Size(kind: Kind): nat {
    match kind
    case U8 => 1 case Bool => 1 case U16 => 2 case U32 => 4 case F32 => 4 case U64 => 8 case F64 => 8
    case Text => 4 case Blob => 4
  }

  /** The length that octets announce. */
  function Announced(rest: seq<byte>): nat
    requires |rest| >= 4
  {
    LeValue(rest[..4])
  }

  /** Which error bytes give that are not read: too few for the number or the length; a flag
      above one; a length beyond the limit of its kind; too few for the length; and octets
      of a text that are no text - the first of these that applies. */
  lemma ErrorIsExact(kind: Kind, rest: seq<byte>, limits: Limits)
    ensures var r := Read(kind, rest, limits);
      var octets := kind.Text? || kind.Blob?;
      var limit := if kind.Text? then limits.maxStringLen else limits.maxBytesLen;
      if |rest| < Size(kind) then r == Err(UnexpectedEof(Size(kind), |rest|))
      else if kind.Bool? then r == (if rest[0] > 1 then Err(InvalidBool(rest[0])) else Ok(Field(Flag(rest[0] == 1), 1)))
      else if octets && Announced(rest) > limit then r == Err(LengthOverflow(Announced(rest), limit))
      else if octets && Announced(rest) > |rest| - 4 then r == Err(UnexpectedEof(Announced(rest), |rest| - 4))
      else if kind.Text? && !IsText(rest[4..4 + Announced(rest)]) then r == Err(InvalidUtf8)
      else r.Ok?
  {
    hide IsText; hide LeValue;
  }

  // ---- Messages ----------------------------------------------------------------

  /** Where field `k` begins, if every field has a fixed size. */
  function Place(layout: seq<Kind>, k: nat): nat
    requires k <= |layout|
  {
    if k == 0 then 0 else Place(layout, k - 1) + Size(layout[k - 1])
  }

  lemma {:induction false} PlaceIsLength(layout: seq<Kind>, values: seq<Value>, k: nat)
    requires |values| == |layout| && k <= |layout|
    requires forall i | 0 <= i < |layout| :: |Print(layout[i], values[i])| == Size(layout[i])
    ensures |PrintAll(layout[..k], values[..k])| == Place(layout, k)
    decreases k
  {
    hide Print;
    if k > 0 {
      PlaceIsLength(layout, values, k - 1);
      PrintAllPush(layout, values, k - 1);
    }
  }

  lemma FieldStands(layout: seq<Kind>, values: seq<Value>, k: nat)
    requires |values| == |layout| && k < |layout|
    requires forall i | 0 <= i < |layout| :: |Print(layout[i], values[i])| == Size(layout[i])
    ensures |PrintAll(layout, values)| == Place(layout, |layout|) >= Place(layout, k) + Size(layout[k])
    ensures PrintAll(layout, values)[Place(layout, k)..Place(layout, k) + Size(layout[k])]
         == Print(layout[k], values[k])
  {
    hide Print; hide Place; hide Size; hide PrintAll;
    PlaceIsLength(layout, values, |layout|);
    PlaceIsLength(layout, values, k);
    assert layout[..|layout|] == layout && values[..|layout|] == values;
    PrintAllPush(layout, values, k);
    PrintAllBegins(layout, values, k + 1);
    Middle(PrintAll(layout, values), PrintAll(layout[..k], values[..k]), Print(layout[k], values[k]));
  }

  lemma Middle(all: seq<byte>, before: seq<byte>, field: seq<byte>)
    requires before + field <= all
    ensures |before| + |field| <= |all| && all[|before|..|before| + |field|] == field
  {
    var both := before + field;
    assert all[..|both|] == both;
    assert all[..|both|][|before|..] == both[|before|..] == field;
  }

  lemma {:induction false} PrintAllBegins(layout: seq<Kind>, values: seq<Value>, k: nat)
    requires |values| == |layout| && k <= |layout|
    ensures PrintAll(layout[..k], values[..k]) <= PrintAll(layout, values)
    decreases |layout| - k
  {
    hide Print;
    if k < |layout| {
      PrintAllBegins(layout, values, k + 1);
      PrintAllPush(layout, values, k);
    } else {
      assert layout[..k] == layout && values[..k] == values;
    }
  }

  lemma InputSizes(v: PlayerInput)
    ensures forall i | 0 <= i < 6 :: |Print(INPUT_LAYOUT[i], InputValues(v)[i])| == Size(INPUT_LAYOUT[i])
    ensures Place(INPUT_LAYOUT, 1) == 4 && Place(INPUT_LAYOUT, 2) == 8 && Place(INPUT_LAYOUT, 3) == 12
    ensures Place(INPUT_LAYOUT, 4) == 13 && Place(INPUT_LAYOUT, 5) == 17 && Place(INPUT_LAYOUT, 6) == 21
  {
    hide LeBytes;
  }

  /** The bytes of an input message: 21 of them, each field at its place. */
  lemma InputLayout(v: PlayerInput)
    ensures var bytes := PrintAll(INPUT_LAYOUT, InputValues(v));
      && |bytes| == 21
      && Stands(bytes, 0, 4, v.sequence) && Stands(bytes, 4, 4, v.moveX) && Stands(bytes, 8, 4, v.moveZ)
      && bytes[12..13] == [if v.jump then 1 else 0]
      && Stands(bytes, 13, 4, v.lookYaw) && Stands(bytes, 17, 4, v.lookPitch)
  {
    InputSizes(v);
    hide PrintAll; hide LeBytes;
    FieldStands(INPUT_LAYOUT, InputValues(v), 0); FieldStands(INPUT_LAYOUT, InputValues(v), 1);
    FieldStands(INPUT_LAYOUT, InputValues(v), 2); FieldStands(INPUT_LAYOUT, InputValues(v), 3);
    FieldStands(INPUT_LAYOUT, InputValues(v), 4); FieldStands(INPUT_LAYOUT, InputValues(v), 5);
  }

  lemma StateSizes(v: PlayerState)
    ensures forall i | 0 <= i < 8 :: |Print(STATE_LAYOUT[i], StateValues(v)[i])| == Size(STATE_LAYOUT[i])
    ensures Place(STATE_LAYOUT, 1) == 4 && Place(STATE_LAYOUT, 2) == 5 && Place(STATE_LAYOUT, 3) == 9
    ensures Place(STATE_LAYOUT, 4) == 13 && Place(STATE_LAYOUT, 5) == 17 && Place(STATE_LAYOUT, 6) == 21
    ensures Place(STATE_LAYOUT, 7) == 25 && Place(STATE_LAYOUT, 8) == 29
  {
    hide LeBytes;
  }

  /** The bytes of a player's state: 29 of them; the height comes after the place. */
  lemma StateLayout(v: PlayerState)
    ensures var bytes := PrintState(v);
      && |bytes| == 29
      && Stands(bytes, 0, 4, v.playerId) && Stands(bytes, 4, 1, v.clientKind) && Stands(bytes, 5, 4, v.color)
      && Stands(bytes, 9, 4, v.positionX) && Stands(bytes, 13, 4, v.positionZ) && Stands(bytes, 17, 4, v.positionY)
      && Stands(bytes, 21, 4, v.lookYaw) && Stands(bytes, 25, 4, v.lookPitch)
  {
    StateSizes(v);
    hide PrintAll; hide LeBytes;
    var values := StateValues(v);
    FieldStands(STATE_LAYOUT, values, 0); FieldStands(STATE_LAYOUT, values, 1); FieldStands(STATE_LAYOUT, values, 2);
    FieldStands(STATE_LAYOUT, values, 3); FieldStands(STATE_LAYOUT, values, 4); FieldStands(STATE_LAYOUT, values, 5);
    FieldStands(STATE_LAYOUT, values, 6); FieldStands(STATE_LAYOUT, values, 7);
  }

  lemma {:induction false} StatesStand(players: seq<PlayerState>, i: nat)
    requires i < |players|
    ensures |PrintStates(players)| == 29 * |players|
    ensures PrintStates(players)[29 * i..29 * i + 29] == PrintState(players[i])
  {
    hide PrintState;
    var n := |players| - 1;
    var before := PrintStates(players[..n]);
    StateLayout(players[n]);
    if n > 0 { StatesStand(players[..n], if i < n then i else 0); }
    if i < n {
      assert (before + PrintState(players[n]))[29 * i..29 * i + 29] == before[29 * i..29 * i + 29];
    }
  }

  lemma Slid(bytes: seq<byte>, skip: nat, rest: seq<byte>, at: nat, width: nat)
    requires skip <= |bytes| && bytes[skip..] == rest && at + width <= |rest|
    ensures bytes[skip + at..skip + at + width] == rest[at..at + width]
  {
    var left, right := bytes[skip + at..skip + at + width], rest[at..at + width];
    forall k | 0 <= k < width ensures left[k] == right[k] {
      assert bytes[skip..][at + k] == bytes[skip + (at + k)];
    }
  }

  /** A snapshot is its tick, the number of its players, and their states, 29 bytes each. */
  lemma SnapshotLayout(s: WorldSnapshot, i: nat)
    requires i < |s.players|
    ensures var bytes := PrintSnapshot(s);
      && |bytes| == 8 + 29 * |s.players| && Stands(bytes, 0, 4, s.tick) && Stands(bytes, 4, 4, |s.players|)
      && bytes[8 + 29 * i..37 + 29 * i] == PrintState(s.players[i])
  {
    StatesStand(s.players, i);
    var bytes, states := PrintSnapshot(s), PrintStates(s.players);
    hide PrintStates; hide PrintState; hide LeBytes;
    assert bytes == bytes[..8] + states && bytes[8..] == states;
    Slid(bytes, 8, states, 29 * i, 29);
  }

  /** A snapshot that declares more players than the limit is an error that says so, and
      leaves the players that were there and the reader before that number. */
  lemma TooManyPlayers(tick: u32, count: u32, tail: seq<byte>, before: WorldSnapshot, limits: Limits)
    requires count > limits.maxArrayCount
    ensures ReadSnapshot(before, LeBytes(tick, 4) + LeBytes(count, 4) + tail, limits)
         == SnapshotRead(before.(tick := tick), 4, Some(LengthOverflow(count, limits.maxArrayCount)))
  {
    var rest := LeBytes(count, 4) + tail;
    assert LeBytes(tick, 4) + LeBytes(count, 4) + tail == LeBytes(tick, 4) + rest;
    U32Field(tick, rest, limits);
    U32Field(count, tail, limits);
    hide LeBytes; hide Read; hide ReadStates; hide U32OrZero;
    assert (LeBytes(tick, 4) + rest)[4..] == rest;
  }

  /** The value of a field that is absent prints to zero bytes only. */
  lemma ZeroIsZero(kind: Kind)
    ensures forall b | b in Print(kind, Zero(kind)) :: b == 0
    ensures |Print(kind, Zero(kind))| == Size(kind)
  {
    if !kind.Bool? { ZeroBytes(Size(kind)); }
    assert LeBytes(0, 4) + [] == LeBytes(0, 4);
  }

  lemma {:induction false} ZeroBytes(width: nat)
    ensures forall b | b in LeBytes(0, width) :: b == 0
  {
    if width > 0 { ZeroBytes(width - 1); }
  }

  /** A snapshot that ends before its tick or before its players has zero and none; and a
      tick that is cut short leaves everything as it was. */
  lemma ShortSnapshots(tick: u32, before: WorldSnapshot, cut: seq<byte>, limits: Limits)
    ensures ReadSnapshot(before, [], limits) == SnapshotRead(WorldSnapshot(0, []), 0, None)
    ensures ReadSnapshot(before, LeBytes(tick, 4), limits) == SnapshotRead(WorldSnapshot(tick, []), 4, None)
    ensures 0 < |cut| < 4 ==>
      ReadSnapshot(before, cut, limits) == SnapshotRead(before, 0, Some(UnexpectedEof(4, |cut|)))
  {
    U32Field(tick, [], limits);
    assert LeBytes(tick, 4) + [] == LeBytes(tick, 4) && LeBytes(tick, 4)[4..] == [];
    hide LeBytes; hide ReadStates;
    assert ReadStates(0, [], limits) == Elements([], 0, None) by { NoMoreStates([], limits); }
  }

  /** An error anywhere leaves the players that were there. */
  lemma ErrorsKeepPlayers(before: WorldSnapshot, rest: seq<byte>, limits: Limits)
    ensures var r := ReadSnapshot(before, rest, limits);
      r.error.Some? ==> r.value.players == before.players
  {
    hide ReadStates; hide U32OrZero;
  }
}
