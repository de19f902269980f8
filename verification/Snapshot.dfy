/** The snapshot codec: a tick and a counted list of player states. */
module Snapshot {
  import opened Bytes
  import opened Codec
  import opened CodecBuffers
  import opened Messages

  function PrintState(v: PlayerState): seq<byte> {
    PrintAll(STATE_LAYOUT, StateValues(v))
  }

  function PrintStates(players: seq<PlayerState>): seq<byte> {
    if players == [] then []
    else PrintStates(players[..|players| - 1]) + PrintState(players[|players| - 1])
  }

  function PrintSnapshot(s: WorldSnapshot): seq<byte> {
    LeBytes(s.tick, 4) + LeBytes(|s.players|, 4) + PrintStates(s.players)
  }

  // ---- Reading -------------------------------------------------------------------

  const DEFAULT_STATE := PlayerState(0, 0, 0, 0, 0, 0, 0, 0)

  predicate StateShaped(values: seq<Value>) {
    && |values| == 8 && (forall v | v in values :: v.Num? && v.n <= U32_MAX)
    && values[1].n < 0x100
  }

  function StateOf(values: seq<Value>): (r: PlayerState)
    requires StateShaped(values)
    ensures StateValues(r) == values
  {
    PlayerState(values[0].n, values[1].n, values[2].n, values[3].n, values[4].n, values[5].n, values[6].n, values[7].n)
  }

  ghost predicate AllSuit(layout: seq<Kind>, values: seq<Value>) {
    |values| <= |layout| && forall i | 0 <= i < |values| :: Suits(layout[i], values[i])
  }

  lemma AllSuitPrepend(layout: seq<Kind>, v: Value, values: seq<Value>)
    requires layout != [] && Suits(layout[0], v) && AllSuit(layout[1..], values)
    ensures AllSuit(layout, [v] + values)
  {
    hide Suits;
    forall i | 0 <= i < |values| + 1 ensures Suits(layout[i], ([v] + values)[i]) {
      if i > 0 { assert layout[i] == layout[1..][i - 1]; }
    }
  }

  lemma {:induction false} ReadAllSuits(layout: seq<Kind>, rest: seq<byte>, limits: Limits)
    ensures var r := ReadAll(layout, rest, limits);
      AllSuit(layout, r.values) && (r.error.None? ==> |r.values| == |layout|) && r.used <= |rest|
    decreases |layout|
  {
    hide Print; hide Suits; hide Read; hide AllSuit;
    if layout == [] {
      NoFields(rest, limits);
      NothingSuits(layout);
    } else if rest == [] {
      ZeroSuits(layout[0]);
      ReadAllSuits(layout[1..], [], limits);
      AllSuitPrepend(layout, Zero(layout[0]), ReadAll(layout[1..], [], limits).values);
    } else if Read(layout[0], rest, limits).Ok? {
      PrintOfRead(layout[0], rest, limits);
      var f := Read(layout[0], rest, limits).value;
      ReadAllSuits(layout[1..], rest[f.used..], limits);
      AllSuitPrepend(layout, f.value, ReadAll(layout[1..], rest[f.used..], limits).values);
    } else {
      NothingSuits(layout);
    }
  }

  lemma NothingSuits(layout: seq<Kind>)
    ensures AllSuit(layout, [])
  {
  }

  lemma ZeroSuits(kind: Kind)
    ensures Suits(kind, Zero(kind))
  {
    Utf8.EmptyIsText();
    PowIsPositive(kind);
    hide Pow256;
  }

  lemma StateIsShaped(rest: seq<byte>, limits: Limits)
    requires ReadAll(STATE_LAYOUT, rest, limits).error.None?
    ensures StateShaped(ReadAll(STATE_LAYOUT, rest, limits).values)
  {
    ReadAllSuits(STATE_LAYOUT, rest, limits);
    hide ReadAll;
    var values := ReadAll(STATE_LAYOUT, rest, limits).values;
    Pow256Widths();
    hide Pow256;
    forall i | 0 <= i < 8 ensures values[i].Num? && values[i].n <= U32_MAX && (i == 1 ==> values[i].n < 0x100) {
      assert Suits(STATE_LAYOUT[i], values[i]);
    }
  }

  /** The elements read, the bytes they took and the error that ended the reading. */
  datatype Elements = Elements(players: seq<PlayerState>, used: nat, error: Option<DecodeError>)

  /** Each element is a record of its own, absent fields and all. */
  ghost function ReadStates(count: nat, rest: seq<byte>, limits: Limits): (r: Elements)
    ensures r.used <= |rest|
    decreases count
  {
    if count == 0 then Elements([], 0, None)
    else
      var first := ReadAll(STATE_LAYOUT, rest, limits);
      ReadAllSuits(STATE_LAYOUT, rest, limits);
      if first.error.Some? then Elements([], first.used, first.error)
      else
        StateIsShaped(rest, limits);
        var later := ReadStates(count - 1, rest[first.used..], limits);
        Elements([StateOf(first.values)] + later.players, first.used + later.used, later.error)
  }

  /** A snapshot as the decoder leaves it: on an error the fields already read. */
  datatype SnapshotRead = SnapshotRead(value: WorldSnapshot, used: nat, error: Option<DecodeError>)

  /** A number field, or zero where the bytes ended before it. */
  ghost function U32OrZero(rest: seq<byte>, limits: Limits): Outcome<Field> {
    if rest == [] then Ok(Field(Num(0), 0)) else Read(U32, rest, limits)
  }

  lemma U32IsInRange(rest: seq<byte>, limits: Limits)
    ensures var r := U32OrZero(rest, limits);
      r.Ok? ==> r.value.value.Num? && r.value.value.n <= U32_MAX && r.value.used <= |rest|
  {
    if rest != [] && Read(U32, rest, limits).Ok? { PrintOfRead(U32, rest, limits); }
    Pow256Widths();
    hide Pow256; hide LeValue;
  }

  ghost function ReadSnapshot(before: WorldSnapshot, rest: seq<byte>, limits: Limits): SnapshotRead {
    U32IsInRange(rest, limits);
    match U32OrZero(rest, limits)
    case Err(error) => SnapshotRead(before, 0, Some(error))
    case Ok(tick) =>
      var value := before.(tick := tick.value.n);
      ReadPlayers(value, tick.used, rest[tick.used..], limits)
  }

  ghost function ReadPlayers(value: WorldSnapshot, used: nat, rest: seq<byte>, limits: Limits): SnapshotRead {
    U32IsInRange(rest, limits);
    match U32OrZero(rest, limits)
    case Err(error) => SnapshotRead(value, used, Some(error))
    case Ok(count) =>
      if count.value.n > limits.maxArrayCount
      then SnapshotRead(value, used, Some(LengthOverflow(count.value.n, limits.maxArrayCount)))
      else
        var elements := ReadStates(count.value.n, rest[count.used..], limits);
        if elements.error.Some? then SnapshotRead(value, used + count.used + elements.used, elements.error)
        else SnapshotRead(value.(players := elements.players), used + count.used + elements.used, None)
  }

  // ---- Round trip ------------------------------------------------------------------

  lemma PrintStatesPush(players: seq<PlayerState>, v: PlayerState)
    ensures PrintStates(players + [v]) == PrintStates(players) + PrintState(v)
  {
    hide PrintState;
    assert (players + [v])[..|players|] == players;
  }

  lemma {:induction false} PrintStatesFront(first: PlayerState, rest: seq<PlayerState>)
    ensures PrintStates([first] + rest) == PrintState(first) + PrintStates(rest)
    decreases |rest|
  {
    NoStates();
    hide PrintState; hide PrintStates;
    if rest == [] {
      PrintStatesPush([], first);
      assert [first] + rest == [] + [first];
    } else {
      var init, last := rest[..|rest| - 1], rest[|rest| - 1];
      assert rest == init + [last];
      assert [first] + rest == ([first] + init) + [last];
      PrintStatesFront(first, init);
      PrintStatesPush([first] + init, last);
      PrintStatesPush(init, last);
      assert PrintState(first) + PrintStates(init) + PrintState(last)
          == PrintState(first) + (PrintStates(init) + PrintState(last));
    }
  }

  lemma {:induction false} StatesRoundTrip(players: seq<PlayerState>, tail: seq<byte>, limits: Limits)
    ensures ReadStates(|players|, PrintStates(players) + tail, limits)
         == Elements(players, |PrintStates(players)|, None)
    decreases |players|
  {
    hide ReadAll; hide PrintState; hide PrintStates; hide StateValues;
    if players == [] {
      NoStates();
    } else {
      var first := PrintState(players[0]);
      var later := PrintStates(players[1..]) + tail;
      assert players == [players[0]] + players[1..];
      PrintStatesFront(players[0], players[1..]);
      assert PrintStates(players) + tail == first + later;
      StateRoundTrip(players[0], later, limits);
      StateIsShaped(first + later, limits);
      StateOfValues(players[0]);
      assert (first + later)[|first|..] == later;
      StatesRoundTrip(players[1..], tail, limits);
      assert players == [players[0]] + players[1..];
    }
  }

  lemma NoStates()
    ensures PrintStates([]) == []
  {
  }

  lemma StateRoundTrip(v: PlayerState, tail: seq<byte>, limits: Limits)
    ensures ReadAll(STATE_LAYOUT, PrintState(v) + tail, limits) == Record(StateValues(v), |PrintState(v)|, None)
  {
    StateSuits(v, limits);
    NewerWriter(STATE_LAYOUT, StateValues(v), tail, limits);
  }

  lemma StateOfValues(v: PlayerState)
    ensures StateShaped(StateValues(v)) && StateOf(StateValues(v)) == v
  {
  }

  /** A snapshot with any list of players the wire and the limit allow decodes to
      itself, whatever the old value was and whatever bytes follow. */
  lemma SnapshotRoundTrip(s: WorldSnapshot, before: WorldSnapshot, tail: seq<byte>, limits: Limits)
    requires |s.players| <= U32_MAX && |s.players| <= limits.maxArrayCount
    ensures ReadSnapshot(before, PrintSnapshot(s) + tail, limits) == SnapshotRead(s, |PrintSnapshot(s)|, None)
  {
    var states := PrintStates(s.players) + tail;
    var counted := LeBytes(|s.players|, 4) + states;
    assert PrintSnapshot(s) + tail == LeBytes(s.tick, 4) + counted;
    U32Field(s.tick, counted, limits);
    U32Field(|s.players|, states, limits);
    assert (LeBytes(s.tick, 4) + counted)[4..] == counted && counted[4..] == states;
    StatesRoundTrip(s.players, tail, limits);
    hide LeBytes; hide Read; hide ReadStates; hide PrintStates; hide U32OrZero;
  }

  lemma U32Field(n: u32, tail: seq<byte>, limits: Limits)
    ensures U32OrZero(LeBytes(n, 4) + tail, limits) == Ok(Field(Num(n), 4))
  {
    Pow256Widths();
    ReadOfPrint(U32, Num(n), tail, limits);
  }

  // ---- Where version skew stops --------------------------------------------------------

  /** What an older writer, that does not know the last field, prints of a state. */
  function OldPrint(v: PlayerState): seq<byte> {
    PrintAll(STATE_LAYOUT[..7], StateValues(v)[..7])
  }

  lemma OldSuits(v: PlayerState, limits: Limits)
    ensures Suit(STATE_LAYOUT[..7], StateValues(v)[..7], limits) && STATE_LAYOUT[..7] + [F32] == STATE_LAYOUT
  {
    StateSuits(v, limits);
    SuitPrefix(STATE_LAYOUT, StateValues(v), 7, limits);
    hide Suit;
  }

  lemma WithPitch(v: PlayerState, bits: u32)
    ensures StateValues(v)[..7] + [Num(bits)] == StateValues(v.(lookPitch := bits))
  {
  }

  lemma LastOldRecord(v: PlayerState, limits: Limits)
    ensures ReadAll(STATE_LAYOUT, OldPrint(v), limits) == Record(StateValues(v.(lookPitch := 0)), |OldPrint(v)|, None)
  {
    assert Zeros([F32]) == [Num(0)];
    hide ReadAll; hide PrintAll; hide StateValues; hide Suit; hide Zeros;
    OldSuits(v, limits);
    WithPitch(v, 0);
    OlderWriter(STATE_LAYOUT[..7], [F32], StateValues(v)[..7], limits);
  }

  /** One old element at the end of the bytes is completed with a zero. */
  lemma LastOldElement(v: PlayerState, limits: Limits)
    ensures ReadStates(1, OldPrint(v), limits) == Elements([v.(lookPitch := 0)], |OldPrint(v)|, None)
  {
    LastOldRecord(v, limits);
    StateOfValues(v.(lookPitch := 0));
    hide ReadAll; hide OldPrint; hide StateValues; hide StateShaped;
    assert OldPrint(v)[|OldPrint(v)|..] == [];
    assert ReadStates(0, [], limits) == Elements([], 0, None);
  }

  lemma OnlyPitch(tail: seq<byte>, bits: u32, limits: Limits)
    requires |tail| >= 4 && Read(F32, tail, limits) == Ok(Field(Num(bits), 4))
    ensures ReadAll([F32], tail, limits) == Record([Num(bits)], 4, None)
  {
    hide Read;
    assert [F32][1..] == [];
  }

  lemma OldFirst(v: PlayerState, tail: seq<byte>, bits: u32, limits: Limits)
    requires |tail| >= 4 && Read(F32, tail, limits) == Ok(Field(Num(bits), 4))
    ensures ReadAll(STATE_LAYOUT, OldPrint(v) + tail, limits)
         == Record(StateValues(v.(lookPitch := bits)), |OldPrint(v)| + 4, None)
  {
    hide ReadAll; hide PrintAll; hide Suit; hide Read;
    OldSuits(v, limits);
    WithPitch(v, bits);
    OnlyPitch(tail, bits, limits);
    ReadAllSplits(STATE_LAYOUT[..7], [F32], StateValues(v)[..7], tail, limits);
  }

  lemma OneElement(left: nat, rest: seq<byte>, limits: Limits, first: Record)
    requires left > 0 && first == ReadAll(STATE_LAYOUT, rest, limits)
    ensures first.used <= |rest|
    ensures first.error.Some? ==> ReadStates(left, rest, limits) == Elements([], first.used, first.error)
    ensures first.error.None? ==> StateShaped(first.values)
    ensures first.error.None? ==>
      var later := ReadStates(left - 1, rest[first.used..], limits);
      ReadStates(left, rest, limits)
        == Elements([StateOf(first.values)] + later.players, first.used + later.used, later.error)
  {
    ReadAllSuits(STATE_LAYOUT, rest, limits);
    hide ReadAll; hide AllSuit;
    if first.error.None? { StateIsShaped(rest, limits); }
    hide StateShaped;
  }

  /** What an older writer prints of a list. */
  function OldStates(players: seq<PlayerState>): seq<byte> {
    if players == [] then [] else OldPrint(players[0]) + OldStates(players[1..])
  }

  /** A record of the newer layout read where old elements follow each other. */
  lemma OldElementReadsOn(v: PlayerState, next: PlayerState, more: seq<byte>, limits: Limits)
    ensures ReadAll(STATE_LAYOUT, OldPrint(v) + (OldPrint(next) + more), limits)
         == Record(StateValues(v.(lookPitch := next.playerId)), |OldPrint(v)| + 4, None)
  {
    var tail := PrintAll(STATE_LAYOUT[..7][1..], StateValues(next)[..7][1..]);
    assert OldPrint(next) + more == LeBytes(next.playerId, 4) + (tail + more);
    Pow256Widths();
    ReadOfPrint(F32, Num(next.playerId), tail + more, limits);
    hide PrintAll; hide Read; hide LeBytes; hide ReadAll; hide OldPrint; hide Pow256;
    OldFirst(v, OldPrint(next) + more, next.playerId, limits);
  }

  /** Elements carry no length, so inside a list the skew rule fails: when an old list of
      two or more is decoded, the first element takes the next one's id for the field it
      lacks. It comes out as an old element should exactly when that id is zero. */
  lemma SkewStopsAtLists(players: seq<PlayerState>, count: nat, limits: Limits)
    requires |players| >= 2 && count > 0
    ensures var decoded := ReadStates(count, OldStates(players), limits).players;
      && decoded != []
      && decoded[0] == players[0].(lookPitch := players[1].playerId)
      && (decoded[0] == players[0].(lookPitch := 0) <==> players[1].playerId == 0)
  {
    var v, next, more := players[0], players[1], OldStates(players[2..]);
    assert players[1..][1..] == players[2..];
    assert OldStates(players) == OldPrint(v) + (OldPrint(next) + more);
    OldElementReadsOn(v, next, more, limits);
    hide ReadAll; hide OldPrint; hide OldStates;
    var first := ReadAll(STATE_LAYOUT, OldPrint(v) + (OldPrint(next) + more), limits);
    OneElement(count, OldPrint(v) + (OldPrint(next) + more), limits, first);
    StateOfValues(v.(lookPitch := next.playerId));
    hide ReadStates; hide StateValues; hide StateShaped; hide StateOf;
  }

  /** Hence a whole old snapshot of two or more players, the second with an id, never
      decodes to its players with the missing field zero. */
  lemma OldSnapshotIsMisread(tick: u32, players: seq<PlayerState>, before: WorldSnapshot, limits: Limits)
    requires 2 <= |players| <= U32_MAX && players[1].playerId != 0
    ensures var bytes := LeBytes(tick, 4) + LeBytes(|players|, 4) + OldStates(players);
      var r := ReadSnapshot(before, bytes, limits);
      r.error.None? ==>
        r.value.players != [] && r.value.players[0].lookPitch == players[1].playerId != 0
  {
    var states := OldStates(players);
    var counted := LeBytes(|players|, 4) + states;
    assert LeBytes(tick, 4) + LeBytes(|players|, 4) + states == LeBytes(tick, 4) + counted;
    U32Field(tick, counted, limits);
    U32Field(|players|, states, limits);
    assert (LeBytes(tick, 4) + counted)[4..] == counted && counted[4..] == states;
    SkewStopsAtLists(players, |players|, limits);
    hide LeBytes; hide Read; hide ReadStates; hide OldStates; hide U32OrZero;
  }

  // ---- The codec ---------------------------------------------------------------------

  /** A list longer than the wire can count is the caller's error. */
  method EncodeSnapshot(writer: Writer, value: WorldSnapshot)
    requires |value.players| <= U32_MAX
    modifies writer
    ensures writer.buf == old(writer.buf) + PrintSnapshot(value)
  {
    hide PrintAll; hide StateValues; hide LeBytes;
    ghost var was := writer.buf;
    writer.WriteLen(value.tick);
    writer.WriteLen(|value.players|);
    ghost var head := writer.buf;
    for i := 0 to |value.players|
      invariant writer.buf == head + PrintStates(value.players[..i])
    {
      EncodeState(writer, value.players[i]);
      assert value.players[..i + 1][..i] == value.players[..i];
    }
    assert value.players[..|value.players|] == value.players;
  }

  /** Reading so many elements from here is what is left of reading them all. */
  ghost predicate Midway(count: nat, start: seq<byte>, limits: Limits, left: nat, rest: seq<byte>,
                         done: seq<PlayerState>)
  {
    && |rest| <= |start|
    && var r := ReadStates(left, rest, limits);
      ReadStates(count, start, limits) == Elements(done + r.players, |start| - |rest| + r.used, r.error)
  }

  lemma MidwayStep(count: nat, start: seq<byte>, limits: Limits, left: nat, rest: seq<byte>, done: seq<PlayerState>,
                   first: Record)
    requires Midway(count, start, limits, left, rest, done) && left > 0
    requires first == ReadAll(STATE_LAYOUT, rest, limits)
    ensures first.used <= |rest|
    ensures first.error.None? ==>
      StateShaped(first.values)
      && Midway(count, start, limits, left - 1, rest[first.used..], done + [StateOf(first.values)])
    ensures first.error.Some? ==>
      ReadStates(count, start, limits) == Elements(done, |start| - |rest| + first.used, first.error)
  {
    OneElement(left, rest, limits, first);
    hide ReadAll; hide ReadStates; hide StateShaped; hide StateOf; hide StateValues;
    if first.error.None? {
      var later := ReadStates(left - 1, rest[first.used..], limits);
      assert done + ([StateOf(first.values)] + later.players) == (done + [StateOf(first.values)]) + later.players;
    } else {
      assert done + [] == done;
    }
  }

  /** The element count, zero when the bytes have ended. */
  method PlayerCount(reader: Reader) returns (count: Outcome<nat>)
    requires reader.Valid()
    modifies reader
    ensures reader.Valid()
    ensures match U32OrZero(old(reader.Rest()), reader.limits)
            case Err(error) => count == Err(error) && reader.pos == old(reader.pos)
            case Ok(f) =>
              f.value.Num? && f.used <= |old(reader.Rest())|
              && if f.value.n > reader.limits.maxArrayCount
                 then count == Err(LengthOverflow(f.value.n, reader.limits.maxArrayCount))
                      && reader.pos == old(reader.pos)
                 else count == Ok(f.value.n) && reader.pos == old(reader.pos) + f.used
                      && reader.Rest() == old(reader.Rest())[f.used..]
  {
    hide LeValue;
    U32IsInRange(reader.Rest(), reader.limits);
    var absent := reader.FieldAbsent();
    if absent { return Ok(0); }
    count := reader.ReadLen(reader.limits.maxArrayCount);
  }

  lemma ElementIs(start: seq<byte>, limits: Limits, before: PlayerState, element: PlayerState, moved: int)
    requires DecodeIs(STATE_LAYOUT, start, limits, StateValues(before), StateValues(element), moved, None)
    ensures StateShaped(ReadAll(STATE_LAYOUT, start, limits).values)
    ensures element == StateOf(ReadAll(STATE_LAYOUT, start, limits).values)
  {
    StateIsShaped(start, limits);
    var values := ReadAll(STATE_LAYOUT, start, limits).values;
    hide ReadAll;
    assert StateValues(element) == values;
    StateOfValues(element);
    ShapedOnce(StateValues(element), values);
  }

  lemma ShapedOnce(a: seq<Value>, b: seq<Value>)
    requires a == b && StateShaped(a) && StateShaped(b)
    ensures StateOf(a) == StateOf(b)
  {
  }

  method DecodePlayers(reader: Reader, count: nat) returns (players: seq<PlayerState>, error: Option<DecodeError>)
    requires reader.Valid()
    modifies reader
    ensures reader.Valid() && reader.pos >= old(reader.pos)
    ensures ReadStates(count, old(reader.Rest()), reader.limits)
         == Elements(players, reader.pos - old(reader.pos), error)
  {
    hide ReadAll; hide StateShaped; hide StateValues; hide ReadStates;
    ghost var start, from := reader.Rest(), reader.pos;
    players := [];
    assert [] + ReadStates(count, start, reader.limits).players == ReadStates(count, start, reader.limits).players;
    for i := 0 to count
      invariant reader.Valid() && reader.pos >= from && reader.buf[from..] == start
      invariant Midway(count, start, reader.limits, count - i, reader.Rest(), players)
    {
      ghost var rest := reader.Rest();
      ghost var first := ReadAll(STATE_LAYOUT, rest, reader.limits);
      MidwayStep(count, start, reader.limits, count - i, rest, players, first);
      ReadAllSuits(STATE_LAYOUT, rest, reader.limits);
      var element, failed := DecodeState(reader, DEFAULT_STATE);
      if failed.Some? { return players, failed; }
      ElementIs(rest, reader.limits, DEFAULT_STATE, element, first.used);
      players := players + [element];
    }
    NoMoreStates(reader.Rest(), reader.limits);
    assert players + [] == players;
    return players, None;
  }

  lemma NoMoreStates(rest: seq<byte>, limits: Limits)
    ensures ReadStates(0, rest, limits) == Elements([], 0, None)
  {
  }

  method TickOrZero(reader: Reader) returns (tick: Outcome<nat>)
    requires reader.Valid()
    modifies reader
    ensures reader.Valid()
    ensures match U32OrZero(old(reader.Rest()), reader.limits)
            case Err(error) => tick == Err(error) && reader.pos == old(reader.pos)
            case Ok(f) =>
              && f.value.Num? && f.value.n <= U32_MAX && f.used <= |old(reader.Rest())|
              && tick == Ok(f.value.n) && reader.pos == old(reader.pos) + f.used
              && reader.Rest() == old(reader.Rest())[f.used..]
  {
    hide Read;
    U32IsInRange(reader.Rest(), reader.limits);
    var absent := reader.FieldAbsent();
    if absent { return Ok(0); }
    tick := reader.ReadNum(U32);
  }

  method DecodePlayersInto(reader: Reader, before: WorldSnapshot, ghost used: nat)
    returns (value: WorldSnapshot, error: Option<DecodeError>)
    requires reader.Valid()
    modifies reader
    ensures reader.Valid() && reader.pos >= old(reader.pos)
    ensures ReadPlayers(before, used, old(reader.Rest()), reader.limits)
         == SnapshotRead(value, used + reader.pos - old(reader.pos), error)
  {
    hide ReadStates; hide U32OrZero;
    var count := PlayerCount(reader);
    if count.Err? { return before, Some(count.error); }
    var players, failed := DecodePlayers(reader, count.value);
    if failed.Some? { return before, failed; }
    return before.(players := players), None;
  }

  /** The tick is overwritten as soon as it is read, the players only when all are. */
  method DecodeSnapshot(reader: Reader, before: WorldSnapshot) returns (value: WorldSnapshot, error: Option<DecodeError>)
    requires reader.Valid()
    modifies reader
    ensures reader.Valid() && reader.pos >= old(reader.pos)
    ensures ReadSnapshot(before, old(reader.Rest()), reader.limits)
         == SnapshotRead(value, reader.pos - old(reader.pos), error)
  {
    hide U32OrZero; hide ReadPlayers;
    ghost var from := reader.pos;
    var tick := TickOrZero(reader);
    if tick.Err? { return before, Some(tick.error); }
    value, error := DecodePlayersInto(reader, before.(tick := tick.value), reader.pos - from);
  }
}
