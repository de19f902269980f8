/** The incremental decoder of a byte stream, and why its result depends only on
    the bytes and not on how they were cut up. */
module StreamDecoder {
  import opened Bytes
  import opened Frame

  // ---- Reference: parsing a whole stream at once -------------------------------

  /** The frames of a stream, the bytes after them, and the error those begin with. */
  datatype Parsed = Parsed(frames: seq<Frame>, rest: seq<byte>, poison: Option<FrameError>)

  function Parse(bytes: seq<byte>, configured: nat): Parsed
    decreases |bytes|
  {
    match DecodeFrame(bytes, configured)
    case Incomplete => Parsed([], bytes, None)
    case Bad(error) => Parsed([], bytes, Some(error))
    case Decoded(frame, used) =>
      EncodeOfDecode(bytes, configured);
      var after := Parse(bytes[used..], configured);
      after.(frames := [frame] + after.frames)
  }

  /** `after`, preceded by the frames that were taken off before it. */
  function Precede(frames: seq<Frame>, after: Parsed): Parsed {
    after.(frames := frames + after.frames)
  }

  /** Parsing loses nothing: the frames print to exactly the bytes they came from. */
  lemma {:induction false} ParseIsSound(bytes: seq<byte>, configured: nat)
    ensures var p := Parse(bytes, configured);
      EncodeAll(p.frames) + p.rest == bytes && forall f | f in p.frames :: Fits(f, configured)
    decreases |bytes|
  {
    var d := DecodeFrame(bytes, configured);
    hide DecodeFrame; hide EncodeFrame;
    if d.Decoded? {
      EncodeOfDecode(bytes, configured);
      ParseIsSound(bytes[d.used..], configured);
      var p := Parse(bytes[d.used..], configured);
      assert ([d.frame] + p.frames)[1..] == p.frames;
      assert EncodeAll([d.frame] + p.frames) == EncodeFrame(d.frame) + EncodeAll(p.frames);
      assert bytes == bytes[..d.used] + bytes[d.used..];
    }
  }

  /** One frame off the front. */
  lemma ParseStep(bytes: seq<byte>, configured: nat)
    requires DecodeFrame(bytes, configured).Decoded?
    ensures var d := DecodeFrame(bytes, configured);
      0 < d.used <= |bytes| && Parse(bytes, configured) == Precede([d.frame], Parse(bytes[d.used..], configured))
  {
    EncodeOfDecode(bytes, configured);
    hide DecodeFrame; hide EncodeFrame;
  }

  lemma PrecedeTwice(a: seq<Frame>, b: seq<Frame>, after: Parsed)
    ensures Precede(a, Precede(b, after)) == Precede(a + b, after)
  {
    assert a + (b + after.frames) == (a + b) + after.frames;
  }

  /** Parsing finds every frame: printed frames are recovered, whatever follows. */
  lemma {:induction false} ParseIsComplete(frames: seq<Frame>, tail: seq<byte>, configured: nat)
    requires forall f | f in frames :: Fits(f, configured)
    ensures Parse(EncodeAll(frames) + tail, configured) == Precede(frames, Parse(tail, configured))
  {
    hide DecodeFrame; hide EncodeFrame; hide Fits; hide Parse;
    if frames == [] {
      assert EncodeAll(frames) + tail == tail;
      assert [] + Parse(tail, configured).frames == Parse(tail, configured).frames;
    } else {
      var first, later := EncodeFrame(frames[0]), EncodeAll(frames[1..]) + tail;
      assert EncodeAll(frames) + tail == first + later;
      DecodeOfEncode(frames[0], later, configured);
      ParseStep(first + later, configured);
      assert (first + later)[|first|..] == later;
      ParseIsComplete(frames[1..], tail, configured);
      PrecedeTwice([frames[0]], frames[1..], Parse(tail, configured));
      assert [frames[0]] + frames[1..] == frames;
    }
  }

  lemma ParseStops(bytes: seq<byte>, configured: nat)
    requires !DecodeFrame(bytes, configured).Decoded?
    ensures Parse(bytes, configured) ==
      Parsed([], bytes, match DecodeFrame(bytes, configured) case Bad(error) => Some(error) case _ => None)
  {
    hide DecodeFrame;
  }

  /** Parsing in two instalments gives what parsing at once gives. */
  lemma {:induction false} ParseInstalments(a: seq<byte>, b: seq<byte>, configured: nat)
    ensures var p := Parse(a, configured);
      Parse(a + b, configured) == if p.poison.Some? then p.(rest := p.rest + b)
                                  else Precede(p.frames, Parse(p.rest + b, configured))
    decreases |a|
  {
    hide DecodeFrame; hide Parse;
    var d := DecodeFrame(a, configured);
    if !d.Incomplete? { DecodeIsStable(a, b, configured); }
    if d.Decoded? {
      ParseStep(a, configured);
      ParseStep(a + b, configured);
      assert (a + b)[d.used..] == a[d.used..] + b;
      ParseInstalments(a[d.used..], b, configured);
      var p := Parse(a[d.used..], configured);
      if p.poison.None? { PrecedeTwice([d.frame], p.frames, Parse(p.rest + b, configured)); }
    } else {
      ParseStops(a, configured);
      if d.Bad? { ParseStops(a + b, configured); }
    }
  }

  // ---- The decoder as a state machine ------------------------------------------

  /** `buffer` is what has been fed and not yet advanced over. */
  datatype State = State(buffer: seq<byte>, limit: nat, poison: Option<FrameError>)

  function Init(configured: nat): State {
    State([], MessageLimit(configured), None)
  }

  function Feed(s: State, bytes: seq<byte>): State {
    s.(buffer := s.buffer + bytes)
  }

  function NextResult(s: State): Decoding {
    if s.poison.Some? then Bad(s.poison.value) else DecodeFrame(s.buffer, s.limit)
  }

  /** The first error is remembered for good. */
  function AfterNext(s: State): State {
    match NextResult(s)
    case Bad(error) => s.(poison := Some(error))
    case _ => s
  }

  function Advance(s: State, length: nat): State {
    s.(buffer := if length >= |s.buffer| then [] else s.buffer[length..])
  }

  /** Once an error has been given, it is given for good, whatever is fed or dropped. */
  lemma ErrorsLast(s: State, bytes: seq<byte>, length: nat)
    ensures var d := NextResult(s);
      d.Bad? ==>
        && NextResult(AfterNext(s)) == d
        && NextResult(AfterNext(AfterNext(s))) == d
        && NextResult(Feed(AfterNext(s), bytes)) == d && AfterNext(Feed(AfterNext(s), bytes)).poison == Some(d.error)
        && NextResult(Advance(AfterNext(s), length)) == d
        && AfterNext(Advance(AfterNext(s), length)).poison == Some(d.error)
    ensures !NextResult(s).Bad? ==> AfterNext(s) == s
  {
    hide DecodeFrame;
  }

  // ---- Every run, however the stream is cut and whenever frames are taken --------

  datatype Op = FeedBytes(bytes: seq<byte>) | Take

  /** A decoder together with the frames taken from it so far. */
  datatype Run = Run(decoder: State, taken: seq<Frame>)

  function Step(r: Run, op: Op): Run {
    match op
    case FeedBytes(bytes) => r.(decoder := Feed(r.decoder, bytes))
    case Take =>
      match NextResult(r.decoder)
      case Decoded(frame, used) => Run(Advance(AfterNext(r.decoder), used), r.taken + [frame])
      case _ => r.(decoder := AfterNext(r.decoder))
  }

  function Steps(configured: nat, ops: seq<Op>): Run {
    if ops == [] then Run(Init(configured), [])
    else Step(Steps(configured, ops[..|ops| - 1]), ops[|ops| - 1])
  }

  /** All the bytes a run was fed, in order. */
  function Fed(ops: seq<Op>): seq<byte> {
    if ops == [] then []
    else Fed(ops[..|ops| - 1]) + (match ops[|ops| - 1] case FeedBytes(b) => b case Take => [])
  }

  /** What the run has taken, followed by what parsing its buffer would still give. */
  function Outlook(r: Run): Parsed {
    Precede(r.taken, Parse(r.decoder.buffer, r.decoder.limit))
  }

  /** A remembered error is the one the buffer begins with. */
  predicate PoisonIsReal(s: State) {
    s.poison.Some? ==> DecodeFrame(s.buffer, s.limit) == Bad(s.poison.value)
  }

  lemma OutlookAfterFeed(r: Run, bytes: seq<byte>, fed: seq<byte>)
    requires Outlook(r) == Parse(fed, r.decoder.limit)
    ensures Outlook(Step(r, FeedBytes(bytes))) == Parse(fed + bytes, r.decoder.limit)
  {
    var limit := r.decoder.limit;
    var p := Parse(r.decoder.buffer, limit);
    hide Parse; hide DecodeFrame; hide EncodeFrame;
    ParseInstalments(fed, bytes, limit);
    ParseInstalments(r.decoder.buffer, bytes, limit);
    if p.poison.None? {
      PrecedeTwice(r.taken, p.frames, Parse(p.rest + bytes, limit));
    }
  }

  lemma FeedKeepsOutlook(r: Run, bytes: seq<byte>, fed: seq<byte>)
    requires PoisonIsReal(r.decoder) && Outlook(r) == Parse(fed, r.decoder.limit)
    ensures var r' := Step(r, FeedBytes(bytes));
      && PoisonIsReal(r'.decoder) && r'.decoder.limit == r.decoder.limit
      && Outlook(r') == Parse(fed + bytes, r'.decoder.limit)
  {
    hide Parse; hide EncodeFrame; hide DecodeFrame;
    OutlookAfterFeed(r, bytes, fed);
    if r.decoder.poison.Some? { DecodeIsStable(r.decoder.buffer, bytes, r.decoder.limit); }
  }

  lemma TakeKeepsOutlook(r: Run)
    requires PoisonIsReal(r.decoder)
    ensures var r' := Step(r, Take);
      && PoisonIsReal(r'.decoder) && r'.decoder.limit == r.decoder.limit
      && Outlook(r') == Outlook(r)
  {
    var buffer, limit := r.decoder.buffer, r.decoder.limit;
    if DecodeFrame(buffer, limit).Decoded? {
      EncodeOfDecode(buffer, limit);
    }
    hide DecodeFrame; hide EncodeFrame;
    if DecodeFrame(buffer, limit).Decoded? {
      var d := DecodeFrame(buffer, limit);
      var after := Parse(buffer[d.used..], limit);
      assert r.taken + ([d.frame] + after.frames) == (r.taken + [d.frame]) + after.frames;
    }
  }

  lemma {:induction false} StepsKeepOutlook(configured: nat, ops: seq<Op>)
    ensures var r := Steps(configured, ops);
      && PoisonIsReal(r.decoder) && r.decoder.limit == MessageLimit(configured)
      && Outlook(r) == Parse(Fed(ops), r.decoder.limit)
  {
    if ops != [] {
      var before := ops[..|ops| - 1];
      StepsKeepOutlook(configured, before);
      hide DecodeFrame; hide EncodeFrame; hide Parse;
      var r := Steps(configured, before);
      match ops[|ops| - 1]
      case FeedBytes(bytes) => FeedKeepsOutlook(r, bytes, Fed(before));
      case Take =>
        TakeKeepsOutlook(r);
        assert Fed(before) + [] == Fed(before);
    }
  }

  /** Every frame taken, and the error met, are determined by the bytes fed: what
      was taken is a beginning of the stream's frames, and it is all of them as
      soon as `Take` yields no more. */
  lemma TakenIsDetermined(configured: nat, ops: seq<Op>)
    ensures var r := Steps(configured, ops); var whole := Parse(Fed(ops), MessageLimit(configured));
      && r.taken <= whole.frames
      && (r.decoder.poison.Some? ==> r.taken == whole.frames && r.decoder.poison == whole.poison)
      && (!NextResult(r.decoder).Decoded? ==>
            r.taken == whole.frames && AfterNext(r.decoder).poison == whole.poison)
  {
    StepsKeepOutlook(configured, ops);
    hide EncodeFrame;
  }

  /** Chunking independence: two runs fed the same bytes and drained agree on the
      frames and on the error, however the bytes were cut and interleaved. */
  lemma ChunkingIndependence(configured: nat, ops: seq<Op>, ops': seq<Op>)
    requires Fed(ops) == Fed(ops')
    requires !NextResult(Steps(configured, ops).decoder).Decoded?
    requires !NextResult(Steps(configured, ops').decoder).Decoded?
    ensures var r, r' := Steps(configured, ops), Steps(configured, ops');
      && r.taken == r'.taken
      && AfterNext(r.decoder).poison == AfterNext(r'.decoder).poison
  {
    TakenIsDetermined(configured, ops);
    TakenIsDetermined(configured, ops');
  }

  // ---- The buffer management that implements it ---------------------------------

  /** Bytes `buf[start..len]` are pending; the front is reclaimed on the next feed
      and the buffer doubles when it is too small. */
  class Decoder {
    var buf: array<byte>
    var len: nat
    var start: nat
    const limit: nat
    var poison: Option<FrameError>

    ghost predicate Valid()
      reads this, buf
    {
      start <= len <= buf.Length
    }

    ghost function View(): State
      requires Valid()
      reads this, buf
    {
      State(buf[start..len], limit, poison)
    }

    constructor (configured: nat)
      ensures Valid() && View() == Init(configured) && fresh(buf)
    {
      buf := new byte[0];
      len, start := 0, 0;
      limit := MessageLimit(configured);
      poison := None;
    }

    /** Moves the pending bytes to the front of the buffer. */
    method Reclaim()
      requires Valid()
      modifies this`len, this`start, buf
      ensures Valid() && View() == old(View()) && start == 0
    {
      if start > 0 {
        ghost var was := buf[start..len];
        forall k | 0 <= k < len - start {
          buf[k] := buf[start + k];
        }
        len := len - start;
        start := 0;
        assert buf[..len] == was;
      }
    }

    /** Makes room for `more` bytes after the pending ones. */
    method Reserve(more: nat)
      requires Valid() && start == 0
      modifies this`buf
      ensures Valid() && View() == old(View()) && buf.Length >= len + more
      ensures buf == old(buf) || fresh(buf)
    {
      if len + more > buf.Length {
        var grown := GrownCapacity(buf.Length, len + more);
        var larger := new byte[grown](_ => 0);
        CopyInto(larger, 0, buf[..len]);
        assert larger[..len] == buf[..len];
        buf := larger;
      }
    }

    method FeedBytes(bytes: seq<byte>)
      requires Valid()
      modifies this, buf
      ensures Valid() && View() == Feed(old(View()), bytes)
      ensures buf == old(buf) || fresh(buf)
    {
      if |bytes| == 0 {
        assert View().buffer + bytes == View().buffer;
        return;
      }
      Reclaim();
      Reserve(|bytes|);
      ghost var pending := buf[..len];
      CopyInto(buf, len, bytes);
      assert buf[..len + |bytes|] == pending + bytes;
      len := len + |bytes|;
    }

    /** Doubles from 1024 (or from the present size) until `needed` fits. */
    static method GrownCapacity(capacity: nat, needed: nat) returns (grown: nat)
      requires capacity < needed
      ensures grown >= needed
      ensures grown == 1024 || grown < 2 * needed
    {
      grown := if capacity == 0 then 1024 else capacity;
      while grown < needed
        invariant grown > 0 && (grown == 1024 || grown < 2 * needed)
        decreases needed - grown
      {
        grown := grown * 2;
      }
    }

    method Next() returns (result: Decoding)
      requires Valid()
      modifies this`poison
      ensures Valid() && result == old(NextResult(View())) && View() == old(AfterNext(View()))
    {
      if poison.Some? {
        return Bad(poison.value);
      }
      result := DecodeFrame(buf[start..len], limit);
      if result.Bad? {
        poison := Some(result.error);
      }
    }

    method AdvanceOver(length: nat)
      requires Valid()
      modifies this`start, this`len
      ensures Valid() && View() == old(Advance(View(), length))
    {
      ghost var was := View();
      start := start + length;
      if start >= len {
        start, len := 0, 0;
      }
    }

    /** Gives the memory back when nothing is pending. */
    method Shrink()
      requires Valid()
      modifies this
      ensures Valid() && View() == old(View())
      ensures buf == old(buf) || fresh(buf)
    {
      if len - start == 0 && buf.Length > 0 {
        buf := new byte[0];
        len, start := 0, 0;
      }
    }
  }
}
