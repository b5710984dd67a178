/** The K4 wire format and what a byte stream in it means.

    `Resume` is the meaning of the parser's loop on a given parser state; `Transcript`
    is an independent, declarative grammar of streams.  `Parses` and `Explain` show that
    the two agree on every stream. */
module FrameFormat {
  import opened Basics

  type Byte = b: int | 0 <= b < 256

  const START_MARKER: seq<Byte> := [0xFE, 0xFD, 0xFC, 0xFB]
  const END_MARKER: seq<Byte> := [0, 0, 0, 0]
  const MAX_FRAME_SIZE: nat := 1024 * 1024
  const WORD: nat := 0x1_0000_0000

  const TYPE_CAT_COMMAND: Byte := 1
  const TYPE_CAT_RESPONSE: Byte := 2

  datatype Frame = Frame(kind: Byte, data: seq<Byte>)

  // ----- Length field -----

  function BigEndian(n: nat): (s: seq<Byte>)
    requires n < WORD
    ensures |s| == 4
  {
    [n / 0x1000000, n / 0x10000 % 256, n / 0x100 % 256, n % 256]
  }

  function FromBigEndian(s: seq<Byte>): (n: nat)
    requires |s| == 4
    ensures n < WORD
  {
    s[0] as int * 0x1000000 + s[1] as int * 0x10000 + s[2] as int * 0x100 + s[3]
  }

  lemma LengthRoundTrip(n: nat)
    requires n < WORD
    ensures FromBigEndian(BigEndian(n)) == n
  {
    var a, b := n / 0x10000, n / 0x100;
    assert a / 0x100 == n / 0x1000000 && b / 0x100 == a;
    assert n == b * 0x100 + n % 0x100 && b == a * 0x100 + b % 0x100 && a == a / 0x100 * 0x100 + a % 0x100;
  }

  lemma PopBytes(a: Byte, b: Byte, c: Byte, d: Byte)
    ensures var n := a as int * 0x1000000 + b as int * 0x10000 + c as int * 0x100 + d;
            n / 0x1000000 == a && n / 0x10000 % 256 == b && n / 0x100 % 256 == c && n % 256 == d
  {
    var n := a as int * 0x1000000 + b as int * 0x10000 + c as int * 0x100 + d;
    assert n / 0x100 == a as int * 0x10000 + b as int * 0x100 + c;
    assert n / 0x10000 == a as int * 0x100 + b;
  }

  lemma LengthBytesRoundTrip(s: seq<Byte>)
    requires |s| == 4
    ensures BigEndian(FromBigEndian(s)) == s
  {
    PopBytes(s[0], s[1], s[2], s[3]);
    assert BigEndian(FromBigEndian(s)) == [s[0], s[1], s[2], s[3]];
  }

  // ----- Start marker -----

  predicate MarkerAt(s: seq<Byte>, i: int)
  {
    0 <= i && i + 4 <= |s| &&
    s[i] == START_MARKER[0] && s[i + 1] == START_MARKER[1] &&
    s[i + 2] == START_MARKER[2] && s[i + 3] == START_MARKER[3]
  }

  /** The marker, spelled out. */
  predicate SpeltMarkerAt(s: seq<Byte>, k: int)
  {
    0 <= k && k + 4 <= |s| && s[k..k + 4] == [0xFE, 0xFD, 0xFC, 0xFB]
  }

  lemma MarkerBytes(s: seq<Byte>, k: int)
    ensures MarkerAt(s, k) <==> SpeltMarkerAt(s, k)
  {
    if 0 <= k && k + 4 <= |s| {
      assert s[k..k + 4] == [s[k], s[k + 1], s[k + 2], s[k + 3]];
    }
  }

  ghost predicate MarkerFree(s: seq<Byte>)
  {
    forall i :: !MarkerAt(s, i)
  }

  /** Index of the first start marker, or -1. */
  function FirstMarker(s: seq<Byte>, from: nat := 0): (i: int)
    ensures i == -1 ==> forall k :: from <= k ==> !MarkerAt(s, k)
    ensures i != -1 ==> from <= i && MarkerAt(s, i) && forall k :: from <= k < i ==> !MarkerAt(s, k)
    decreases |s| - from
  {
    if |s| < from + 4 then -1
    else if MarkerAt(s, from) then from
    else FirstMarker(s, from + 1)
  }

  /** The marker has no border, so a gap without a marker cannot form one with the marker that follows. */
  lemma MarkerAfterGap(gap: seq<Byte>, rest: seq<Byte>)
    requires MarkerFree(gap)
    ensures FirstMarker(gap + START_MARKER + rest) == |gap|
  {
    var s := gap + START_MARKER + rest;
    assert MarkerAt(s, |gap|);
    forall k | 0 <= k < |gap|
      ensures !MarkerAt(s, k)
    {
      assert k + 4 <= |gap| ==> MarkerAt(s, k) == MarkerAt(gap, k);
    }
  }

  function LastThree(s: seq<Byte>): (t: seq<Byte>)
    ensures |t| <= 3 && |t| <= |s| && t == s[|s| - |t|..]
    ensures |t| < 3 ==> t == s
  {
    if |s| > 3 then s[|s| - 3..] else s
  }

  // ----- The parser's loop -----

  datatype State = SeekingStart | ReadingLength | ReadingPayload | ReadingEnd
  datatype Parser = Parser(state: State, expected: nat, buffer: seq<Byte>)
  datatype Outcome = Outcome(parser: Parser, frames: seq<Frame>)

  const FRESH := Parser(SeekingStart, 0, [])

  predicate WellFormed(p: Parser)
  {
    p.state == ReadingPayload ==> 1 <= p.expected <= MAX_FRAME_SIZE
  }

  /** What a parser may still hold when a call returns. */
  predicate Settled(p: Parser)
  {
    WellFormed(p) &&
    |p.buffer| < if p.state == ReadingPayload then p.expected else 4
  }

  /** One iteration of the loop: where it goes and what it dispatches, or `Wait` for more bytes. */
  datatype Step = Wait | Go(next: Parser, out: seq<Frame>)

  function Iterate(p: Parser): (r: Step)
    requires WellFormed(p)
    ensures r.Go? ==> WellFormed(r.next) && |r.next.buffer| < |p.buffer|
    ensures forall f :: r.Go? && f in r.out ==> |f.data| < MAX_FRAME_SIZE
    ensures r.Wait? ==> Settled(AtRest(p))
  {
    var b := p.buffer;
    match p.state
    case SeekingStart =>
      var i := FirstMarker(b);
      if i == -1 then Wait else Go(p.(state := ReadingLength, buffer := b[i + 4..]), [])
    case ReadingLength =>
      if |b| < 4 then Wait
      else
        var n := FromBigEndian(b[..4]);
        Go(Parser(if n == 0 || n > MAX_FRAME_SIZE then SeekingStart else ReadingPayload, n, b[4..]), [])
    case ReadingPayload =>
      if |b| < p.expected then Wait
      else Go(p.(state := ReadingEnd, buffer := b[p.expected..]), [Frame(b[0], b[1..p.expected])])
    case ReadingEnd =>
      if |b| < 4 then Wait else Go(p.(state := SeekingStart, buffer := b[4..]), [])
  }

  /** While seeking, the last three bytes may begin a marker and are kept. */
  function AtRest(p: Parser): Parser
  {
    if p.state == SeekingStart then p.(buffer := LastThree(p.buffer)) else p
  }

  function Resume(p: Parser): (o: Outcome)
    requires WellFormed(p)
    ensures Settled(o.parser) && |o.parser.buffer| <= |p.buffer|
    ensures forall f :: f in o.frames ==> |f.data| < MAX_FRAME_SIZE
    decreases |p.buffer|
  {
    match Iterate(p)
    case Wait => Outcome(AtRest(p), [])
    case Go(next, out) =>
      var o := Resume(next);
      Outcome(o.parser, out + o.frames)
  }

  /** The parse of a whole stream by a fresh parser. */
  function Parse(s: seq<Byte>): (o: Outcome)
    ensures Settled(o.parser)
  {
    Resume(FRESH.(buffer := s))
  }

  function Append(p: Parser, more: seq<Byte>): Parser
  {
    p.(buffer := p.buffer + more)
  }

  function Then(o: Outcome, more: seq<Byte>): Outcome
    requires WellFormed(o.parser)
  {
    var o' := Resume(Append(o.parser, more));
    Outcome(o'.parser, o.frames + o'.frames)
  }

  lemma FirstMarkerEarly(b: seq<Byte>, more: seq<Byte>)
    requires FirstMarker(b) != -1
    ensures FirstMarker(b + more) == FirstMarker(b)
  {
    var i := FirstMarker(b);
    hide FirstMarker;
    assert forall k :: 0 <= k <= i ==> MarkerAt(b, k) == MarkerAt(b + more, k);
  }

  /** An iteration that can go ahead is not affected by bytes that arrive later. */
  lemma IterateEarly(p: Parser, more: seq<Byte>)
    requires WellFormed(p) && Iterate(p).Go?
    ensures Iterate(Append(p, more)) == Go(Append(Iterate(p).next, more), Iterate(p).out)
  {
    hide FirstMarker, FromBigEndian;
    var b := p.buffer;
    match p.state
    case SeekingStart =>
      FirstMarkerEarly(b, more);
      var i := FirstMarker(b);
      assert (b + more)[i + 4..] == b[i + 4..] + more;
    case ReadingLength =>
      assert (b + more)[..4] == b[..4] && (b + more)[4..] == b[4..] + more;
    case ReadingPayload =>
      assert (b + more)[1..p.expected] == b[1..p.expected];
      assert (b + more)[p.expected..] == b[p.expected..] + more;
    case ReadingEnd =>
      assert (b + more)[4..] == b[4..] + more;
  }

  /** No marker hides in bytes a seeking parser drops, not even one that is completed later. */
  lemma MarkerShift(dropped: seq<Byte>, kept: seq<Byte>, more: seq<Byte>, k: int)
    requires MarkerFree(dropped + kept) && |kept| == 3
    ensures MarkerAt(dropped + kept + more, k) <==> MarkerAt(kept + more, k - |dropped|)
  {
    if 0 <= k < |dropped| {
      assert MarkerAt(dropped + kept + more, k) == MarkerAt(dropped + kept, k);
    }
  }

  lemma FirstMarkerShift(dropped: seq<Byte>, kept: seq<Byte>, more: seq<Byte>)
    requires MarkerFree(dropped + kept) && |kept| == 3
    ensures var i, j := FirstMarker(dropped + kept + more), FirstMarker(kept + more);
            i == if j == -1 then -1 else |dropped| + j
  {
    forall k ensures MarkerAt(dropped + kept + more, k) <==> MarkerAt(kept + more, k - |dropped|) {
      MarkerShift(dropped, kept, more, k);
    }
    var i, j := FirstMarker(dropped + kept + more), FirstMarker(kept + more);
    assert j != -1 ==> MarkerAt(dropped + kept + more, |dropped| + j);
    assert i != -1 ==> MarkerAt(kept + more, i - |dropped|);
  }

  lemma DropFromConcat(a: seq<Byte>, b: seq<Byte>, n: nat)
    requires n <= |b|
    ensures (a + b)[|a| + n..] == b[n..]
  {}

  function Prefixing(out: seq<Frame>, o: Outcome): Outcome
  {
    Outcome(o.parser, out + o.frames)
  }

  lemma ResumeGo(p: Parser)
    requires WellFormed(p) && Iterate(p).Go?
    ensures Resume(p) == Prefixing(Iterate(p).out, Resume(Iterate(p).next))
  {
    hide Iterate;
  }

  lemma ResumeWait(p: Parser)
    requires WellFormed(p) && Iterate(p).Wait?
    ensures Resume(p) == Outcome(AtRest(p), [])
  {
    hide Iterate;
  }

  /** The next iteration after more bytes is the same whether or not the rest was dropped. */
  lemma SeekIterates(p: Parser, more: seq<Byte>)
    requires p.state == SeekingStart && Iterate(p).Wait? && |p.buffer| > 3
    ensures var q, r := Append(p, more), Append(AtRest(p), more);
            Iterate(q) == Iterate(r) && (Iterate(q).Wait? ==> AtRest(q) == AtRest(r))
  {
    var b := p.buffer;
    var dropped, kept := b[..|b| - 3], b[|b| - 3..];
    assert b == dropped + kept;
    DroppedUnseen(dropped, kept, more);
    hide MarkerAt, FirstMarker, FromBigEndian;
  }

  lemma DroppedUnseen(dropped: seq<Byte>, kept: seq<Byte>, more: seq<Byte>)
    requires MarkerFree(dropped + kept) && |kept| == 3
    ensures var s, t := dropped + kept + more, kept + more;
            var i, j := FirstMarker(s), FirstMarker(t);
            if j == -1 then i == -1 && LastThree(s) == LastThree(t) else i != -1 && s[i + 4..] == t[j + 4..]
  {
    FirstMarkerShift(dropped, kept, more);
    hide MarkerAt, FirstMarker;
    var t := kept + more;
    assert dropped + kept + more == dropped + t;
    var j := FirstMarker(t);
    DropFromConcat(dropped, t, if j == -1 then |t| - 3 else j + 4);
  }

  /** Keeping only the last three bytes loses nothing. */
  lemma SeekRest(p: Parser, more: seq<Byte>)
    requires p.state == SeekingStart && Iterate(p).Wait? && |p.buffer| > 3
    ensures Resume(Append(p, more)) == Resume(Append(AtRest(p), more))
  {
    SeekIterates(p, more);
    hide Iterate, Resume;
    var q, r := Append(p, more), Append(AtRest(p), more);
    if Iterate(q).Wait? {
      ResumeWait(q);
      ResumeWait(r);
    } else {
      ResumeGo(q);
      ResumeGo(r);
    }
  }

  lemma PrefixingThen(out: seq<Frame>, o: Outcome, more: seq<Byte>)
    requires WellFormed(o.parser)
    ensures Then(Prefixing(out, o), more) == Prefixing(out, Then(o, more))
  {
    hide Resume;
  }

  /** A parser that waits behaves as one that kept only what it needs. */
  lemma WaitThen(p: Parser, more: seq<Byte>)
    requires WellFormed(p) && Iterate(p).Wait?
    ensures Resume(Append(p, more)) == Then(Resume(p), more)
  {
    hide Iterate, Resume;
    ResumeWait(p);
    if p.state == SeekingStart && |p.buffer| > 3 {
      SeekRest(p, more);
    } else {
      assert AtRest(p) == p;
    }
    var o := Resume(Append(AtRest(p), more));
    assert [] + o.frames == o.frames;
  }

  /** Feeding two pieces one after the other is feeding their concatenation. */
  lemma {:induction false} ResumeSplit(p: Parser, more: seq<Byte>)
    requires WellFormed(p)
    ensures Resume(Append(p, more)) == Then(Resume(p), more)
    decreases |p.buffer|
  {
    hide Iterate, Resume, Then, Prefixing;
    match Iterate(p)
    case Wait =>
      WaitThen(p, more);
    case Go(next, out) =>
      IterateEarly(p, more);
      ResumeGo(p);
      ResumeGo(Append(p, more));
      ResumeSplit(next, more);
      PrefixingThen(out, Resume(next), more);
  }

  lemma ParseSplit(s: seq<Byte>, more: seq<Byte>)
    ensures Parse(s + more) == Then(Parse(s), more)
  {
    ResumeSplit(FRESH.(buffer := s), more);
  }

  // ----- feedData: chunks and the overflow reset -----

  predicate Overflows(p: Parser, chunk: seq<Byte>)
  {
    |p.buffer| + |chunk| > 2 * MAX_FRAME_SIZE
  }

  function Feed(p: Parser, chunk: seq<Byte>): (o: Outcome)
    requires WellFormed(p)
    ensures Settled(o.parser) && |o.parser.buffer| <= |p.buffer| + |chunk|
    ensures forall f :: f in o.frames ==> |f.data| < MAX_FRAME_SIZE
  {
    if Overflows(p, chunk) then Outcome(FRESH, []) else Resume(Append(p, chunk))
  }

  function FeedAll(p: Parser, chunks: seq<seq<Byte>>): (o: Outcome)
    requires Settled(p)
    ensures Settled(o.parser)
    ensures forall f :: f in o.frames ==> |f.data| < MAX_FRAME_SIZE
    decreases |chunks|
  {
    if chunks == [] then Outcome(p, [])
    else
      var first := Feed(p, chunks[0]);
      var rest := FeedAll(first.parser, chunks[1..]);
      Outcome(rest.parser, first.frames + rest.frames)
  }

  ghost predicate NeverOverflows(p: Parser, chunks: seq<seq<Byte>>)
    requires Settled(p)
    decreases |chunks|
  {
    chunks != [] ==>
      !Overflows(p, chunks[0]) && NeverOverflows(Feed(p, chunks[0]).parser, chunks[1..])
  }

  /** A settled parser has nothing to do until more bytes arrive. */
  lemma SettledIsIdle(p: Parser)
    requires Settled(p)
    ensures Resume(p) == Outcome(p, [])
  {
    assert forall i :: !MarkerAt(p.buffer, i) || |p.buffer| >= 4;
  }

  /** Chunk boundaries are unobservable as long as the overflow reset does not fire. */
  lemma {:induction false} ChunkingUnobservable(p: Parser, chunks: seq<seq<Byte>>)
    requires Settled(p) && NeverOverflows(p, chunks)
    ensures FeedAll(p, chunks) == Resume(Append(p, Concat(chunks)))
    decreases |chunks|
  {
    hide Resume;
    if chunks == [] {
      SettledIsIdle(p);
      assert Append(p, []) == p;
    } else {
      var first := Feed(p, chunks[0]);
      ChunkingUnobservable(first.parser, chunks[1..]);
      ResumeSplit(Append(p, chunks[0]), Concat(chunks[1..]));
      assert p.buffer + chunks[0] + Concat(chunks[1..]) == p.buffer + Concat(chunks);
    }
  }

  ghost predicate SmallChunks(chunks: seq<seq<Byte>>)
  {
    forall c :: c in chunks ==> |c| <= MAX_FRAME_SIZE + 1
  }

  lemma {:induction false} SmallChunksNeverOverflow(p: Parser, chunks: seq<seq<Byte>>)
    requires Settled(p) && SmallChunks(chunks)
    ensures NeverOverflows(p, chunks)
    decreases |chunks|
  {
    if chunks != [] {
      assert chunks[0] in chunks;
      SmallChunksNeverOverflow(Feed(p, chunks[0]).parser, chunks[1..]);
    }
  }

  /** Nor does a stream that fits the buffer limit, however it is cut. */
  lemma {:induction false} ShortStreamNeverOverflows(p: Parser, chunks: seq<seq<Byte>>)
    requires Settled(p) && |p.buffer| + |Concat(chunks)| <= 2 * MAX_FRAME_SIZE
    ensures NeverOverflows(p, chunks)
    decreases |chunks|
  {
    if chunks != [] {
      ShortStreamNeverOverflows(Feed(p, chunks[0]).parser, chunks[1..]);
    }
  }

  /** MAX_FRAME_SIZE + 1 is the largest chunk that is safe whatever the parser holds. */
  lemma SafeChunkSizeIsTight(n: nat)
    ensures (forall p, c: seq<Byte> :: Settled(p) && |c| == n ==> !Overflows(p, c)) <==> n <= MAX_FRAME_SIZE + 1
  {
    if n > MAX_FRAME_SIZE + 1 {
      var p := Parser(ReadingPayload, MAX_FRAME_SIZE, seq(MAX_FRAME_SIZE - 1, _ => 0));
      var c: seq<Byte> := seq(n, _ => 0);
      assert Settled(p) && Overflows(p, c);
    }
  }

  // ----- Streams, declaratively -----

  /** A maximal unit of a stream, with the garbage before it. */
  datatype Segment =
    | Delivered(gap: seq<Byte>, frame: Frame, trailer: seq<Byte>)
    | Rejected(gap: seq<Byte>, length: nat)

  /** What is left at the end of a stream. */
  datatype Tail =
    | Searching(gap: seq<Byte>)
    | PartLength(gap: seq<Byte>, part: seq<Byte>)
    | PartPayload(gap: seq<Byte>, length: nat, part: seq<Byte>)
    | PartTrailer(gap: seq<Byte>, frame: Frame, part: seq<Byte>)

  datatype Transcript = Transcript(segments: seq<Segment>, tail: Tail)

  ghost predicate ValidSegment(s: Segment)
  {
    MarkerFree(s.gap) &&
    match s
    case Delivered(_, f, trailer) => |f.data| < MAX_FRAME_SIZE && |trailer| == 4
    case Rejected(_, n) => n == 0 || MAX_FRAME_SIZE < n < WORD
  }

  ghost predicate ValidTail(t: Tail)
  {
    MarkerFree(t.gap) &&
    match t
    case Searching(_) => true
    case PartLength(_, part) => |part| < 4
    case PartPayload(_, n, part) => |part| < n <= MAX_FRAME_SIZE
    case PartTrailer(_, f, part) => |f.data| < MAX_FRAME_SIZE && |part| < 4
  }

  ghost predicate Valid(t: Transcript)
  {
    (forall s :: s in t.segments ==> ValidSegment(s)) && ValidTail(t.tail)
  }

  function Body(f: Frame): seq<Byte>
    requires |f.data| < MAX_FRAME_SIZE
  {
    BigEndian(|f.data| + 1) + [f.kind] + f.data
  }

  ghost function SegmentBytes(s: Segment): seq<Byte>
    requires ValidSegment(s)
  {
    s.gap + START_MARKER + AfterMarker(s)
  }

  ghost function AfterMarker(s: Segment): seq<Byte>
    requires ValidSegment(s)
  {
    match s
    case Delivered(_, f, trailer) => Body(f) + trailer
    case Rejected(_, n) => BigEndian(n)
  }

  ghost function TailBytes(t: Tail): seq<Byte>
    requires ValidTail(t)
  {
    match t
    case Searching(gap) => gap
    case PartLength(gap, part) => gap + START_MARKER + part
    case PartPayload(gap, n, part) => gap + START_MARKER + (BigEndian(n) + part)
    case PartTrailer(gap, f, part) => gap + START_MARKER + (Body(f) + part)
  }

  ghost function Bytes(t: Transcript): seq<Byte>
    requires Valid(t)
    decreases |t.segments|
  {
    if t.segments == [] then TailBytes(t.tail)
    else SegmentBytes(t.segments[0]) + Bytes(t.(segments := t.segments[1..]))
  }

  function SegmentFrames(s: Segment): seq<Frame>
  {
    if s.Delivered? then [s.frame] else []
  }

  /** A frame is dispatched before its trailer is read. */
  function TailFrames(t: Tail): seq<Frame>
  {
    if t.PartTrailer? then [t.frame] else []
  }

  function Frames(t: Transcript): seq<Frame>
    decreases |t.segments|
  {
    if t.segments == [] then TailFrames(t.tail)
    else SegmentFrames(t.segments[0]) + Frames(t.(segments := t.segments[1..]))
  }

  /** The parser is where the tail says, and holds what the tail says. */
  ghost predicate AtTail(p: Parser, t: Tail)
  {
    match t
    case Searching(gap) => p.state == SeekingStart && p.buffer == LastThree(gap)
    case PartLength(_, part) => p.state == ReadingLength && p.buffer == part
    case PartPayload(_, n, part) => p == Parser(ReadingPayload, n, part)
    case PartTrailer(_, _, part) => p.state == ReadingEnd && p.buffer == part
  }

  lemma SeekPastGap(e: nat, gap: seq<Byte>, rest: seq<Byte>)
    requires MarkerFree(gap)
    ensures Resume(Parser(SeekingStart, e, gap + START_MARKER + rest)) == Resume(Parser(ReadingLength, e, rest))
  {
    MarkerAfterGap(gap, rest);
    assert (gap + START_MARKER + rest)[|gap| + 4..] == rest;
  }

  lemma ReadLength(e: nat, n: nat, rest: seq<Byte>)
    requires n < WORD
    ensures Resume(Parser(ReadingLength, e, BigEndian(n) + rest))
         == Resume(Parser(if n == 0 || n > MAX_FRAME_SIZE then SeekingStart else ReadingPayload, n, rest))
  {
    LengthRoundTrip(n);
    assert (BigEndian(n) + rest)[..4] == BigEndian(n);
    assert (BigEndian(n) + rest)[4..] == rest;
  }

  lemma ReadBody(e: nat, f: Frame, rest: seq<Byte>)
    requires |f.data| < MAX_FRAME_SIZE
    ensures var o := Resume(Parser(ReadingLength, e, Body(f) + rest));
            var o' := Resume(Parser(ReadingEnd, |f.data| + 1, rest));
            o == Outcome(o'.parser, [f] + o'.frames)
  {
    var n := |f.data| + 1;
    var b := [f.kind] + f.data + rest;
    assert Body(f) + rest == BigEndian(n) + b;
    ReadLength(e, n, b);
    assert b[1..n] == f.data && b[n..] == rest;
  }

  lemma SkipTrailer(e: nat, trailer: seq<Byte>, rest: seq<Byte>)
    requires |trailer| == 4
    ensures Resume(Parser(ReadingEnd, e, trailer + rest)) == Resume(Parser(SeekingStart, e, rest))
  {
    assert (trailer + rest)[4..] == rest;
  }

  lemma ParseAfterMarker(e: nat, s: Segment, rest: seq<Byte>) returns (e': nat)
    requires ValidSegment(s)
    ensures var o := Resume(Parser(ReadingLength, e, AfterMarker(s) + rest));
            var o' := Resume(Parser(SeekingStart, e', rest));
            o == Outcome(o'.parser, SegmentFrames(s) + o'.frames)
  {
    match s
    case Delivered(gap, f, trailer) =>
      e' := |f.data| + 1;
      assert AfterMarker(s) + rest == Body(f) + (trailer + rest);
      ReadBody(e, f, trailer + rest);
      SkipTrailer(e', trailer, rest);
    case Rejected(gap, n) =>
      e' := n;
      ReadLength(e, n, rest);
  }

  lemma ParseSegment(e: nat, s: Segment, rest: seq<Byte>) returns (e': nat)
    requires ValidSegment(s)
    ensures var o := Resume(Parser(SeekingStart, e, SegmentBytes(s) + rest));
            var o' := Resume(Parser(SeekingStart, e', rest));
            o == Outcome(o'.parser, SegmentFrames(s) + o'.frames)
  {
    assert SegmentBytes(s) + rest == s.gap + START_MARKER + (AfterMarker(s) + rest);
    SeekPastGap(e, s.gap, AfterMarker(s) + rest);
    e' := ParseAfterMarker(e, s, rest);
  }

  lemma ParseTail(e: nat, t: Tail)
    requires ValidTail(t)
    ensures var o := Resume(Parser(SeekingStart, e, TailBytes(t)));
            AtTail(o.parser, t) && o.frames == TailFrames(t)
  {
    match t
    case Searching(gap) =>
    case PartLength(gap, part) =>
      SeekPastGap(e, gap, part);
      SettledIsIdle(Parser(ReadingLength, e, part));
    case PartPayload(gap, n, part) =>
      SeekPastGap(e, gap, BigEndian(n) + part);
      ReadLength(e, n, part);
      SettledIsIdle(Parser(ReadingPayload, n, part));
    case PartTrailer(gap, f, part) =>
      SeekPastGap(e, gap, Body(f) + part);
      ReadBody(e, f, part);
      SettledIsIdle(Parser(ReadingEnd, |f.data| + 1, part));
  }

  lemma {:induction false} ParsesFrom(e: nat, t: Transcript)
    requires Valid(t)
    ensures var o := Resume(Parser(SeekingStart, e, Bytes(t)));
            o.frames == Frames(t) && AtTail(o.parser, t.tail)
    decreases |t.segments|
  {
    if t.segments == [] {
      ParseTail(e, t.tail);
    } else {
      var rest := t.(segments := t.segments[1..]);
      var e' := ParseSegment(e, t.segments[0], Bytes(rest));
      ParsesFrom(e', rest);
    }
  }

  /** A stream that reads as a transcript yields that transcript's frames and nothing else. */
  lemma Parses(t: Transcript)
    requires Valid(t)
    ensures Parse(Bytes(t)).frames == Frames(t)
    ensures AtTail(Parse(Bytes(t)).parser, t.tail)
  {
    ParsesFrom(0, t);
  }

  /** Every stream reads as some transcript. */
  lemma {:induction false} Explain(s: seq<Byte>) returns (t: Transcript)
    ensures Valid(t) && Bytes(t) == s
    decreases |s|
  {
    var i := FirstMarker(s);
    if i == -1 {
      t := Transcript([], Searching(s));
    } else {
      var gap, rest := s[..i], s[i + 4..];
      forall k ensures !MarkerAt(gap, k) {
        assert MarkerAt(gap, k) ==> MarkerAt(s, k);
      }
      assert s == gap + START_MARKER + rest;
      t := ExplainHeader(gap, rest);
    }
  }

  lemma {:induction false} ExplainHeader(gap: seq<Byte>, rest: seq<Byte>) returns (t: Transcript)
    requires MarkerFree(gap)
    ensures Valid(t) && Bytes(t) == gap + START_MARKER + rest
    decreases |rest|
  {
    if |rest| < 4 {
      t := Transcript([], PartLength(gap, rest));
    } else {
      var n := FromBigEndian(rest[..4]);
      var body := rest[4..];
      LengthBytesRoundTrip(rest[..4]);
      assert rest == BigEndian(n) + body;
      if n == 0 || n > MAX_FRAME_SIZE {
        var t' := Explain(body);
        t := Prefixed(Rejected(gap, n), t', gap + START_MARKER + rest);
      } else if |body| < n {
        t := Transcript([], PartPayload(gap, n, body));
      } else {
        assert body == [body[0]] + body[1..n] + body[n..];
        assert rest == Body(Frame(body[0], body[1..n])) + body[n..];
        t := ExplainTrailer(gap, Frame(body[0], body[1..n]), body[n..]);
      }
    }
  }

  lemma Reassociate(a: seq<Byte>, b: seq<Byte>, c: seq<Byte>, d: seq<Byte>)
    ensures a + (b + c) + d == a + (b + (c + d))
  {}

  lemma {:induction false} ExplainTrailer(gap: seq<Byte>, f: Frame, rest: seq<Byte>) returns (t: Transcript)
    requires MarkerFree(gap) && |f.data| < MAX_FRAME_SIZE
    ensures Valid(t) && Bytes(t) == gap + START_MARKER + (Body(f) + rest)
    decreases |rest|
  {
    hide MarkerFree, Body;
    if |rest| < 4 {
      t := Transcript([], PartTrailer(gap, f, rest));
    } else {
      var t' := Explain(rest[4..]);
      var s := Delivered(gap, f, rest[..4]);
      assert rest == rest[..4] + rest[4..];
      Reassociate(gap + START_MARKER, Body(f), rest[..4], rest[4..]);
      t := Prefixed(s, t', gap + START_MARKER + (Body(f) + rest));
    }
  }

  ghost function Prefixed(s: Segment, t: Transcript, stream: seq<Byte>): (r: Transcript)
    requires ValidSegment(s) && Valid(t)
    requires stream == SegmentBytes(s) + Bytes(t)
    ensures Valid(r) && Bytes(r) == stream
    ensures Frames(r) == SegmentFrames(s) + Frames(t)
  {
    var r := t.(segments := [s] + t.segments);
    assert r.segments[1..] == t.segments && t == r.(segments := r.segments[1..]);
    r
  }

  // ----- What the format promises -----

  /** The frames a parser dispatches are exactly those of the one reading of the stream, in any chunking that
      does not overflow its buffer. */
  lemma StreamMeaning(chunks: seq<seq<Byte>>, frames: seq<Frame>)
    requires NeverOverflows(FRESH, chunks)
    ensures FeedAll(FRESH, chunks).frames == frames
       <==> exists t :: Valid(t) && Bytes(t) == Concat(chunks) && Frames(t) == frames
  {
    var s := Concat(chunks);
    Deliver(chunks);
    var t := Explain(s);
    Parses(t);
    forall t | Valid(t) && Bytes(t) == s ensures Frames(t) == Parse(s).frames {
      Parses(t);
    }
  }

  /** A fresh parser whose buffer never overflows parses the whole stream. */
  lemma Deliver(chunks: seq<seq<Byte>>)
    requires NeverOverflows(FRESH, chunks)
    ensures FeedAll(FRESH, chunks) == Parse(Concat(chunks))
  {
    ChunkingUnobservable(FRESH, chunks);
    assert [] + Concat(chunks) == Concat(chunks);
  }

  /** Every frame comes out once and in order, whatever lies between the frames, whatever stands
      in the trailers and however the bytes are cut. */
  lemma NoisyRoundTrip(frames: seq<Frame>, gaps: seq<seq<Byte>>, trailers: seq<seq<Byte>>,
                       end: seq<Byte>, chunks: seq<seq<Byte>>)
    requires |gaps| == |trailers| == |frames|
    requires forall i :: 0 <= i < |frames| ==>
               |frames[i].data| < MAX_FRAME_SIZE && MarkerFree(gaps[i]) && |trailers[i]| == 4
    requires MarkerFree(end)
    requires NeverOverflows(FRESH, chunks)
    requires Concat(chunks) == Noisy(frames, gaps, trailers, end)
    ensures FeedAll(FRESH, chunks).frames == frames
  {
    Deliver(chunks);
    NoisyTranscript(frames, gaps, trailers, end);
    Parses(Transcript(Segments(frames, gaps, trailers), Searching(end)));
  }

  function Noisy(frames: seq<Frame>, gaps: seq<seq<Byte>>, trailers: seq<seq<Byte>>, end: seq<Byte>): seq<Byte>
    requires |gaps| == |trailers| == |frames|
    requires forall f :: f in frames ==> |f.data| < MAX_FRAME_SIZE
  {
    if frames == [] then end
    else gaps[0] + START_MARKER + Body(frames[0]) + trailers[0] + Noisy(frames[1..], gaps[1..], trailers[1..], end)
  }

  function Segments(frames: seq<Frame>, gaps: seq<seq<Byte>>, trailers: seq<seq<Byte>>): (s: seq<Segment>)
    requires |gaps| == |trailers| == |frames|
    ensures |s| == |frames|
  {
    seq(|frames|, i requires 0 <= i < |frames| => Delivered(gaps[i], frames[i], trailers[i]))
  }

  lemma {:induction false} NoisyTranscript(frames: seq<Frame>, gaps: seq<seq<Byte>>, trailers: seq<seq<Byte>>, end: seq<Byte>)
    requires |gaps| == |trailers| == |frames|
    requires forall i :: 0 <= i < |frames| ==>
               |frames[i].data| < MAX_FRAME_SIZE && MarkerFree(gaps[i]) && |trailers[i]| == 4
    requires MarkerFree(end)
    ensures var t := Transcript(Segments(frames, gaps, trailers), Searching(end));
            Valid(t) && Bytes(t) == Noisy(frames, gaps, trailers, end) && Frames(t) == frames
  {
    var t := Transcript(Segments(frames, gaps, trailers), Searching(end));
    if frames != [] {
      NoisyTranscript(frames[1..], gaps[1..], trailers[1..], end);
      assert t.segments[1..] == Segments(frames[1..], gaps[1..], trailers[1..]);
      var s := t.segments[0];
      assert SegmentBytes(s) == gaps[0] + START_MARKER + Body(frames[0]) + trailers[0];
    }
  }

  /** Parsing resumes exactly where a header with a bad length ends. */
  lemma BadHeaderRecovery(gap: seq<Byte>, n: nat, rest: seq<Byte>)
    requires MarkerFree(gap) && (n == 0 || MAX_FRAME_SIZE < n < WORD)
    ensures Parse(gap + START_MARKER + BigEndian(n) + rest).frames == Parse(rest).frames
  {
    var t := Explain(rest);
    Parses(t);
    var t' := Prefixed(Rejected(gap, n), t, gap + START_MARKER + BigEndian(n) + rest);
    Parses(t');
  }

  // ----- Encoding -----

  /** The frame `Protocol::encode` builds; the length is a 32-bit word. */
  function Encoded(f: Frame): seq<Byte>
  {
    START_MARKER + BigEndian((|f.data| + 1) % WORD) + [f.kind] + f.data + END_MARKER
  }

  /** An encoded frame, delivered at once or cut in any way at all, comes back exactly when type byte and data
      together fit the size limit. */
  lemma EncodeDecode(f: Frame, chunks: seq<seq<Byte>>)
    requires Concat(chunks) == Encoded(f)
    ensures FeedAll(FRESH, chunks).frames == [f] <==> |f.data| + 1 <= MAX_FRAME_SIZE
  {
    var o := FeedAll(FRESH, chunks);
    assert o.frames == [f] ==> f in o.frames;
    if |f.data| + 1 <= MAX_FRAME_SIZE {
      ShortStreamNeverOverflows(FRESH, chunks);
      Deliver(chunks);
      EncodedIsSegment(f);
      var t := Prefixed(Delivered([], f, END_MARKER), Transcript([], Searching([])), Encoded(f));
      Parses(t);
    }
  }

  /** The form of the round trip in which the whole frame is one feed. */
  lemma EncodeDecodeAtOnce(f: Frame)
    ensures FeedAll(FRESH, [Encoded(f)]).frames == [f] <==> |f.data| + 1 <= MAX_FRAME_SIZE
  {
    assert Concat([Encoded(f)]) == Encoded(f);
    EncodeDecode(f, [Encoded(f)]);
  }

  lemma EncodedIsSegment(f: Frame)
    requires |f.data| < MAX_FRAME_SIZE
    ensures Encoded(f) == SegmentBytes(Delivered([], f, END_MARKER))
  {
    hide BigEndian;
    var b := BigEndian(|f.data| + 1);
    assert [] + START_MARKER + (b + [f.kind] + f.data + END_MARKER) == START_MARKER + b + [f.kind] + f.data + END_MARKER;
  }

  // ----- On the wire, byte by byte -----

  /** The four bytes at i, most significant first. */
  function Word32(s: seq<Byte>, i: nat): nat
    requires i + 4 <= |s|
  {
    s[i] as int * 16777216 + s[i + 1] as int * 65536 + s[i + 2] as int * 256 + s[i + 3]
  }

  /** A frame as it travels, without its trailer: the marker FE FD FC FB, the length of type byte and data, the type
      byte, the data. */
  predicate Headed(s: seq<Byte>, kind: Byte, data: seq<Byte>)
  {
    |s| == |data| + 13 &&
    s[0] == 0xFE && s[1] == 0xFD && s[2] == 0xFC && s[3] == 0xFB &&
    Word32(s, 4) == |data| + 1 && s[8] == kind && s[9..9 + |data|] == data
  }

  /** With the trailer, four zeros. */
  predicate OnTheWire(s: seq<Byte>, kind: Byte, data: seq<Byte>)
  {
    Headed(s, kind, data) && s[9 + |data|..] == [0, 0, 0, 0]
  }

  /** The encoder puts exactly these bytes on the wire. */
  lemma EncodedOnTheWire(f: Frame, s: seq<Byte>)
    requires |f.data| + 1 < 0x1_0000_0000
    ensures OnTheWire(s, f.kind, f.data) <==> s == Encoded(f)
  {
    var n := |f.data| + 1;
    var e := Encoded(f);
    LengthRoundTrip(n);
    assert n % WORD == n;
    assert e[..8] == START_MARKER + BigEndian(n);
    assert e[4..8] == BigEndian(n);
    assert Word32(e, 4) == FromBigEndian(e[4..8]) == n;
    hide BigEndian;
    assert OnTheWire(e, f.kind, f.data);
    if OnTheWire(s, f.kind, f.data) {
      SameLength(s, e);
      WireUnique(s, e, f.kind, f.data);
    }
  }

  lemma SameLength(s: seq<Byte>, e: seq<Byte>)
    requires |s| >= 8 && |e| >= 8 && Word32(s, 4) == Word32(e, 4)
    ensures s[4..8] == e[4..8]
  {
    PopBytes(s[4], s[5], s[6], s[7]);
    PopBytes(e[4], e[5], e[6], e[7]);
  }

  lemma WireUnique(s: seq<Byte>, e: seq<Byte>, kind: Byte, data: seq<Byte>)
    requires OnTheWire(s, kind, data) && OnTheWire(e, kind, data) && s[4..8] == e[4..8]
    ensures s == e
  {
    hide Word32;
    assert s == s[..4] + s[4..8] + [s[8]] + s[9..9 + |data|] + s[9 + |data|..];
    assert e == e[..4] + e[4..8] + [e[8]] + e[9..9 + |data|] + e[9 + |data|..];
    assert s[..4] == e[..4];
  }

  /** Whoever put such bytes on the wire, with whatever trailer and however they are cut, a fresh parser dispatches
      exactly that frame if and only if type byte and data have at most 1048576 bytes. */
  lemma WireDelivers(s: seq<Byte>, kind: Byte, data: seq<Byte>, chunks: seq<seq<Byte>>)
    requires Headed(s, kind, data) && Concat(chunks) == s
    ensures FeedAll(FRESH, chunks).frames == [Frame(kind, data)] <==> |data| < 1048576
  {
    var f := Frame(kind, data);
    assert FeedAll(FRESH, chunks).frames == [f] ==> f in FeedAll(FRESH, chunks).frames;
    if |data| < 1048576 {
      ShortStreamNeverOverflows(FRESH, chunks);
      Deliver(chunks);
      var trailer := s[9 + |data|..];
      HeadedIsSegment(s, f, trailer);
      var t := Prefixed(Delivered([], f, trailer), Transcript([], Searching([])), s);
      Parses(t);
    }
  }

  lemma HeadedIsSegment(s: seq<Byte>, f: Frame, trailer: seq<Byte>)
    requires Headed(s, f.kind, f.data) && |f.data| < MAX_FRAME_SIZE && trailer == s[9 + |f.data|..]
    ensures |trailer| == 4 && s == SegmentBytes(Delivered([], f, trailer))
  {
    LengthBytesRoundTrip(s[4..8]);
    assert FromBigEndian(s[4..8]) == Word32(s, 4) == |f.data| + 1;
    hide BigEndian, Word32;
    assert s[..4] == START_MARKER;
    assert s == s[..4] + (s[4..8] + [s[8]] + s[9..9 + |f.data|] + trailer);
    assert [] + START_MARKER == START_MARKER;
  }

  /** A header whose length is 0 or above 1048576 is dropped after its four length bytes, and nothing else is. */
  lemma WireRejects(s: seq<Byte>)
    requires |s| >= 8 && s[0] == 0xFE && s[1] == 0xFD && s[2] == 0xFC && s[3] == 0xFB
    requires Word32(s, 4) == 0 || Word32(s, 4) > 1048576
    ensures Parse(s).frames == Parse(s[8..]).frames
  {
    var n := Word32(s, 4);
    LengthBytesRoundTrip(s[4..8]);
    assert FromBigEndian(s[4..8]) == n;
    hide BigEndian, Word32;
    assert s == [] + START_MARKER + s[4..8] + s[8..];
    BadHeaderRecovery([], n, s[8..]);
  }
}
