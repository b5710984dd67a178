/** The streaming frame parser and the encoder. */
module Protocol {
  import opened Basics
  import opened FrameFormat

  class FrameParser {
    var state: State
    var buffer: seq<Byte>
    var expectedLength: nat
    var dispatched: seq<Frame>  // what the frame callback has received

    ghost var stream: seq<Byte>    // every byte fed since construction or the last reset
    ghost var before: seq<Frame>   // what had been dispatched by then

    ghost function View(): Parser
      reads this
    {
      Parser(state, expectedLength, buffer)
    }

    /** The object agrees with the parse of everything it was fed. */
    ghost predicate Valid()
      reads this
    {
      View() == Parse(stream).parser && dispatched == before + Parse(stream).frames
    }

    /** An outcome preceded by what was dispatched earlier. */
    static ghost function Logged(log: seq<Frame>, o: Outcome): Outcome
    {
      Outcome(o.parser, log + o.frames)
    }

    constructor ()
      ensures Valid() && stream == [] && before == [] && dispatched == []
    {
      state, buffer, expectedLength, dispatched := SeekingStart, [], 0, [];
      stream, before := [], [];
      new;
      hide Resume, Iterate;
      SettledIsIdle(FRESH);
    }

    method Reset()
      modifies this
      ensures Valid() && stream == [] && before == dispatched == old(dispatched)
      ensures View() == FRESH
    {
      hide Resume, Iterate;
      state, buffer, expectedLength := SeekingStart, [], 0;
      stream, before := [], dispatched;
      SettledIsIdle(FRESH);
    }

    method FeedData(data: seq<Byte>)
      requires Valid()
      modifies this
      ensures Valid()
      ensures if |old(buffer)| + |data| > 2097152
              then View() == FRESH && stream == [] && before == dispatched == old(dispatched)
              else stream == old(stream) + data && before == old(before)
      ensures Outcome(View(), dispatched) == Logged(old(dispatched), Feed(old(View()), data))
      ensures |data| <= 1048577 ==> stream == old(stream) + data
    {
      hide Resume;
      ghost var o := Feed(View(), data);
      if !Overflows(View(), data) {
        Extend(stream, data);
      }
      buffer := buffer + data;
      if |buffer| > 2 * MAX_FRAME_SIZE {
        Reset();
        return;
      }
      ProcessBuffer();
      assert View() == o.parser;
      stream := stream + data;
    }

    static lemma Extend(s: seq<Byte>, data: seq<Byte>)
      requires !Overflows(Parse(s).parser, data)
      ensures Parse(s + data) == Logged(Parse(s).frames, Feed(Parse(s).parser, data))
    {
      ParseSplit(s, data);
    }

    method ProcessBuffer()
      requires WellFormed(View())
      modifies this`state, this`buffer, this`expectedLength, this`dispatched
      ensures View() == Resume(old(View())).parser
      ensures dispatched == old(dispatched) + Resume(old(View())).frames
    {
      hide Iterate;
      ghost var end := Resume(View());
      while buffer != []
        invariant WellFormed(View())
        invariant end.parser == Resume(View()).parser
        invariant old(dispatched) + end.frames == dispatched + Resume(View()).frames
        decreases |buffer|
      {
        var wait := Advance();
        if wait { return; }
      }
      SettledIsIdle(View());
    }

    /** The body of the loop. */
    method Advance() returns (wait: bool)
      requires WellFormed(View())
      modifies this`state, this`buffer, this`expectedLength, this`dispatched
      ensures wait ==> Iterate(old(View())) == Wait && View() == AtRest(old(View())) && dispatched == old(dispatched)
      ensures !wait ==> Iterate(old(View())).Go? && View() == Iterate(old(View())).next
      ensures !wait ==> dispatched == old(dispatched) + Iterate(old(View())).out
    {
      match state
      case SeekingStart =>
        var found, pos := FindStartMarker();
        if !found {
          if |buffer| > 3 {
            buffer := buffer[|buffer| - 3..];
          }
          return true;
        }
        buffer := buffer[pos + 4..];
        state := ReadingLength;
        return false;
      case ReadingLength =>
        if |buffer| < 4 { return true; }
        expectedLength := buffer[0] as int * 0x1000000 + buffer[1] as int * 0x10000 + buffer[2] as int * 0x100 + buffer[3];
        buffer := buffer[4..];
        if expectedLength == 0 || expectedLength > MAX_FRAME_SIZE {
          state := SeekingStart;
        } else {
          state := ReadingPayload;
        }
        return false;
      case ReadingPayload =>
        if |buffer| < expectedLength { return true; }
        var payload := buffer[..expectedLength];
        buffer := buffer[expectedLength..];
        state := ReadingEnd;
        dispatched := dispatched + [Frame(payload[0], payload[1..])];
        return false;
      case ReadingEnd =>
        if |buffer| < 4 { return true; }
        buffer := buffer[4..];
        state := SeekingStart;
        return false;
    }

    method FindStartMarker() returns (found: bool, pos: nat)
      ensures found <==> !MarkerFree(buffer)
      ensures found ==> MarkerAt(buffer, pos) && pos == FirstMarker(buffer)
      ensures found ==> SpeltMarkerAt(buffer, pos)
      ensures forall k :: SpeltMarkerAt(buffer, k) ==> found && pos <= k
    {
      forall k ensures MarkerAt(buffer, k) <==> SpeltMarkerAt(buffer, k) {
        MarkerBytes(buffer, k);
      }
      hide SpeltMarkerAt;
      found, pos := false, 0;
      if |buffer| < 4 { return; }
      for i := 0 to |buffer| - 3
        invariant forall k :: k < i ==> !MarkerAt(buffer, k)
      {
        if MarkerAt(buffer, i) {
          return true, i;
        }
      }
    }
  }

  method Encode(kind: Byte, payload: seq<Byte>) returns (frame: seq<Byte>)
    ensures frame == Encoded(Frame(kind, payload))
    ensures |payload| + 1 < 0x1_0000_0000 ==> OnTheWire(frame, kind, payload)
  {
    hide OnTheWire;
    var payloadLen := (1 + |payload|) % WORD;
    frame := START_MARKER;
    frame := frame + [payloadLen / 0x1000000 % 0x100];
    frame := frame + [payloadLen / 0x10000 % 0x100];
    frame := frame + [payloadLen / 0x100 % 0x100];
    frame := frame + [payloadLen % 0x100];
    frame := frame + [kind];
    frame := frame + payload;
    frame := frame + END_MARKER;
    if |payload| + 1 < 0x1_0000_0000 { EncodedOnTheWire(Frame(kind, payload), frame); }
  }

  lemma FeedNext(p: Parser, log: seq<Frame>, chunks: seq<seq<Byte>>, i: nat)
    requires Settled(p) && i < |chunks|
    ensures var o := Feed(p, chunks[i]);
            FrameParser.Logged(log, FeedAll(p, chunks[i..]))
            == FrameParser.Logged(log + o.frames, FeedAll(o.parser, chunks[i + 1..]))
  {
    hide Feed;
    assert chunks[i..][0] == chunks[i] && chunks[i..][1..] == chunks[i + 1..];
  }

  lemma OneFrame(chunks: seq<seq<Byte>>)
    ensures forall kind, data :: Headed(Concat(chunks), kind, data) && |data| < 1048576 ==>
              FeedAll(FRESH, chunks).frames == [Frame(kind, data)]
  {
    hide Headed, FeedAll;
    forall kind, data | Headed(Concat(chunks), kind, data) && |data| < 1048576
      ensures FeedAll(FRESH, chunks).frames == [Frame(kind, data)]
    {
      WireDelivers(Concat(chunks), kind, data, chunks);
    }
  }

  /** What the socket's reads do to a fresh parser, until the connection ends.  If together they are one frame as it
      travels, the parser dispatches exactly that frame. */
  method ReadLoop(chunks: seq<seq<Byte>>) returns (parser: FrameParser)
    ensures fresh(parser) && parser.dispatched == FeedAll(FRESH, chunks).frames
    ensures forall kind, data :: Headed(Concat(chunks), kind, data) && |data| < 1048576 ==>
              parser.dispatched == [Frame(kind, data)]
  {
    hide Feed, Headed, Resume;
    parser := new FrameParser();
    ghost var all := FeedAll(FRESH, chunks);
    SettledIsIdle(FRESH);
    assert chunks[0..] == chunks;
    for i := 0 to |chunks|
      invariant fresh(parser) && parser.Valid() && Settled(parser.View())
      invariant all == FrameParser.Logged(parser.dispatched, FeedAll(parser.View(), chunks[i..]))
    {
      FeedNext(parser.View(), parser.dispatched, chunks, i);
      parser.FeedData(chunks[i]);
    }
    OneFrame(chunks);
  }
}
