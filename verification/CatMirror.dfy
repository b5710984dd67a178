/** The CAT path end to end: answers of one radio's CAT server, framed, sent through the frame parser
    and dispatched into another radio's state. */
module CatMirror {
  import opened Basics
  import opened Decimal
  import opened FrameFormat
  import opened RadioStates
  import opened CatServer

  // ----- Bytes and text -----

  /** Text of one-byte characters. */
  predicate Narrow(s: string)
  {
    forall c :: c in s ==> c < 256 as char
  }

  function ByteOf(s: string, i: nat): Byte
    requires Narrow(s) && i < |s|
  {
    assert s[i] in s;
    s[i] as int
  }

  function ToBytes(s: string): (b: seq<Byte>)
    requires Narrow(s)
    ensures |b| == |s| && forall i :: 0 <= i < |b| ==> b[i] == s[i] as int
  {
    seq(|s|, i requires 0 <= i < |s| => ByteOf(s, i))
  }

  function ToText(b: seq<Byte>): (s: string)
    ensures |s| == |b| && forall i :: 0 <= i < |s| ==> s[i] as int == b[i]
  {
    seq(|b|, i requires 0 <= i < |b| => b[i] as char)
  }

  lemma TextRoundTrip(s: string)
    requires Narrow(s)
    ensures ToText(ToBytes(s)) == s
  {}

  /** `encodeCat`: a command on its way to the radio arrives as it was sent, however its bytes are cut, exactly
      when it leaves room for the type byte. */
  lemma CatCommandRoundTrip(command: string, chunks: seq<seq<Byte>>)
    requires Narrow(command)
    requires Concat(chunks) == Encoded(Frame(TYPE_CAT_COMMAND, ToBytes(command)))
    ensures (exists f :: FeedAll(FRESH, chunks).frames == [f] && f.kind == 1 && ToText(f.data) == command)
       <==> |command| < MAX_FRAME_SIZE
  {
    var sent := Frame(TYPE_CAT_COMMAND, ToBytes(command));
    var frames := FeedAll(FRESH, chunks).frames;
    EncodeDecode(sent, chunks);
    TextRoundTrip(command);
    forall f | frames == [f] && f.kind == TYPE_CAT_COMMAND && ToText(f.data) == command ensures f == sent {
      BytesRoundTrip(f.data);
    }
    assert |command| < MAX_FRAME_SIZE ==> frames == [sent];
  }

  lemma BytesRoundTrip(b: seq<Byte>)
    ensures Narrow(ToText(b)) && ToBytes(ToText(b)) == b
  {
    forall c | c in ToText(b) ensures c < 256 as char {
      var i :| 0 <= i < |b| && ToText(b)[i] == c;
    }
  }

  // ----- Dispatch -----

  /** The engine's frame handler, as far as the modelled state goes: only CAT responses reach it. */
  function Dispatched(d: Radio, f: Frame): Radio
  {
    if f.kind == TYPE_CAT_RESPONSE then Obeyed(d, ToText(f.data)) else d
  }

  function DispatchedAll(d: Radio, frames: seq<Frame>): Radio
    decreases |frames|
  {
    if frames == [] then d else DispatchedAll(Dispatched(d, frames[0]), frames[1..])
  }

  /** The frames of one type, in order. */
  function OfType(frames: seq<Frame>, kind: int): seq<Frame>
  {
    if frames == [] then []
    else (if frames[0].kind == kind then [frames[0]] else []) + OfType(frames[1..], kind)
  }

  /** Frames of any type but 2, wherever they stand among the CAT responses, leave the state alone. */
  lemma {:induction false} OnlyResponsesMatter(d: Radio, frames: seq<Frame>)
    ensures DispatchedAll(d, frames) == DispatchedAll(d, OfType(frames, 2))
    decreases |frames|
  {
    if frames != [] {
      OnlyResponsesMatter(Dispatched(d, frames[0]), frames[1..]);
      if frames[0].kind == 2 {
        assert OfType(frames, 2)[0] == frames[0] && OfType(frames, 2)[1..] == OfType(frames[1..], 2);
      } else {
        assert OfType(frames, 2) == OfType(frames[1..], 2);
      }
    }
  }

  const QUERIES: seq<string> := ["FA;", "FB;", "MD;", "SM;", "TQ;", "PC;"]

  function Answer(d: Radio, i: nat): (s: string)
    requires i < |QUERIES|
  {
    HandleQuery(QUERIES[i], Some(d), true).text
  }

  function AnswerFrame(d: Radio, i: nat): Frame
    requires i < |QUERIES| && Narrow(Answer(d, i))
  {
    Frame(TYPE_CAT_RESPONSE, ToBytes(Answer(d, i)))
  }

  lemma AnswersByName(d: Radio)
    ensures Answer(d, 0) == FrequencyAnswer("FA", d.vfoA.frequency) && Answer(d, 1) == FrequencyAnswer("FB", d.vfoB.frequency)
    ensures Answer(d, 2) == ModeAnswer(d.vfoA.mode) && Answer(d, 3) == SmeterAnswer(d.vfoA.smeter)
    ensures Answer(d, 4) == (if d.tx.ptt then "TQ1;" else "TQ0;") && Answer(d, 5) == PowerAnswer(d.tx.power)
  {
    hide FrequencyAnswer, ModeAnswer, SmeterAnswer, PowerAnswer, StatusAnswer;
  }

  lemma PrintedIsNarrow(head: string, v: int, width: nat, size: nat)
    requires Narrow(head) && size >= 1
    ensures Narrow(Snprintf(head + ZeroPad(v, width) + ";", size))
    ensures |Snprintf(head + ZeroPad(v, width) + ";", size)| < size
  {
    forall c | c in ZeroPad(v, width) ensures c < 256 as char {}
  }

  lemma AnswersAreShort(d: Radio, i: nat)
    requires i < |QUERIES|
    ensures Narrow(Answer(d, i)) && |Answer(d, i)| < 20
  {
    AnswersByName(d);
    hide Answer, HandleQuery, ZeroPad, ModeToK4, Snprintf;
    if i == 0 {
      PrintedIsNarrow("FA", d.vfoA.frequency, 11, 20);
    } else if i == 1 {
      PrintedIsNarrow("FB", d.vfoB.frequency, 11, 20);
    } else if i == 2 {
      PrintedIsNarrow("MD", ModeToK4(d.vfoA.mode), 0, 8);
    } else if i == 3 {
      PrintedIsNarrow("SM0", d.vfoA.smeter, 4, 12);
    } else if i == 5 {
      PrintedIsNarrow("PC", d.tx.power, 3, 12);
    }
  }

  function AnswerFrames(d: Radio): (frames: seq<Frame>)
    ensures |frames| == 6 && forall i :: 0 <= i < 6 ==> |frames[i].data| < 20
  {
    seq(6, i requires 0 <= i < 6 => AnswersAreShort(d, i); AnswerFrame(d, i))
  }

  // ----- The mirror -----

  /** The values the C++ fields can hold. */
  predicate InRange(d: Radio)
  {
    IsInt64(d.vfoA.frequency) && IsInt64(d.vfoB.frequency) && IsInt32(d.vfoA.smeter) && IsInt32(d.tx.power)
  }

  predicate IsInt64(x: int)
  {
    -0x8000_0000_0000_0000 <= x < 0x8000_0000_0000_0000
  }

  predicate IsInt32(x: int)
  {
    -0x8000_0000 <= x < 0x8000_0000
  }

  predicate Agree(d: Radio, e: Radio)
  {
    d.vfoA.frequency == e.vfoA.frequency && d.vfoB.frequency == e.vfoB.frequency &&
    d.vfoA.mode == e.vfoA.mode && d.vfoA.smeter == e.vfoA.smeter &&
    d.tx.ptt == e.tx.ptt && d.tx.power == e.tx.power
  }

  /** Every value fits the buffer its answer is printed into, and the mode is a listed one. */
  predicate Expressible(d: Radio)
  {
    FrequencyFits(d.vfoA.frequency) && FrequencyFits(d.vfoB.frequency) &&
    0 <= d.vfoA.mode <= 7 && SmeterFits(d.vfoA.smeter) && PowerFits(d.tx.power)
  }

  lemma HearPtt(on: bool)
    ensures Interpret(if on then "TQ1;" else "TQ0;") == Some(Ptt(on))
  {
    assert Argument("TQ1;") == "1" && Argument("TQ0;") == "0";
  }

  /** The update each answer makes in whoever hears it. */
  lemma HeardUpdates(d: Radio) returns (fa: int, fb: int, m: int, sm: int, pc: int)
    requires InRange(d)
    ensures Interpret(Answer(d, 0)) == Some(Frequency(0, fa)) && (fa == d.vfoA.frequency <==> FrequencyFits(d.vfoA.frequency))
    ensures Interpret(Answer(d, 1)) == Some(Frequency(1, fb)) && (fb == d.vfoB.frequency <==> FrequencyFits(d.vfoB.frequency))
    ensures Interpret(Answer(d, 2)) == Some(Mode(0, m)) && 0 <= m <= 7 && (m == d.vfoA.mode <==> 0 <= d.vfoA.mode <= 7)
    ensures Interpret(Answer(d, 3)) == Some(Smeter(0, sm)) && (sm == d.vfoA.smeter <==> SmeterFits(d.vfoA.smeter))
    ensures Interpret(Answer(d, 4)) == Some(Ptt(d.tx.ptt))
    ensures Interpret(Answer(d, 5)) == Some(Power(pc)) && (pc == d.tx.power <==> PowerFits(d.tx.power))
  {
    AnswersByName(d);
    HearFrequency("FA", d.vfoA.frequency);
    fa := Interpret(Answer(d, 0)).value.hz;
    HearFrequency("FB", d.vfoB.frequency);
    fb := Interpret(Answer(d, 1)).value.hz;
    HearMode(d.vfoA.mode);
    m := Interpret(Answer(d, 2)).value.mode;
    HearSmeter(d.vfoA.smeter);
    sm := Interpret(Answer(d, 3)).value.level;
    HearPtt(d.tx.ptt);
    HearPower(d.tx.power);
    pc := Interpret(Answer(d, 5)).value.watts;
  }

  lemma DispatchAnswer(d: Radio, e: Radio, i: nat)
    requires i < |QUERIES|
    ensures Dispatched(e, AnswerFrames(d)[i]) == Obeyed(e, Answer(d, i))
  {
    AnswersAreShort(d, i);
    TextRoundTrip(Answer(d, i));
  }

  function ObeyedAll(e: Radio, texts: seq<string>): Radio
    decreases |texts|
  {
    if texts == [] then e else ObeyedAll(Obeyed(e, texts[0]), texts[1..])
  }

  function Answers(d: Radio): seq<string>
  {
    [Answer(d, 0), Answer(d, 1), Answer(d, 2), Answer(d, 3), Answer(d, 4), Answer(d, 5)]
  }

  lemma {:induction false} DispatchIsObedience(d: Radio, e: Radio, from: nat)
    requires from <= 6
    ensures DispatchedAll(e, AnswerFrames(d)[from..]) == ObeyedAll(e, Answers(d)[from..])
    decreases 6 - from
  {
    hide Interpret, Answer, AnswerFrame, Dispatched, Obeyed;
    if from < 6 {
      DispatchAnswer(d, e, from);
      assert Answers(d)[from] == Answer(d, from);
      assert AnswerFrames(d)[from..][1..] == AnswerFrames(d)[from + 1..];
      assert Answers(d)[from..][1..] == Answers(d)[from + 1..];
      DispatchIsObedience(d, Obeyed(e, Answer(d, from)), from + 1);
    }
  }

  function AppliedAll(e: Radio, updates: seq<Update>): Radio
    decreases |updates|
  {
    if updates == [] then e else AppliedAll(Applied(e, updates[0]), updates[1..])
  }

  lemma {:induction false} ObedienceApplies(e: Radio, texts: seq<string>, updates: seq<Update>)
    requires |texts| == |updates|
    requires forall i :: 0 <= i < |texts| ==> Interpret(texts[i]) == Some(updates[i])
    ensures ObeyedAll(e, texts) == AppliedAll(e, updates)
    decreases |texts|
  {
    if texts != [] {
      assert Obeyed(e, texts[0]) == Applied(e, updates[0]);
      ObedienceApplies(Applied(e, updates[0]), texts[1..], updates[1..]);
    }
  }

  lemma SixUpdates(e: Radio, fa: int, fb: int, m: int, sm: int, on: bool, pc: int)
    ensures var e' := AppliedAll(e, [Frequency(0, fa), Frequency(1, fb), Mode(0, m), Smeter(0, sm), Ptt(on), Power(pc)]);
            && e'.vfoA.frequency == fa && e'.vfoB.frequency == fb && e'.vfoA.mode == m && e'.vfoA.smeter == sm
            && e'.tx.ptt == on && e'.tx.power == pc
  {
    var u := [Frequency(0, fa), Frequency(1, fb), Mode(0, m), Smeter(0, sm), Ptt(on), Power(pc)];
    var e2 := Applied(Applied(e, u[0]), u[1]);
    var e4 := Applied(Applied(e2, u[2]), u[3]);
    assert u[1..][1..] == u[2..] && u[2..][1..] == u[3..] && u[3..][1..] == u[4..] && u[4..][1..] == u[5..] && u[5..][1..] == [];
    assert AppliedAll(e, u) == AppliedAll(e2, u[2..]) == AppliedAll(e4, u[4..]);
    assert AppliedAll(e4, u[4..]) == AppliedAll(Applied(Applied(e4, u[4]), u[5]), []);
  }

  /** Value by value: what a radio hears from the answers is right exactly when the value fits its answer. */
  lemma HearEach(d: Radio, e: Radio)
    requires InRange(d)
    ensures var h := ObeyedAll(e, Answers(d));
            && (h.vfoA.frequency == d.vfoA.frequency <==> FrequencyFits(d.vfoA.frequency))
            && (h.vfoB.frequency == d.vfoB.frequency <==> FrequencyFits(d.vfoB.frequency))
            && (h.vfoA.mode == d.vfoA.mode <==> 0 <= d.vfoA.mode <= 7) && 0 <= h.vfoA.mode <= 7
            && (h.vfoA.smeter == d.vfoA.smeter <==> SmeterFits(d.vfoA.smeter))
            && h.tx.ptt == d.tx.ptt
            && (h.tx.power == d.tx.power <==> PowerFits(d.tx.power))
  {
    hide Interpret, Answer, ObeyedAll, AppliedAll, FrequencyFits, SmeterFits, PowerFits;
    var fa, fb, m, sm, pc := HeardUpdates(d);
    SixUpdates(e, fa, fb, m, sm, d.tx.ptt, pc);
    ObedienceApplies(e, Answers(d), [Frequency(0, fa), Frequency(1, fb), Mode(0, m), Smeter(0, sm), Ptt(d.tx.ptt), Power(pc)]);
  }

  /** The framed answers, through any noise and any chunking that does not overflow, are obeyed one by one. */
  lemma AnswersArrive(d: Radio, e: Radio, gaps: seq<seq<Byte>>, trailers: seq<seq<Byte>>, end: seq<Byte>, chunks: seq<seq<Byte>>)
    requires |gaps| == |trailers| == 6
    requires forall i :: 0 <= i < 6 ==> MarkerFree(gaps[i]) && |trailers[i]| == 4
    requires MarkerFree(end) && NeverOverflows(FRESH, chunks)
    requires Concat(chunks) == Noisy(AnswerFrames(d), gaps, trailers, end)
    ensures DispatchedAll(e, FeedAll(FRESH, chunks).frames) == ObeyedAll(e, Answers(d))
  {
    NoisyRoundTrip(AnswerFrames(d), gaps, trailers, end, chunks);
    DispatchIsObedience(d, e, 0);
    assert AnswerFrames(d)[0..] == AnswerFrames(d) && Answers(d)[0..] == Answers(d);
  }

  /** Answers to the six queries, with any noise between the frames, any trailers and any chunking, make any
      other radio agree on both frequencies, VFO A's mode and S-meter, PTT and power, exactly when every
      value can be expressed in its answer. */
  lemma EndToEndMirror(d: Radio, e: Radio, gaps: seq<seq<Byte>>, trailers: seq<seq<Byte>>, end: seq<Byte>, chunks: seq<seq<Byte>>)
    requires InRange(d)
    requires |gaps| == |trailers| == 6
    requires forall i :: 0 <= i < 6 ==> MarkerFree(gaps[i]) && |trailers[i]| == 4
    requires MarkerFree(end) && NeverOverflows(FRESH, chunks)
    requires Concat(chunks) == Noisy(AnswerFrames(d), gaps, trailers, end)
    ensures Agree(d, DispatchedAll(e, FeedAll(FRESH, chunks).frames)) <==> Expressible(d)
  {
    hide Noisy, AnswerFrames, Answers, FeedAll, ObeyedAll, DispatchedAll;
    AnswersArrive(d, e, gaps, trailers, end, chunks);
    HearEach(d, e);
  }
}
