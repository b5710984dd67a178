/** The CAT server: splitting a client's byte stream into commands, and answering them. */
module CatServer {
  import opened Basics
  import opened Decimal
  import opened RadioStates

  const MAX_CMD_LENGTH: nat := 256
  const MAX_PENDING: nat := MAX_CMD_LENGTH * 4

  // ----- Answering -----

  datatype Reply =
    | Text(text: string)
    | Forwarded(command: string)  // handed to the radio, no answer

  /** `modeMap`, with LSB for a mode outside the table. */
  function ModeToK4(mode: int): (k4: int)
    ensures 0 <= mode <= 7 ==> K4ToMode(k4) == Some(mode)
    ensures !(0 <= mode <= 7) ==> K4ToMode(k4) == Some(0)
  {
    if 0 <= mode <= 7 then [1, 2, 3, 7, 6, 9, 5, 4][mode] else 1
  }

  function FrequencyAnswer(prefix: string, hz: int): string
  {
    Snprintf(prefix + ZeroPad(hz, 11) + ";", 20)
  }

  function ModeAnswer(mode: int): string
  {
    Snprintf("MD" + Signed(ModeToK4(mode)) + ";", 8)
  }

  function SmeterAnswer(level: int): string
  {
    Snprintf("SM0" + ZeroPad(level, 4) + ";", 12)
  }

  function PowerAnswer(watts: int): string
  {
    Snprintf("PC" + ZeroPad(watts, 3) + ";", 12)
  }

  /** The status report: VFO A's frequency and tuning rate, three fixed zeros, PTT, the mode plus one, six zeros. */
  function StatusAnswer(d: Radio): string
  {
    Snprintf("IF" + ZeroPad(d.vfoA.frequency, 11) + "     " + StatusTail(d), 48)
  }

  function PttDigit(d: Radio): (digit: nat)
    ensures digit <= 1
  {
    if d.tx.ptt then 1 else 0
  }

  function StatusTail(d: Radio): string
  {
    ZeroPad(d.vfoA.tuningRate, 5) + "000" + ZeroPad(PttDigit(d), 2) + Signed(d.vfoA.mode + 1) + "000000;"
  }

  /** The answer to one command; `radio` holds what the command's reads of the radio state return. */
  function HandleQuery(command: string, radio: Option<Radio>, canForward: bool): Reply
  {
    if |command| < 3 then Text("?;\r\n")
    else if radio.None? then Text("?N;\r\n")
    else
      var d := radio.value;
      var isQuery := |command| == 3 && command[2] == ';';
      if isQuery && StartsWith(command, 'F', 'A') then Text(FrequencyAnswer("FA", d.vfoA.frequency))
      else if isQuery && StartsWith(command, 'F', 'B') then Text(FrequencyAnswer("FB", d.vfoB.frequency))
      else if isQuery && StartsWith(command, 'M', 'D') then Text(ModeAnswer(d.vfoA.mode))
      else if isQuery && StartsWith(command, 'S', 'M') then Text(SmeterAnswer(d.vfoA.smeter))
      else if isQuery && StartsWith(command, 'T', 'Q') then Text(if d.tx.ptt then "TQ1;" else "TQ0;")
      else if isQuery && StartsWith(command, 'P', 'C') then Text(PowerAnswer(d.tx.power))
      else if isQuery && StartsWith(command, 'I', 'F') then Text(StatusAnswer(d))
      else if canForward then Forwarded(command)
      else Text("?;\r\n")
  }

  /** With a radio state present, the six value queries and IF are answered locally; every other command of at
      least three characters goes to the radio as it is, or draws an error when there is no way to send it. */
  lemma WhoAnswers(command: string, d: Radio, canForward: bool)
    requires |command| >= 3
    ensures var r := HandleQuery(command, Some(d), canForward);
            if IsQuery(command) then r.Text? && r.text[..2] == command[..2]
            else r == if canForward then Forwarded(command) else Text("?;\r\n")
  {
    if |command| == 3 {
      assert command == [command[0], command[1], command[2]];
      if IsQuery(command) { AnswerNamesQuery(command, d, canForward); }
    }
  }

  lemma AnswerNamesQuery(command: string, d: Radio, canForward: bool)
    requires IsQuery(command)
    ensures var r := HandleQuery(command, Some(d), canForward); r.Text? && |r.text| >= 2 && r.text[..2] == command[..2]
  {
    hide FrequencyAnswer, ModeAnswer, SmeterAnswer, PowerAnswer, StatusAnswer;
    AnswerPrefixes(d);
  }

  lemma AnswerPrefixes(d: Radio)
    ensures forall prefix: string, hz: int :: |prefix| == 2 ==> Heads(FrequencyAnswer(prefix, hz), prefix)
    ensures Heads(ModeAnswer(d.vfoA.mode), "MD") && Heads(SmeterAnswer(d.vfoA.smeter), "SM")
    ensures Heads(PowerAnswer(d.tx.power), "PC") && Heads(StatusAnswer(d), "IF")
  {
    hide ZeroPad, Signed, ModeToK4, StatusTail;
  }

  predicate Heads(text: string, prefix: string)
    requires |prefix| == 2
  {
    |text| >= 2 && text[..2] == prefix
  }

  predicate IsQuery(command: string)
  {
    command in [['F', 'A', ';'], ['F', 'B', ';'], ['M', 'D', ';'], ['S', 'M', ';'],
                ['T', 'Q', ';'], ['P', 'C', ';'], ['I', 'F', ';']]
  }

  /** `%d` */
  function Signed(v: int): string
  {
    ZeroPad(v, 0)
  }

  /** The two mode tables are inverse: a K4 number is accepted exactly when it is some mode's number. */
  lemma ModeTables(k4: int)
    ensures K4ToMode(k4).Some? ==> ModeToK4(K4ToMode(k4).value) == k4
    ensures K4ToMode(k4).Some? <==> k4 in [1, 2, 3, 7, 6, 9, 5, 4]
  {}

  // ----- What an answer tells a radio that hears it -----

  /** `head` + number + ";" in a buffer that leaves `room` characters for number and semicolon. */
  lemma AnswerArgument(head: string, number: string, room: nat)
    requires |head| >= 2 && number != [] && (forall c :: c in number ==> c != ';')
    requires room >= 1
    ensures var text := Snprintf(head + number + ";", |head| + room + 1);
            && StartsWith(text, head[0], head[1])
            && Argument(text) == head[2..] + (if |number| <= room then number else number[..room])
  {
    var full := head + number + ";";
    var text := Snprintf(full, |head| + room + 1);
    if |number| < room {
      assert text == full && text[2..] == head[2..] + number + ";";
      assert (head[2..] + number + ";")[..|full| - 3] == head[2..] + number;
    } else {
      var kept := number[..room];
      assert text == head + kept && text[2..] == head[2..] + kept;
      assert text[|text| - 1] == kept[room - 1];
      assert kept[room - 1] in number;
      assert |number| == room ==> kept == number;
    }
  }

  lemma PaddedHasNoSemicolon(v: int, width: nat)
    ensures forall c :: c in ZeroPad(v, width) ==> c != ';'
    ensures |ZeroPad(v, width)| >= width && ZeroPad(v, width) != []
  {}

  predicate FrequencyFits(hz: int)
  {
    -10_000_000_000_000_000 < hz < 100_000_000_000_000_000
  }

  predicate SmeterFits(level: int)
  {
    -10_000_000 < level < 100_000_000
  }

  predicate PowerFits(watts: int)
  {
    -100_000_000 < watts < 1_000_000_000
  }

  lemma PowersOf10()
    ensures Pow10(7) == 10_000_000 && Pow10(8) == 100_000_000 && Pow10(9) == 1_000_000_000
    ensures Pow10(16) == 10_000_000_000_000_000 && Pow10(17) == 100_000_000_000_000_000
    ensures Pow10(4) == 10_000 && Pow10(5) == 100_000
    ensures Pow10(10) == 10_000_000_000 && Pow10(11) == 100_000_000_000
  {
    assert Pow10(4) == 10_000;
    assert Pow10(8) == 100_000_000;
    assert Pow10(12) == 1_000_000_000_000;
    assert Pow10(16) == 10_000_000_000_000_000;
  }

  /** A padded number that went through an answer buffer with room for m characters. */
  function Heard(v: int, width: nat, m: nat): string
  {
    if |ZeroPad(v, width)| <= m then ZeroPad(v, width) else ZeroPad(v, width)[..m]
  }

  lemma HeardValue(v: int, width: nat, m: nat, low: int, high: int)
    requires low <= v <= high && low <= 0 <= high && 2 <= width <= m
    ensures |Heard(v, width, m)| >= width
    ensures ParseInt(Heard(v, width, m), low, high).Some?
    ensures ParseInt(Heard(v, width, m), low, high) == Some(v) <==> -(Pow10(m - 1) as int) < v < Pow10(m)
  {
    PaddedHasNoSemicolon(v, width);
    PaddedFits(v, width, m);
    if |ZeroPad(v, width)| <= m {
      ParsePadded(v, width, low, high);
    } else {
      ParseCut(v, width, m, low, high);
    }
  }

  /** The answer sets the listener's frequency, to the same value exactly when it fits the answer buffer. */
  lemma HearFrequency(prefix: string, hz: Int64)
    requires prefix == "FA" || prefix == "FB"
    ensures var u := Interpret(FrequencyAnswer(prefix, hz));
            && u.Some? && u.value.Frequency? && u.value.vfo == (if prefix == "FA" then 0 else 1)
            && (u.value.hz == hz <==> FrequencyFits(hz))
  {
    hide ZeroPad, ParseInt, Argument, Pow10, Interpret;
    PaddedHasNoSemicolon(hz, 11);
    AnswerArgument(prefix, ZeroPad(hz, 11), 17);
    assert Argument(FrequencyAnswer(prefix, hz)) == Heard(hz, 11, 17);
    HeardValue(hz, 11, 17, -0x8000_0000_0000_0000, 0x7FFF_FFFF_FFFF_FFFF);
    PowersOf10();
    InterpretFrequency(prefix, FrequencyAnswer(prefix, hz), Heard(hz, 11, 17));
  }

  lemma InterpretFrequency(prefix: string, text: string, argument: string)
    requires prefix == "FA" || prefix == "FB"
    requires StartsWith(text, prefix[0], prefix[1]) && Argument(text) == argument && |argument| >= 11
    requires Stoll(argument).Some?
    ensures Interpret(text) == Some(Frequency(if prefix == "FA" then 0 else 1, Stoll(argument).value))
  {}

  lemma HearSmeter(level: Int32)
    ensures var u := Interpret(SmeterAnswer(level));
            && u.Some? && u.value.Smeter? && u.value.vfo == 0
            && (u.value.level == level <==> SmeterFits(level))
  {
    hide ZeroPad, ParseInt, Argument, Pow10;
    PaddedHasNoSemicolon(level, 4);
    AnswerArgument("SM0", ZeroPad(level, 4), 8);
    var argument := Heard(level, 4, 8);
    assert "SM0"[2..] == "0" && ("0" + argument)[1..] == argument;
    HeardValue(level, 4, 8, -0x8000_0000, 0x7FFF_FFFF);
    PowersOf10();
  }

  lemma HearPower(watts: Int32)
    ensures var u := Interpret(PowerAnswer(watts));
            && u.Some? && u.value.Power?
            && (u.value.watts == watts <==> PowerFits(watts))
  {
    hide ZeroPad, ParseInt, Argument, Pow10;
    PaddedHasNoSemicolon(watts, 3);
    AnswerArgument("PC", ZeroPad(watts, 3), 9);
    var argument := Heard(watts, 3, 9);
    assert "PC"[2..] + argument == argument;
    HeardValue(watts, 3, 9, -0x8000_0000, 0x7FFF_FFFF);
    PowersOf10();
  }

  lemma HearMode(mode: int)
    ensures Interpret(ModeAnswer(mode)) == Some(Mode(0, if 0 <= mode <= 7 then mode else 0))
  {
    ModeText(ModeToK4(mode));
    InterpretMode(Digit(ModeToK4(mode)));
  }

  lemma ModeText(k4: nat)
    requires k4 < 10
    ensures Snprintf("MD" + Signed(k4) + ";", 8) == ['M', 'D', Digit(k4), ';']
  {
    assert Signed(k4) == [Digit(k4)];
    hide Signed;
    assert "MD" + [Digit(k4)] + ";" == ['M', 'D', Digit(k4), ';'];
  }

  lemma InterpretMode(c: char)
    requires IsDigit(c) && K4ToMode(DigitValue(c)).Some?
    ensures Interpret(['M', 'D', c, ';']) == Some(Mode(0, K4ToMode(DigitValue(c)).value))
  {
    assert Argument(['M', 'D', c, ';']) == [c];
    hide Argument;
    assert Value([c]) == DigitValue(c) && Sign(false) + [c] == [c];
    hide Value;
    ParseSigned(false, [c], -0x8000_0000, 0x7FFF_FFFF);
    hide ParseInt;
  }

  // ----- The answers, character by character -----

  /** A frequency answer names the VFO, gives eleven digits and ends with a semicolon. */
  lemma FrequencyAnswerText(prefix: string, hz: nat)
    requires |prefix| == 2 && hz < 100_000_000_000
    ensures var text := FrequencyAnswer(prefix, hz);
            |text| == 14 && text[..2] == prefix && DecimalText(text[2..13], hz) && text[13] == ';'
  {
    hide ZeroPad, Pow10, DecimalText;
    PowersOf10();
    PaddedDigits(hz, 11);
    TextParts(prefix, ZeroPad(hz, 11));
  }

  /** The S-meter answer names VFO 0 and gives four digits. */
  lemma SmeterAnswerText(level: nat)
    requires level < 10_000
    ensures var text := SmeterAnswer(level);
            |text| == 8 && text[..3] == "SM0" && DecimalText(text[3..7], level) && text[7] == ';'
  {
    hide ZeroPad, Pow10, DecimalText;
    PowersOf10();
    PaddedDigits(level, 4);
    TextParts("SM0", ZeroPad(level, 4));
  }

  /** The power answer gives three digits. */
  lemma PowerAnswerText(watts: nat)
    requires watts < 1_000
    ensures var text := PowerAnswer(watts);
            |text| == 6 && text[..2] == "PC" && DecimalText(text[2..5], watts) && text[5] == ';'
  {
    assert Pow10(3) == 1_000;
    hide ZeroPad, Pow10, DecimalText;
    PaddedDigits(watts, 3);
    TextParts("PC", ZeroPad(watts, 3));
  }

  lemma TextParts(head: string, number: string)
    ensures var text := head + number + ";";
            text[..|head|] == head && text[|head|..|head| + |number|] == number && text[|head| + |number|] == ';'
  {}

  /** The mode answers. */
  lemma ModeAnswerTexts(mode: int)
    ensures ModeAnswer(0) == "MD1;" && ModeAnswer(1) == "MD2;" && ModeAnswer(2) == "MD3;" && ModeAnswer(3) == "MD7;"
    ensures ModeAnswer(4) == "MD6;" && ModeAnswer(5) == "MD9;" && ModeAnswer(6) == "MD5;" && ModeAnswer(7) == "MD4;"
    ensures !(0 <= mode <= 7) ==> ModeAnswer(mode) == "MD1;"
  {
    hide ZeroPad, Signed, Snprintf;
    ModeText(1);
    ModeText(2);
    ModeText(3);
    ModeText(4);
    ModeText(5);
    ModeText(6);
    ModeText(7);
    ModeText(9);
  }

  // ----- The status report -----

  /** A radio that hears a status report ignores it. */
  lemma StatusIsIgnored(d: Radio)
    ensures Interpret(StatusAnswer(d)) == None
  {
    var text := StatusAnswer(d);
    hide ZeroPad, StatusTail, Argument, ParseInt;
    assert text[0] == 'I' && text[1] == 'F';
    hide StatusAnswer;
  }

  /** Every value takes no more than its usual width. */
  predicate StatusFits(d: Radio)
  {
    -10_000_000_000 < d.vfoA.frequency < 100_000_000_000 && -10_000 < d.vfoA.tuningRate < 100_000 && -1 <= d.vfoA.mode <= 8
  }

  /** The report has its usual 36 characters exactly when every value keeps to its width.  Then frequency and rate
      read back from their places, and PTT and mode stand at theirs. */
  lemma StatusFields(d: Radio)
    ensures |StatusAnswer(d)| == 36 <==> StatusFits(d)
    ensures StatusFits(d) ==>
              var text := StatusAnswer(d);
              && Stoll(text[2..13]) == Some(d.vfoA.frequency)
              && Stoi(text[18..23]) == Some(d.vfoA.tuningRate)
              && text[27] == (if d.tx.ptt then '1' else '0')
              && text[28] == Digit(d.vfoA.mode + 1)
              && text[..2] == "IF" && text[13..18] == "     " && text[23..27] == "0000" && text[29..] == "000000;"
  {
    var f, r, p, m := d.vfoA.frequency, d.vfoA.tuningRate, PttDigit(d), d.vfoA.mode + 1;
    hide ZeroPad, ParseInt, Pow10, Digit, Signed, Snprintf, PttDigit;
    PowersOf10();
    PaddedWidth(f, 11);
    PaddedWidth(r, 5);
    SignedWidth(m);
    OneDigit(p);
    StatusLength(ZeroPad(f, 11), ZeroPad(r, 5), ZeroPad(p, 2), Signed(m));
    if StatusFits(d) {
      ParsePadded(f, 11, -0x8000_0000_0000_0000, 0x7FFF_FFFF_FFFF_FFFF);
      ParsePadded(r, 5, -0x8000_0000, 0x7FFF_FFFF);
      OneDigit(m);
      StatusLayout(ZeroPad(f, 11), ZeroPad(r, 5), ZeroPad(p, 2), Signed(m));
      assert StatusAnswer(d)[26..28][0] == '0' && StatusAnswer(d)[26..28][1] == Digit(p);
      PttText(d);
      assert StatusAnswer(d)[23..27] == StatusAnswer(d)[23..26] + [StatusAnswer(d)[26]];
    }
  }

  lemma PttText(d: Radio)
    ensures Digit(PttDigit(d)) == if d.tx.ptt then '1' else '0'
  {}

  /** Whatever the other values, the frequency's place holds the frequency exactly when it keeps to its width. */
  lemma StatusFrequency(d: Radio)
    requires -0x8000_0000_0000_0000 <= d.vfoA.frequency < 0x8000_0000_0000_0000
    ensures |StatusAnswer(d)| >= 13
    ensures Stoll(StatusAnswer(d)[2..13]) == Some(d.vfoA.frequency)
       <==> -10_000_000_000 < d.vfoA.frequency < 100_000_000_000
  {
    hide ZeroPad, ParseInt, Pow10, StatusTail, Snprintf;
    var f := ZeroPad(d.vfoA.frequency, 11);
    PaddedHasNoSemicolon(d.vfoA.frequency, 11);
    PowersOf10();
    HeardValue(d.vfoA.frequency, 11, 11, -0x8000_0000_0000_0000, 0x7FFF_FFFF_FFFF_FFFF);
    StatusStart(f, StatusTail(d));
    assert Heard(d.vfoA.frequency, 11, 11) == f[..11];
  }

  lemma StatusStart(f: string, tail: string)
    requires |f| >= 11
    ensures var text := Snprintf("IF" + f + "     " + tail, 48);
            |text| >= 13 && text[2..13] == f[..11]
  {}

  lemma StatusLength(f: string, r: string, p: string, m: string)
    requires |f| >= 11 && |r| >= 5 && |p| == 2 && |m| >= 1
    ensures |Snprintf("IF" + f + "     " + (r + "000" + p + m + "000000;"), 48)| == 36
       <==> |f| == 11 && |r| == 5 && |m| == 1
  {}

  lemma StatusLayout(f: string, r: string, p: string, m: string)
    requires |f| == 11 && |r| == 5 && |p| == 2 && |m| == 1
    ensures var text := Snprintf("IF" + f + "     " + (r + "000" + p + m + "000000;"), 48);
            && |text| == 36 && text[2..13] == f && text[18..23] == r && text[26..28] == p && text[28] == m[0]
            && text[..2] == "IF" && text[13..18] == "     " && text[23..26] == "000" && text[29..] == "000000;"
  {}

  lemma PaddedWidth(v: int, width: nat)
    requires width >= 2
    ensures |ZeroPad(v, width)| >= width
    ensures |ZeroPad(v, width)| == width <==> -(Pow10(width - 1) as int) < v < Pow10(width)
  {
    PaddedHasNoSemicolon(v, width);
    PaddedFits(v, width, width);
  }

  lemma SignedWidth(v: int)
    ensures |Signed(v)| >= 1
    ensures |Signed(v)| == 1 <==> 0 <= v <= 9
  {
    DigitsLength(Abs(v), 1);
    assert Pow10(1) == 10;
  }

  lemma OneDigit(v: nat)
    requires v < 10
    ensures Signed(v) == [Digit(v)]
    ensures ZeroPad(v, 2) == ['0', Digit(v)]
  {
    assert Digits(v) == [Digit(v)];
  }

  lemma SignedInjective(a: int, b: int)
    ensures Signed(a) == Signed(b) <==> a == b
  {
    hide ZeroPad, ParseInt;
    var high := if a < b then b else a;
    ParsePadded(a, 0, Min(a, b), high);
    ParsePadded(b, 0, Min(a, b), high);
  }

  lemma ModeNumber(mode: int)
    ensures mode + 1 == ModeToK4(mode) <==> 0 <= mode <= 2
    ensures 0 <= ModeToK4(mode) < 10
  {}

  /** The report numbers the mode in a way of its own: its number is the one of the mode answer for LSB, USB and CW
      only, and in a report of the usual width so is the character at the mode's place. */
  lemma StatusModeDiffers(d: Radio)
    ensures Signed(d.vfoA.mode + 1) == Signed(ModeToK4(d.vfoA.mode)) <==> 0 <= d.vfoA.mode <= 2
    ensures |ModeAnswer(d.vfoA.mode)| == 4
    ensures |StatusAnswer(d)| == 36 ==> (StatusAnswer(d)[28] == ModeAnswer(d.vfoA.mode)[2] <==> 0 <= d.vfoA.mode <= 2)
  {
    hide StatusAnswer, ModeToK4, ZeroPad, Signed, ParseInt;
    var m := d.vfoA.mode;
    StatusFields(d);
    ModeNumber(m);
    ModeText(ModeToK4(m));
    SignedInjective(m + 1, ModeToK4(m));
  }

  // ----- Splitting the stream -----

  datatype Lines = Lines(commands: seq<string>, rest: string)

  const NOTHING := Lines([], "")

  /** One more character: a semicolon completes a command and belongs to it. */
  function Push(l: Lines, c: char): Lines
  {
    if c == ';' then Lines(l.commands + [l.rest + [c]], "") else l.(rest := l.rest + [c])
  }

  function PushAll(l: Lines, s: string): Lines
  {
    if s == [] then l else Push(PushAll(l, s[..|s| - 1]), s[|s| - 1])
  }

  /** The commands in a stream and the unfinished one at its end, character by character. */
  function Split(s: string): Lines
  {
    PushAll(NOTHING, s)
  }

  lemma {:induction false} PushAppend(l: Lines, s: string, more: string)
    ensures PushAll(l, s + more) == PushAll(PushAll(l, s), more)
    decreases |more|
  {
    if more == [] {
      assert s + more == s;
    } else {
      assert (s + more)[..|s + more| - 1] == s + more[..|more| - 1];
      PushAppend(l, s, more[..|more| - 1]);
    }
  }

  function After(commands: seq<string>, l: Lines): Lines
  {
    Lines(commands + l.commands, l.rest)
  }

  lemma AfterAfter(commands: seq<string>, command: string, l: Lines)
    ensures After(commands, After([command], l)) == After(commands + [command], l)
  {}

  lemma {:induction false} PushAfter(commands: seq<string>, l: Lines, s: string)
    ensures PushAll(After(commands, l), s) == After(commands, PushAll(l, s))
  {
    if s != [] {
      PushAfter(commands, l, s[..|s| - 1]);
    }
  }

  lemma {:induction false} NoSemicolon(s: string)
    requires ';' !in s
    ensures Split(s) == Lines([], s)
  {
    if s != [] {
      NoSemicolon(s[..|s| - 1]);
      assert s == s[..|s| - 1] + [s[|s| - 1]] && s[|s| - 1] in s;
    }
  }

  /** Feeding more is splitting what was unfinished with it. */
  lemma SplitAppend(s: string, more: string)
    requires ';' !in Split(s).rest
    ensures Split(s + more) == After(Split(s).commands, Split(Split(s).rest + more))
  {
    var l := Split(s);
    PushAppend(NOTHING, s, more);
    NoSemicolon(l.rest);
    PushAppend(NOTHING, l.rest, more);
    PushAfter(l.commands, Lines([], l.rest), more);
    assert l == After(l.commands, Lines([], l.rest));
  }

  lemma {:induction false} RestIsUnfinished(s: string)
    ensures ';' !in Split(s).rest
    ensures |Split(s).rest| <= |s| && Split(s).rest == s[|s| - |Split(s).rest|..]
  {
    if s != [] {
      hide Split;
      var front, c := s[..|s| - 1], s[|s| - 1];
      RestIsUnfinished(front);
      SplitStep(s);
      var r := Split(front).rest;
      assert s == front + [c];
      assert s[|s| - |r| - 1..] == r + [c];
    }
  }

  lemma SplitStep(s: string)
    requires s != []
    ensures Split(s) == Push(Split(s[..|s| - 1]), s[|s| - 1])
  {}

  /** Taking off the first command, as the search for a semicolon does. */
  lemma SplitFirst(s: string, i: nat)
    requires i < |s| && s[i] == ';' && ';' !in s[..i]
    ensures Split(s) == After([s[..i + 1]], Split(s[i + 1..]))
  {
    var c := s[..i + 1];
    NoSemicolon(s[..i]);
    assert c[..|c| - 1] == s[..i] && s[..i] + [';'] == c;
    assert Split(c) == After([c], NOTHING);
    PushAppend(NOTHING, c, s[i + 1..]);
    assert s == c + s[i + 1..];
    PushAfter([c], NOTHING, s[i + 1..]);
  }

  /** One receive: the unfinished command may be dropped when it grows too long. */
  function Receive(pending: string, chunk: string): (l: Lines)
    ensures ';' !in l.rest && |l.rest| <= MAX_PENDING
  {
    RestIsUnfinished(pending + chunk);
    var l := Split(pending + chunk);
    if |l.rest| > MAX_PENDING then Lines(l.commands, "") else l
  }

  function ReceiveAll(pending: string, chunks: seq<string>): Lines
    decreases |chunks|
  {
    if chunks == [] then Lines([], pending)
    else
      var first := Receive(pending, chunks[0]);
      var rest := ReceiveAll(first.rest, chunks[1..]);
      Lines(first.commands + rest.commands, rest.rest)
  }

  /** No stretch of the stream without a semicolon is longer than the limit. */
  ghost predicate ShortRuns(s: string)
  {
    forall i, j :: 0 <= i <= j <= |s| && ';' !in s[i..j] ==> j - i <= MAX_PENDING
  }

  lemma ShortRunsRest(s: string, more: string)
    requires ShortRuns(s + more)
    ensures ShortRuns(Split(s).rest + more) && |Split(s).rest| <= MAX_PENDING
  {
    RestIsUnfinished(s);
    var cut := |s| - |Split(s).rest|;
    var t := Split(s).rest + more;
    assert t == (s + more)[cut..];
    forall i, j | 0 <= i <= j <= |t| && ';' !in t[i..j] ensures j - i <= MAX_PENDING {
      assert t[i..j] == (s + more)[cut + i..cut + j];
    }
    assert (s + more)[cut..|s|] == Split(s).rest;
  }

  /** If no unfinished command grows too long, the chunk boundaries are unobservable. */
  lemma {:induction false} SplittingIgnoresChunks(pending: string, chunks: seq<string>)
    requires ';' !in pending && ShortRuns(pending + Concat(chunks))
    ensures ReceiveAll(pending, chunks) == Split(pending + Concat(chunks))
    decreases |chunks|
  {
    if chunks == [] {
      assert pending + "" == pending;
      NoSemicolon(pending);
    } else {
      var s, rest := pending + chunks[0], Concat(chunks[1..]);
      assert pending + Concat(chunks) == s + rest;
      ShortRunsRest(s, rest);
      RestIsUnfinished(s);
      SplitAppend(s, rest);
      SplittingIgnoresChunks(Split(s).rest, chunks[1..]);
    }
  }

  /** Cutting a stream at its semicolons loses nothing and cuts nowhere else. */
  lemma {:induction false} SplitRejoins(s: string)
    ensures Concat(Split(s).commands) + Split(s).rest == s
    ensures forall c :: c in Split(s).commands ==> c != [] && c[|c| - 1] == ';' && ';' !in c[..|c| - 1]
  {
    if s != [] {
      var l, c := Split(s[..|s| - 1]), s[|s| - 1];
      SplitRejoins(s[..|s| - 1]);
      RestIsUnfinished(s[..|s| - 1]);
      assert s == s[..|s| - 1] + [c];
      if c == ';' {
        ConcatOfBoth(l.commands, [l.rest + [c]]);
        assert Concat([l.rest + [c]]) == l.rest + [c];
      }
    }
  }

  lemma {:induction false} ConcatOfBoth(a: seq<string>, b: seq<string>)
    ensures Concat(a + b) == Concat(a) + Concat(b)
  {
    if a == [] {
      assert a + b == b;
    } else {
      assert (a + b)[1..] == a[1..] + b;
      ConcatOfBoth(a[1..], b);
    }
  }

  // ----- When chunks can be observed -----

  /** Number of characters in the commands and in the rest. */
  function Size(l: Lines): nat
  {
    |Concat(l.commands)| + |l.rest|
  }

  lemma SplitSize(s: string)
    ensures Size(Split(s)) == |s|
  {
    SplitRejoins(s);
  }

  lemma ReceiveShrinks(pending: string, chunk: string)
    ensures Size(Receive(pending, chunk)) <= |pending| + |chunk|
    ensures Size(Receive(pending, chunk)) == |pending| + |chunk| ==> Receive(pending, chunk) == Split(pending + chunk)
  {
    SplitSize(pending + chunk);
  }

  /** Receiving never invents characters, and if it loses none it has split the whole stream. */
  lemma {:induction false} LosslessIsSplit(pending: string, chunks: seq<string>)
    requires ';' !in pending
    ensures Size(ReceiveAll(pending, chunks)) <= |pending| + |Concat(chunks)|
    ensures Size(ReceiveAll(pending, chunks)) == |pending| + |Concat(chunks)|
        ==> ReceiveAll(pending, chunks) == Split(pending + Concat(chunks))
    decreases |chunks|
  {
    if chunks == [] {
      assert pending + "" == pending;
      NoSemicolon(pending);
    } else {
      hide Split, Receive;
      var s, rest, first := pending + chunks[0], Concat(chunks[1..]), Receive(pending, chunks[0]);
      ReceiveShrinks(pending, chunks[0]);
      LosslessIsSplit(first.rest, chunks[1..]);
      ConcatOfBoth(first.commands, ReceiveAll(first.rest, chunks[1..]).commands);
      assert pending + Concat(chunks) == s + rest;
      RestIsUnfinished(s);
      SplitAppend(s, rest);
    }
  }

  lemma {:induction false} ReceiveBoth(pending: string, a: seq<string>, b: seq<string>)
    ensures var first := ReceiveAll(pending, a);
            ReceiveAll(pending, a + b) == After(first.commands, ReceiveAll(first.rest, b))
    decreases |a|
  {
    hide Receive;
    if a == [] {
      assert a + b == b;
    } else {
      assert (a + b)[1..] == a[1..] + b;
      ReceiveBoth(Receive(pending, a[0]).rest, a[1..], b);
    }
  }

  lemma {:induction false} RestIsShort(pending: string, chunks: seq<string>)
    requires ';' !in pending && |pending| <= MAX_PENDING
    ensures ';' !in ReceiveAll(pending, chunks).rest && |ReceiveAll(pending, chunks).rest| <= MAX_PENDING
    decreases |chunks|
  {
    hide Receive;
    if chunks != [] { RestIsShort(Receive(pending, chunks[0]).rest, chunks[1..]); }
  }

  lemma {:induction false} RestIsMaximal(s: string, i: nat)
    requires i <= |s| && ';' !in s[i..]
    ensures |Split(s).rest| >= |s| - i
  {
    if i < |s| {
      hide Split;
      var front := s[..|s| - 1];
      assert front[i..] == s[i..][..|s| - 1 - i];
      assert s[|s| - 1] in s[i..];
      RestIsMaximal(front, i);
      SplitStep(s);
    }
  }

  /** A stream one character at a time. */
  function Characters(s: string): (chunks: seq<string>)
    ensures |chunks| == |s| && forall i :: 0 <= i < |s| ==> |chunks[i]| == 1
  {
    seq(|s|, i requires 0 <= i < |s| => [s[i]])
  }

  lemma {:induction false} CharactersRejoin(s: string)
    ensures Concat(Characters(s)) == s
  {
    if s != [] {
      assert Characters(s)[1..] == Characters(s[1..]);
      CharactersRejoin(s[1..]);
    }
  }

  /** If even single characters leave no trace, no stretch without a semicolon is too long. */
  lemma SingleCharactersTell(s: string, i: nat, j: nat)
    requires ReceiveAll("", Characters(s)) == Split(s)
    requires i <= j <= |s| && ';' !in s[i..j]
    ensures j - i <= MAX_PENDING
  {
    var a, b := s[..j], s[j..];
    var first := ReceiveAll("", Characters(a));
    var last := ReceiveAll(first.rest, Characters(b));
    hide Split, ReceiveAll;
    assert Characters(s) == Characters(a) + Characters(b);
    ReceiveBoth("", Characters(a), Characters(b));
    ConcatOfBoth(first.commands, last.commands);
    SplitSize(s);
    CharactersRejoin(a);
    CharactersRejoin(b);
    RestIsShort("", Characters(a));
    LosslessIsSplit("", Characters(a));
    LosslessIsSplit(first.rest, Characters(b));
    assert "" + a == a && a[i..] == s[i..j];
    RestIsMaximal(a, i);
  }

  /** What one call of `recv` can deliver. */
  ghost predicate SocketReads(chunks: seq<string>)
  {
    forall c :: c in chunks ==> 1 <= |c| <= 511
  }

  /** The chunk boundaries are unobservable exactly when no stretch without a semicolon is too long. */
  lemma ChunksUnobservableExactly(s: string)
    ensures (forall chunks :: SocketReads(chunks) && Concat(chunks) == s ==> ReceiveAll("", chunks) == Split(s)) <==> ShortRuns(s)
  {
    if ShortRuns(s) {
      forall chunks | SocketReads(chunks) && Concat(chunks) == s ensures ReceiveAll("", chunks) == Split(s) {
        assert "" + s == s;
        SplittingIgnoresChunks("", chunks);
      }
    }
    if forall chunks :: SocketReads(chunks) && Concat(chunks) == s ==> ReceiveAll("", chunks) == Split(s) {
      CharactersRejoin(s);
      assert SocketReads(Characters(s));
      forall i, j | 0 <= i <= j <= |s| && ';' !in s[i..j] ensures j - i <= MAX_PENDING {
        SingleCharactersTell(s, i, j);
      }
    }
  }

  // ----- A client connection -----

  /** What the server does for one complete command. */
  function Served(command: string, radio: Option<Radio>, canForward: bool): Reply
  {
    if |command| > MAX_CMD_LENGTH then Text("?;\r\n") else HandleQuery(command, radio, canForward)
  }

  /** Commands served one after the other; setters may run in between, so each sees its own radio state. */
  function ServedAll(commands: seq<string>, radios: nat -> Option<Radio>, canForward: bool): (r: seq<Reply>)
    ensures |r| == |commands|
  {
    seq(|commands|, i requires 0 <= i < |commands| => Served(commands[i], radios(i), canForward))
  }

  lemma ServedOneMore(done: seq<string>, command: string, radios: nat -> Option<Radio>, canForward: bool)
    ensures ServedAll(done + [command], radios, canForward)
         == ServedAll(done, radios, canForward) + [Served(command, radios(|done|), canForward)]
  {}

  /** What a client may expect for one complete command c: at most 256 characters count as a command; the seven
      queries are answered from the radio state, anything else is handed to the radio as it is when that is possible,
      and an error says why nothing else happened. */
  predicate Expected(c: string, radio: Option<Radio>, canForward: bool, r: Reply)
  {
    && (r == Forwarded(c) <==> canForward && radio.Some? && 3 <= |c| <= 256 && !IsQuery(c))
    && (r.Forwarded? ==> r.command == c)
    && (|c| < 3 || |c| > 256 ==> r == Text("?;\r\n"))
    && (3 <= |c| <= 256 && radio.None? ==> r == Text("?N;\r\n"))
    && (3 <= |c| <= 256 && radio.Some? && !IsQuery(c) && !canForward ==> r == Text("?;\r\n"))
    && (radio.Some? ==>
          var d := radio.value;
          && (c == "FA;" ==> r == Text(FrequencyAnswer("FA", d.vfoA.frequency)))
          && (c == "FB;" ==> r == Text(FrequencyAnswer("FB", d.vfoB.frequency)))
          && (c == "MD;" ==> r == Text(ModeAnswer(d.vfoA.mode)))
          && (c == "SM;" ==> r == Text(SmeterAnswer(d.vfoA.smeter)))
          && (c == "TQ;" ==> r == Text(if d.tx.ptt then "TQ1;" else "TQ0;"))
          && (c == "PC;" ==> r == Text(PowerAnswer(d.tx.power)))
          && (c == "IF;" ==> r == Text(StatusAnswer(d))))
  }

  lemma ServedAsExpected(c: string, radio: Option<Radio>, canForward: bool)
    ensures Expected(c, radio, canForward, Served(c, radio, canForward))
  {
    hide FrequencyAnswer, ModeAnswer, SmeterAnswer, PowerAnswer, StatusAnswer;
    if |c| == 3 {
      assert c == [c[0], c[1], c[2]];
    }
  }

  /** The finished commands and the unfinished one are the only way to cut s behind its semicolons. */
  ghost predicate CutAtSemicolons(s: string, commands: seq<string>, rest: string)
  {
    && Concat(commands) + rest == s && ';' !in rest
    && forall c :: c in commands ==> c != [] && c[|c| - 1] == ';' && ';' !in c[..|c| - 1]
  }

  class ClientHandler {
    var lineBuffer: string
    var replies: seq<Reply>

    ghost predicate Valid()
      reads this
    {
      ';' !in lineBuffer && |lineBuffer| <= MAX_PENDING
    }

    constructor ()
      ensures Valid() && lineBuffer == "" && replies == []
    {
      lineBuffer, replies := "", [];
    }

    /** `find(';')`: the first semicolon, or the end. */
    predicate EndsAt(pos: nat)
      reads this
    {
      pos <= |lineBuffer| && ';' !in lineBuffer[..pos] && (pos < |lineBuffer| ==> lineBuffer[pos] == ';')
    }

    /** One pass of the receive loop; the i-th command it serves sees the radio state `radios(i)`. */
    method OnReceive(chunk: string, radios: nat -> Option<Radio>, canForward: bool)
      requires Valid()
      modifies this
      ensures Valid()
      ensures lineBuffer == Receive(old(lineBuffer), chunk).rest
      ensures replies == old(replies) + ServedAll(Receive(old(lineBuffer), chunk).commands, radios, canForward)
      ensures var l := Split(old(lineBuffer) + chunk);
              && CutAtSemicolons(old(lineBuffer) + chunk, l.commands, l.rest)
              && lineBuffer == (if |l.rest| <= 1024 then l.rest else "")
              && |replies| == |old(replies)| + |l.commands| && replies[..|old(replies)|] == old(replies)
              && forall i :: 0 <= i < |l.commands| ==>
                   Expected(l.commands[i], radios(i), canForward, replies[|old(replies)| + i])
    {
      lineBuffer := lineBuffer + chunk;
      RestIsUnfinished(lineBuffer);
      SplitRejoins(lineBuffer);
      ghost var commands := Split(lineBuffer).commands;
      forall i | 0 <= i < |commands| ensures Expected(commands[i], radios(i), canForward, Served(commands[i], radios(i), canForward)) {
        ServedAsExpected(commands[i], radios(i), canForward);
      }
      hide Split, Served, Expected;
      Dispatch(radios, canForward);
      if |lineBuffer| > MAX_CMD_LENGTH * 4 {
        lineBuffer := "";
      }
    }

    /** Serves every complete command in the buffer. */
    method Dispatch(radios: nat -> Option<Radio>, canForward: bool)
      modifies this
      ensures lineBuffer == Split(old(lineBuffer)).rest
      ensures replies == old(replies) + ServedAll(Split(old(lineBuffer)).commands, radios, canForward)
    {
      ghost var all, before := Split(lineBuffer), replies;
      ghost var done: seq<string> := [];
      var served: nat := 0;
      var pos: nat := Find();
      while pos < |lineBuffer|
        invariant EndsAt(pos) && served == |done| && all == After(done, Split(lineBuffer))
        invariant replies == before + ServedAll(done, radios, canForward)
        decreases |lineBuffer|
      {
        ghost var cmd := lineBuffer[..pos + 1];
        ServeFirst(pos, radios(served), canForward, radios, before, done);
        AfterAfter(done, cmd, Split(lineBuffer));
        done := done + [cmd];
        served := served + 1;
        pos := Find();
      }
      assert lineBuffer[..pos] == lineBuffer;
      NoSemicolon(lineBuffer);
      assert all == Lines(done, lineBuffer);
    }

    /** The body of the loop; `done` has been served since the replies were `before`. */
    method ServeFirst(pos: nat, radio: Option<Radio>, canForward: bool,
                      ghost radios: nat -> Option<Radio>, ghost before: seq<Reply>, ghost done: seq<string>)
      requires EndsAt(pos) && pos < |lineBuffer| && radio == radios(|done|)
      requires replies == before + ServedAll(done, radios, canForward)
      modifies this
      ensures Split(old(lineBuffer)) == After([old(lineBuffer)[..pos + 1]], Split(lineBuffer))
      ensures replies == before + ServedAll(done + [old(lineBuffer)[..pos + 1]], radios, canForward)
      ensures |lineBuffer| < |old(lineBuffer)|
    {
      SplitFirst(lineBuffer, pos);
      ServedOneMore(done, lineBuffer[..pos + 1], radios, canForward);
      var cmd := lineBuffer[..pos + 1];
      lineBuffer := lineBuffer[pos + 1..];
      if |cmd| > MAX_CMD_LENGTH {
        replies := replies + [Text("?;\r\n")];
      } else {
        replies := replies + [HandleQuery(cmd, radio, canForward)];
      }
    }

    method Find() returns (pos: nat)
      ensures EndsAt(pos)
    {
      pos := 0;
      while pos < |lineBuffer| && lineBuffer[pos] != ';'
        invariant pos <= |lineBuffer|
        invariant ';' !in lineBuffer[..pos]
      {
        pos := pos + 1;
      }
    }
  }
}
