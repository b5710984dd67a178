/** The frequency display text, its two printers (C++ and Kotlin) and its parser. */
module FrequencyTexts {
  import opened Basics
  import opened Decimal

  // ----- Frequency text -----

  function PadStart(s: string, width: nat): string
  {
    if |s| >= width then s else Zeros(width - |s|) + s
  }

  /** Groups of three from the right, separated by periods. */
  function Grouped(d: string): string
  {
    if |d| <= 3 then d else Grouped(d[..|d| - 3]) + "." + d[|d| - 3..]
  }

  /** The display text of a frequency. */
  function FrequencyText(hz: int): string
  {
    Grouped(PadStart(Digits(if hz < 0 then 0 else hz), 7))
  }

  /** A first group of one to three digits, then groups of exactly three. */
  predicate WellGrouped(s: string)
  {
    if |s| <= 3 then s != [] && AllDigits(s)
    else AllDigits(s[|s| - 3..]) && s[|s| - 4] == '.' && WellGrouped(s[..|s| - 4])
  }

  /** The digits of a text that has only digits and periods. */
  function Clean(s: string): (r: Option<string>)
    ensures r.Some? ==> AllDigits(r.value)
  {
    if s == [] then Some([])
    else
      match Clean(s[..|s| - 1])
      case None => None
      case Some(d) =>
        var c := s[|s| - 1];
        if IsDigit(c) then Some(d + [c]) else if c == '.' then Some(d) else None
  }

  /** The frequency in a text, -1 if it is not one. */
  function TextFrequency(s: string): int
  {
    match Clean(s)
    case None => -1
    case Some(d) =>
      if d == [] then -1
      else match Stoll(d) case Some(v) => v case None => -1
  }

  lemma {:induction false} GroupedShape(d: string)
    requires d != [] && AllDigits(d)
    ensures WellGrouped(Grouped(d)) && Clean(Grouped(d)) == Some(d)
  {
    if |d| <= 3 {
      CleanDigits([], d);
      assert [] + d == d;
    } else {
      var front, last := d[..|d| - 3], d[|d| - 3..];
      var t := Grouped(d);
      assert t == Grouped(front) + "." + last && d == front + last;
      GroupedShape(front);
      hide Grouped;
      CleanOneMore(Grouped(front), front, last);
      WellGroupedOneMore(Grouped(front), last);
    }
  }

  lemma WellGroupedOneMore(s: string, last: string)
    requires WellGrouped(s) && |last| == 3 && AllDigits(last)
    ensures WellGrouped(s + "." + last)
  {
    var t := s + "." + last;
    assert t[..|t| - 4] == s && t[|t| - 3..] == last && t[|t| - 4] == '.';
  }

  lemma CleanOneMore(s: string, d: string, last: string)
    requires Clean(s) == Some(d) && AllDigits(last)
    ensures Clean(s + "." + last) == Some(d + last)
  {
    var g := s + ".";
    assert g[..|g| - 1] == s;
    CleanDigits(g, last);
  }

  lemma {:induction false} CleanDigits(s: string, d: string)
    requires AllDigits(d) && Clean(s).Some?
    ensures Clean(s + d) == Some(Clean(s).value + d)
    decreases |d|
  {
    if d == [] {
      assert s + d == s && Clean(s).value + d == Clean(s).value;
    } else {
      var front, last := d[..|d| - 1], d[|d| - 1];
      assert (s + d)[..|s + d| - 1] == s + front;
      CleanDigits(s, front);
      assert last in d && IsDigit(last);
      assert d == front + [last] && (s + d)[|s + d| - 1] == last;
      assert Clean(s + d) == Some(Clean(s).value + front + [last]);
      assert Clean(s).value + front + [last] == Clean(s).value + d;
    }
  }

  lemma PadStartValue(n: nat)
    ensures AllDigits(PadStart(Digits(n), 7)) && Value(PadStart(Digits(n), 7)) == n
  {
    var d := Digits(n);
    ValueOfDigits(n);
    if |d| < 7 { ValueOfPadded(7 - |d|, d); }
  }

  /** Printing then parsing gives the frequency back, 0 for a negative one. */
  lemma FrequencyRoundTrip(hz: Int64)
    ensures TextFrequency(FrequencyText(hz)) == if hz < 0 then 0 else hz
    ensures WellGrouped(FrequencyText(hz))
  {
    var n: nat := if hz < 0 then 0 else hz;
    var d := Digits(n);
    var p := PadStart(d, 7);
    GroupedShape(p);
    hide Clean, Grouped, WellGrouped, Digits;
    PadStartValue(n);
    hide Value, ParseInt, PadStart;
    ParseSigned(false, p, -0x8000_0000_0000_0000, 0x7FFF_FFFF_FFFF_FFFF);
    assert Sign(false) + p == p;
  }

  // ----- The text, character by character -----

  /** The digits in a text. */
  function OnlyDigits(s: string): (d: string)
    ensures AllDigits(d)
  {
    if s == [] then [] else if '0' <= s[0] <= '9' then [s[0]] + OnlyDigits(s[1..]) else OnlyDigits(s[1..])
  }

  predicate DigitsAndPeriods(s: string)
  {
    forall c :: c in s ==> '0' <= c <= '9' || c == '.'
  }

  lemma {:induction false} OnlyDigitsAppend(s: string, c: char)
    ensures OnlyDigits(s + [c]) == OnlyDigits(s) + if '0' <= c <= '9' then [c] else []
  {
    if s == [] {
      assert s + [c] == [c] && [c][1..] == [];
    } else {
      assert (s + [c])[1..] == s[1..] + [c];
      OnlyDigitsAppend(s[1..], c);
    }
  }

  lemma {:induction false} CleanMeaning(s: string)
    ensures Clean(s).Some? <==> DigitsAndPeriods(s)
    ensures Clean(s).Some? ==> Clean(s).value == OnlyDigits(s)
  {
    if s != [] {
      var front, c := s[..|s| - 1], s[|s| - 1];
      CleanMeaning(front);
      assert s == front + [c];
      OnlyDigitsAppend(front, c);
      hide OnlyDigits;
      assert c in s && forall x :: x in s <==> x in front || x == c;
      assert DigitsAndPeriods(s) <==> DigitsAndPeriods(front) && ('0' <= c <= '9' || c == '.');
    }
  }

  lemma {:induction false} DigitsPresent(s: string)
    ensures OnlyDigits(s) != [] <==> exists c :: c in s && '0' <= c <= '9'
  {
    if s != [] {
      DigitsPresent(s[1..]);
      assert s[0] in s && forall c :: c in s <==> c == s[0] || c in s[1..];
    }
  }

  /** A text is a frequency exactly when it has nothing but digits and periods, at least one digit, and a value of at
      most 63 bits; it is then that value, otherwise -1. */
  lemma TextFrequencyMeaning(s: string)
    ensures TextFrequency(s) ==
            if && DigitsAndPeriods(s) && (exists c :: c in s && '0' <= c <= '9')
               && Value(OnlyDigits(s)) <= 9223372036854775807
            then Value(OnlyDigits(s)) else -1
  {
    hide Clean, OnlyDigits, DigitsAndPeriods, Value, ParseInt;
    CleanMeaning(s);
    DigitsPresent(s);
    if OnlyDigits(s) != [] {
      ParseSigned(false, OnlyDigits(s), -0x8000_0000_0000_0000, 0x7FFF_FFFF_FFFF_FFFF);
      assert Sign(false) + OnlyDigits(s) == OnlyDigits(s);
    }
  }

  lemma {:induction false} GroupedLength(d: string)
    requires d != []
    ensures |Grouped(d)| == |d| + (|d| - 1) / 3
  {
    if |d| > 3 { GroupedLength(d[..|d| - 3]); }
  }

  lemma PadLength(n: nat)
    ensures var p := PadStart(Digits(n), 7); |p| >= 7 && n < Pow10(|p|) && (|p| > 7 ==> n >= Pow10(|p| - 1))
  {
    hide Digits, Pow10;
    var p := PadStart(Digits(n), 7);
    DigitsLength(n, |p|);
    if |p| > 7 { DigitsLength(n, |p| - 1); }
  }

  /** The digits of the display text are those of the frequency, at least seven, more only if it needs them; the rest
      is one period for every three digits after the first group. */
  lemma FrequencyTextDigits(hz: nat)
    ensures var text, p := FrequencyText(hz), OnlyDigits(FrequencyText(hz));
            && DecimalText(p, hz) && |p| >= 7 && hz < Pow10(|p|) && (|p| > 7 ==> hz >= Pow10(|p| - 1))
            && DigitsAndPeriods(text) && |text| == |p| + (|p| - 1) / 3
  {
    hide Clean, Grouped, OnlyDigits, Digits, Value, Pow10, Place, PadStart, DigitsAndPeriods, WellGrouped;
    var p := PadStart(Digits(hz), 7);
    PadLength(hz);
    PadStartValue(hz);
    GroupedShape(p);
    GroupedLength(p);
    CleanMeaning(FrequencyText(hz));
    forall i | 0 <= i < |p| ensures p[i] as int == '0' as int + Place(hz, Pow10(|p| - 1 - i)) {
      DigitAt(p, i);
    }
  }

  // ----- The two loops that print it -----

  /** What the printing loops have built after i characters. */
  function GroupedPrefix(d: string, i: nat): string
    requires i <= |d|
  {
    if i == 0 then ""
    else
      GroupedPrefix(d, i - 1) + [d[i - 1]] + Dot(|d| - i)
  }

  /** A period goes where a positive multiple of three characters is still to come. */
  function Dot(remaining: nat): string
  {
    if remaining > 0 && remaining % 3 == 0 then "." else ""
  }

  lemma DotShift(remaining: nat)
    ensures Dot(remaining + 3) == if remaining == 0 then "." else Dot(remaining)
    ensures Dot(0) == ""
  {}

  lemma PrefixStep(d: string, i: nat)
    requires 0 < i <= |d|
    ensures GroupedPrefix(d, i)
         == GroupedPrefix(d, i - 1) + [d[i - 1]] + Dot(|d| - i)
  {}

  lemma {:induction false} PrefixOfFront(d: string, i: nat)
    requires |d| > 3 && i <= |d| - 3
    ensures GroupedPrefix(d, i) == GroupedPrefix(d[..|d| - 3], i) + (if i == |d| - 3 && i > 0 then "." else "")
    decreases i
  {
    if i > 0 {
      hide GroupedPrefix, Dot;
      var front := d[..|d| - 3];
      PrefixOfFront(d, i - 1);
      PrefixStep(d, i);
      PrefixStep(front, i);
      DotShift(|front| - i);
      assert GroupedPrefix(d, i - 1) == GroupedPrefix(front, i - 1);
    }
  }

  lemma {:induction false} GroupedByLoop(d: string)
    ensures GroupedPrefix(d, |d|) == Grouped(d)
    decreases |d|
  {
    if |d| <= 3 {
      assert GroupedPrefix(d, 0) == "" && "" + d[0..] == d;
      LastThree(d, 0);
    } else {
      var n, front := |d| - 3, d[..|d| - 3];
      assert Grouped(d) == Grouped(front) + "." + d[n..];
      hide GroupedPrefix, Grouped;
      GroupedByLoop(front);
      PrefixOfFront(d, n);
      assert GroupedPrefix(d, n) == Grouped(front) + ".";
      LastThree(d, n);
    }
  }

  /** The loop puts no period among the last three characters. */
  lemma {:induction false} LastThree(d: string, i: nat)
    requires i <= |d| <= i + 3
    ensures GroupedPrefix(d, |d|) == GroupedPrefix(d, i) + d[i..]
    decreases |d| - i
  {
    if i < |d| {
      var rest := d[i + 1..];
      LastThree(d, i + 1);
      assert GroupedPrefix(d, i + 1) == GroupedPrefix(d, i) + [d[i]];
      assert d[i..] == [d[i]] + rest;
      hide GroupedPrefix;
      assert GroupedPrefix(d, i) + [d[i]] + rest == GroupedPrefix(d, i) + ([d[i]] + rest);
    } else {
      assert d[i..] == "";
    }
  }

  lemma {:induction false} LeadingDigit(n: nat)
    ensures n > 0 ==> Digits(n)[0] != '0'
  {
    if n >= 10 { LeadingDigit(n / 10); }
  }

  /** Length of the first group of n digits. */
  function FirstGroup(n: nat): (k: nat)
    ensures n > 0 ==> 1 <= k <= 3 && k <= n
  {
    if n <= 3 then n else FirstGroup(n - 3)
  }

  lemma GroupedStep(d: string)
    requires |d| > 3
    ensures Grouped(d) == Grouped(d[..|d| - 3]) + ("." + d[|d| - 3..])
  {
    hide Grouped;
    GroupedUnfold(d);
    Associative(Grouped(d[..|d| - 3]), ".", d[|d| - 3..]);
  }

  lemma Associative(a: string, b: string, c: string)
    ensures a + b + c == a + (b + c)
  {}

  lemma GroupedUnfold(d: string)
    requires |d| > 3
    ensures Grouped(d) == Grouped(d[..|d| - 3]) + "." + d[|d| - 3..]
  {}

  lemma {:induction false} GroupedFront(d: string)
    requires d != [] && '.' !in d
    ensures var k := FirstGroup(|d|); |Grouped(d)| >= k && Grouped(d)[..k] == d[..k]
    ensures |d| > 3 ==> var k := FirstGroup(|d|); |Grouped(d)| > k && Grouped(d)[k] == '.'
    decreases |d|
  {
    if |d| > 3 {
      hide Grouped;
      var front, k := d[..|d| - 3], FirstGroup(|d|);
      GroupedFront(front);
      GroupedStep(d);
      var g := Grouped(front);
      assert Grouped(d)[..k] == g[..k] == front[..k] == d[..k];
      assert |front| <= 3 ==> k == |front| == |g|;
    }
  }

  /** The text never starts with a superfluous zero. */
  lemma NoSuperfluousZero(hz: int)
    ensures FrequencyText(hz)[0] == '0' ==> FrequencyText(hz)[1] == '.'
    ensures exists k :: 1 <= k <= 3 && IsFirst(FrequencyText(hz), '.', k)
  {
    var n: nat := if hz < 0 then 0 else hz;
    var p := PadStart(Digits(n), 7);
    var k := FirstGroup(|p|);
    LeadingDigit(n);
    GroupedFront(p);
    hide Grouped;
    assert Grouped(p)[0] == Grouped(p)[..k][0] == p[0];
    assert IsFirst(Grouped(p), '.', k);
    assert p[0] == '0' ==> |p| == 7 && FirstGroup(7) == 1;
  }

  predicate IsFirst(s: string, c: char, i: int)
  {
    0 <= i < |s| && s[i] == c && c !in s[..i]
  }

  method Find(s: string, c: char) returns (i: int)
    ensures c in s ==> IsFirst(s, c, i)
    ensures c !in s ==> i == -1
  {
    for k := 0 to |s|
      invariant c !in s[..k]
    {
      if s[k] == c { return k; }
    }
    return -1;
  }

  method FindFirstNotZero(s: string) returns (i: int)
    ensures i == -1 ==> forall k :: 0 <= k < |s| ==> s[k] == '0'
    ensures i != -1 ==> 0 <= i < |s| && s[i] != '0' && forall k :: 0 <= k < i ==> s[k] == '0'
  {
    for k := 0 to |s|
      invariant forall j :: 0 <= j < k ==> s[j] == '0'
    {
      if s[k] != '0' { return k; }
    }
    return -1;
  }

  method Group(digits: string) returns (result: string)
    ensures result == Grouped(digits)
  {
    result := "";
    for i := 0 to |digits|
      invariant result == GroupedPrefix(digits, i)
    {
      result := result + [digits[i]];
      var remaining := |digits| - i - 1;
      if remaining > 0 && remaining % 3 == 0 {
        result := result + ".";
      }
    }
    GroupedByLoop(digits);
  }

  /** The C++ formatter.  Its search for leading zeros to strip stops at the first period. */
  method FormatFrequency(hz: int) returns (result: string)
    ensures result == FrequencyText(hz)
  {
    var freq := if hz < 0 then 0 else hz;
    var digits := Digits(freq);
    while |digits| < 7
      invariant PadStart(digits, 7) == PadStart(Digits(freq), 7)
      decreases 7 - |digits|
    {
      assert Zeros(7 - |digits|) + digits == Zeros(6 - |digits|) + ("0" + digits);
      digits := "0" + digits;
    }
    result := Group(digits);
    NoSuperfluousZero(hz);
    var firstDot := Find(result, '.');
    if firstDot != -1 {
      var firstNonZero := FindFirstNotZero(result);
      if firstNonZero != -1 && firstNonZero < firstDot {
        result := result[firstNonZero..];
      } else if firstNonZero >= firstDot {
        result := result[firstDot - 1..];
      }
    }
  }

  /** `Long.toString` */
  function LongText(v: int): string
  {
    Sign(v < 0) + Digits(Abs(v))
  }

  function TrimZeros(s: string): string
  {
    if s != [] && s[0] == '0' then TrimZeros(s[1..]) else s
  }

  /** The text the Kotlin formatter groups. */
  function KotlinDigits(hz: int): string
  {
    PadStart(LongText(hz), 7)
  }

  /** A period later than the second character means that there was nothing to pad, so no zero leads. */
  lemma KotlinKeepsText(hz: int)
    ensures var g := Grouped(KotlinDigits(hz));
            && '.' in g && (g[0] == '0' ==> g[1] == '.')
            && ('-' in g <==> hz < 0)
  {
    var str := KotlinDigits(hz);
    LeadingDigit(Abs(hz));
    KotlinCharacters(hz);
    GroupedFront(str);
    var k := FirstGroup(|str|);
    var g := Grouped(str);
    hide Grouped, LongText, PadStart;
    assert g[k] == '.' && g[0] == g[..k][0] == str[0];
    assert str[0] == '0' ==> |str| == 7 && FirstGroup(7) == 1;
    if hz < 0 { MinusSurvives(str); } else { NoMinusInGroups(str); }
  }

  lemma KotlinCharacters(hz: int)
    ensures var str := KotlinDigits(hz);
            && |str| >= 7 && '.' !in str && ('-' in str <==> hz < 0) && (str[0] == '0' ==> |str| == 7)
  {
    var text := LongText(hz);
    LeadingDigit(Abs(hz));
    forall c | c in Digits(Abs(hz)) ensures c != '.' && c != '-' { assert IsDigit(c); }
    assert hz < 0 ==> text[0] == '-';
    assert hz >= 0 ==> text == Digits(hz);
    hide LongText, Digits;
    assert KotlinDigits(hz)[|KotlinDigits(hz)| - |text|..] == text;
  }

  lemma NegativeText(hz: int, zeros: nat)
    requires hz < 0 && zeros == if |LongText(hz)| >= 7 then 0 else 7 - |LongText(hz)|
    ensures KotlinDigits(hz) == Zeros(zeros) + "-" + Digits(-hz) && |KotlinDigits(hz)| == |LongText(hz)| + zeros
  {
    hide Digits;
    assert LongText(hz) == "-" + Digits(-hz);
    var text := LongText(hz);
    assert Zeros(zeros) + text == Zeros(zeros) + "-" + Digits(-hz);
    assert zeros == 0 ==> Zeros(zeros) + text == text;
  }

  /** What is grouped for a negative frequency: zeros up to the width, the minus sign, then its digits. */
  lemma KotlinNegative(hz: int) returns (zeros: nat, d: string)
    requires hz < 0
    ensures KotlinDigits(hz) == Zeros(zeros) + "-" + d && DecimalText(d, -hz) && d != [] && d[0] != '0'
    ensures |KotlinDigits(hz)| >= 7 && (zeros > 0 ==> |KotlinDigits(hz)| == 7)
  {
    hide Digits, Value, Place, Pow10;
    d := Digits(-hz);
    var text := LongText(hz);
    zeros := if |text| >= 7 then 0 else 7 - |text|;
    NegativeText(hz, zeros);
    LeadingDigit(-hz);
    ValueOfDigits(-hz);
    hide LongText, KotlinDigits;
    forall i | 0 <= i < |d| ensures d[i] as int == '0' as int + Place(-hz, Pow10(|d| - 1 - i)) {
      DigitAt(d, i);
    }
  }

  lemma {:induction false} NoMinusInGroups(d: string)
    requires '-' !in d
    ensures '-' !in Grouped(d)
    decreases |d|
  {
    if |d| > 3 { NoMinusInGroups(d[..|d| - 3]); }
  }

  /** The Kotlin formatter: no clamping of negative frequencies, and its stripping of zeros removes nothing. */
  method KotlinFormatFrequency(hz: int) returns (result: string)
    ensures result == Grouped(KotlinDigits(hz))
    ensures result == FrequencyText(hz) <==> hz >= 0
  {
    var str := PadStart(LongText(hz), 7);
    result := Group(str);
    KotlinKeepsText(hz);
    var firstDot := Find(result, '.');
    if hz >= 0 {
      assert "" + Digits(hz) == Digits(hz);
    } else {
      NoMinus(hz);
    }
    if firstDot > 1 {
      assert TrimZeros(result) == result;
      var trimmed := TrimZeros(result);
      result := if trimmed != [] && trimmed[0] == '.' then "0" + trimmed else trimmed;
    }
  }

  lemma {:induction false} MinusSurvives(d: string)
    requires '-' in d
    ensures '-' in Grouped(d)
    decreases |d|
  {
    if |d| > 3 {
      var front := d[..|d| - 3];
      assert d == front + d[|d| - 3..];
      if '-' in front { MinusSurvives(front); }
    }
  }

  lemma {:induction false} CleanHasNoMinus(s: string)
    requires Clean(s).Some?
    ensures '-' !in s
  {
    if s != [] {
      CleanHasNoMinus(s[..|s| - 1]);
      assert s == s[..|s| - 1] + [s[|s| - 1]];
    }
  }

  lemma NoMinus(hz: int)
    ensures '-' !in FrequencyText(hz)
  {
    GroupedShape(PadStart(Digits(if hz < 0 then 0 else hz), 7));
    CleanHasNoMinus(FrequencyText(hz));
  }

  method ParseFrequency(str: string) returns (hz: int)
    ensures hz == TextFrequency(str)
  {
    var clean := "";
    for i := 0 to |str|
      invariant Clean(str[..i]) == Some(clean)
    {
      var c := str[i];
      assert str[..i + 1][..i] == str[..i];
      if '0' <= c <= '9' {
        clean := clean + [c];
      } else if c != '.' {
        NoneStays(str, i + 1);
        return -1;
      }
    }
    assert str[..|str|] == str;
    if clean == "" { return -1; }
    match Stoll(clean)
    case Some(v) => return v;
    case None => return -1;
  }

  lemma {:induction false} NoneStays(s: string, i: nat)
    requires i <= |s| && Clean(s[..i]).None?
    ensures Clean(s).None?
    decreases |s| - i
  {
    if i < |s| {
      assert s[..i + 1][..i] == s[..i];
      NoneStays(s, i + 1);
    } else {
      assert s[..i] == s;
    }
  }
}
