/** Decimal text: `std::to_string`, the zero padding of `%0Nd`, `snprintf`'s truncation, and `strtoll`. */
module Decimal {
  import opened Basics
  import Words

  datatype Option<+T> = None | Some(value: T)

  type Int32 = x: int | -0x8000_0000 <= x < 0x8000_0000
  type Int64 = x: int | -0x8000_0000_0000_0000 <= x < 0x8000_0000_0000_0000

  function Pow10(n: nat): (p: nat)
    ensures p >= 1
  {
    if n == 0 then 1 else 10 * Pow10(n - 1)
  }

  predicate IsDigit(c: char)
  {
    '0' <= c <= '9'
  }

  predicate AllDigits(s: string)
  {
    forall c :: c in s ==> IsDigit(c)
  }

  function DigitValue(c: char): nat
    requires IsDigit(c)
  {
    c as int - '0' as int
  }

  function Digit(d: nat): (c: char)
    requires d < 10
    ensures IsDigit(c) && DigitValue(c) == d
  {
    (d + '0' as int) as char
  }

  function Digits(n: nat): (s: string)
    ensures s != [] && AllDigits(s)
  {
    if n < 10 then [Digit(n)] else Digits(n / 10) + [Digit(n % 10)]
  }

  function Value(s: string): nat
    requires AllDigits(s)
  {
    if s == [] then 0 else 10 * Value(s[..|s| - 1]) + DigitValue(s[|s| - 1])
  }

  function Zeros(n: nat): (s: string)
    ensures |s| == n && AllDigits(s)
  {
    seq(n, _ => '0')
  }

  function Filled(digits: string, width: int): (s: string)
    requires digits != [] && AllDigits(digits)
    ensures s != [] && AllDigits(s)
  {
    Zeros(if width > |digits| then width - |digits| else 0) + digits
  }

  /** `%0Nd`: the sign counts towards the width. */
  function ZeroPad(v: int, width: nat): string
  {
    Sign(v < 0) + Filled(Digits(Abs(v)), if v < 0 then width - 1 else width)
  }

  function Sign(negative: bool): string
  {
    if negative then "-" else ""
  }

  /** What `snprintf` leaves in a buffer of the given size. */
  function Snprintf(s: string, size: nat): string
    requires size >= 1
  {
    if |s| < size then s else s[..size - 1]
  }

  // ----- strtoll -----

  predicate IsSpace(c: char)
  {
    c == ' ' || '\t' <= c <= '\r'
  }

  function SkipSpaces(s: string): string
  {
    if s != [] && IsSpace(s[0]) then SkipSpaces(s[1..]) else s
  }

  function LeadingDigits(s: string): (d: string)
    ensures AllDigits(d)
  {
    if s != [] && IsDigit(s[0]) then [s[0]] + LeadingDigits(s[1..]) else []
  }

  predicate IsNegative(t: string)
  {
    t != [] && t[0] == '-'
  }

  /** The text after an optional sign. */
  function Unsigned(t: string): string
  {
    if t != [] && (t[0] == '-' || t[0] == '+') then t[1..] else t
  }

  function Converted(negative: bool, digits: string, low: int, high: int): (r: Option<int>)
    requires AllDigits(digits)
    ensures r.Some? ==> low <= r.value <= high
  {
    var v := if negative then -(Value(digits) as int) else Value(digits);
    if digits != [] && low <= v <= high then Some(v) else None
  }

  /** `std::stoll` / `std::stoi`: None where they throw. */
  function ParseInt(s: string, low: int, high: int): (r: Option<int>)
    ensures r.Some? ==> low <= r.value <= high
  {
    var t := SkipSpaces(s);
    Converted(IsNegative(t), LeadingDigits(Unsigned(t)), low, high)
  }

  function Stoll(s: string): Option<int>
  {
    ParseInt(s, -0x8000_0000_0000_0000, 0x7FFF_FFFF_FFFF_FFFF)
  }

  function Stoi(s: string): Option<int>
  {
    ParseInt(s, -0x8000_0000, 0x7FFF_FFFF)
  }

  lemma NoNumber(low: int, high: int)
    ensures ParseInt("", low, high) == None
  {}

  // ----- Printing and parsing -----

  lemma {:induction false} ValueOfDigits(n: nat)
    ensures Value(Digits(n)) == n
  {
    if n >= 10 {
      ValueOfDigits(n / 10);
      assert Digits(n)[..|Digits(n)| - 1] == Digits(n / 10);
    }
  }

  lemma {:induction false} ValueOfPadded(zeros: nat, s: string)
    requires AllDigits(s)
    ensures Value(Zeros(zeros) + s) == Value(s)
    decreases zeros + |s|
  {
    if s != [] {
      assert (Zeros(zeros) + s)[..zeros + |s| - 1] == Zeros(zeros) + s[..|s| - 1];
      ValueOfPadded(zeros, s[..|s| - 1]);
    } else if zeros > 0 {
      assert (Zeros(zeros) + s)[..zeros - 1] == Zeros(zeros - 1) + s;
      ValueOfPadded(zeros - 1, s);
    }
  }

  lemma {:induction false} DigitsLength(n: nat, k: nat)
    requires k >= 1
    ensures |Digits(n)| <= k <==> n < Pow10(k)
  {
    if k == 1 {
      assert Pow10(1) == 10;
    } else if n >= 10 {
      DigitsLength(n / 10, k - 1);
    } else {
      assert Pow10(k) == 10 * Pow10(k - 1) && Pow10(k - 1) >= 1;
    }
  }

  lemma {:induction false} PrefixIsSmaller(s: string, m: nat)
    requires AllDigits(s) && m <= |s|
    ensures Value(s[..m]) <= Value(s)
    ensures m < |s| && Value(s) > 0 ==> Value(s[..m]) < Value(s)
    decreases |s|
  {
    if m < |s| {
      PrefixIsSmaller(s[..|s| - 1], m);
      assert s[..|s| - 1][..m] == s[..m];
    } else {
      assert s[..m] == s;
    }
  }

  lemma {:induction false} AllLeading(s: string)
    requires AllDigits(s)
    ensures LeadingDigits(s) == s
  {
    if s != [] { AllLeading(s[1..]); }
  }

  lemma ParseSigned(negative: bool, digits: string, low: int, high: int)
    requires digits != [] && AllDigits(digits)
    ensures var v := if negative then -(Value(digits) as int) else Value(digits);
            ParseInt(Sign(negative) + digits, low, high) == if low <= v <= high then Some(v) else None
  {
    hide Value, SkipSpaces, LeadingDigits, AllDigits, Sign, Unsigned, IsNegative;
    AllLeading(digits);
    SignComesFirst(negative, digits);
  }

  lemma SignComesFirst(negative: bool, digits: string)
    requires digits != [] && AllDigits(digits)
    ensures var s := Sign(negative) + digits;
            SkipSpaces(s) == s && Unsigned(s) == digits && (IsNegative(s) <==> negative)
  {
    var s := Sign(negative) + digits;
    assert digits[0] in digits && IsDigit(digits[0]);
    assert s[0] == if negative then '-' else digits[0];
    hide AllDigits, SkipSpaces;
    assert Unsigned(s) == digits;
  }

  lemma ParsePadded(v: int, width: nat, low: int, high: int)
    requires low <= v <= high
    ensures ParseInt(ZeroPad(v, width), low, high) == Some(v)
  {
    var filled := Filled(Digits(Abs(v)), if v < 0 then width - 1 else width);
    ValueOfDigits(Abs(v));
    ValueOfPadded(|filled| - |Digits(Abs(v))|, Digits(Abs(v)));
    hide Digits, Value, ParseInt;
    ParseSigned(v < 0, filled, low, high);
  }

  /** A padded number that had to be cut reads as another number. */
  lemma ParseCut(v: int, width: nat, m: nat, low: int, high: int)
    requires low <= v <= high && low <= 0 <= high
    requires 2 <= width <= m < |ZeroPad(v, width)|
    ensures ParseInt(ZeroPad(v, width)[..m], low, high).Some?
    ensures ParseInt(ZeroPad(v, width)[..m], low, high) != Some(v)
  {
    var digits, sign := Digits(Abs(v)), Sign(v < 0);
    var kept := digits[..m - |sign|];
    assert ZeroPad(v, width) == sign + digits;
    hide ZeroPad, Digits, Value, ParseInt;
    assert ZeroPad(v, width)[..m] == sign + kept;
    ValueOfDigits(Abs(v));
    DigitsLength(Abs(v), 1);
    PrefixIsSmaller(digits, m - |sign|);
    ParseSigned(v < 0, kept, low, high);
  }

  /** The exact range whose padded text fits in m characters. */
  lemma PaddedFits(v: int, width: nat, m: nat)
    requires 2 <= width <= m
    ensures |ZeroPad(v, width)| <= m <==> -(Pow10(m - 1) as int) < v < Pow10(m)
  {
    DigitsLength(Abs(v), if v < 0 then m - 1 else m);
  }

  // ----- What the texts say, character by character -----

  lemma DropLastDigit(n: nat, d: nat, p: nat)
    requires d < 10 && p >= 1
    ensures (10 * n + d) / (10 * p) == n / p
  {
    var q, r := n / p, n % p;
    Words.Associate(q, p, 10);
    assert 10 * n + d == q * (10 * p) + (10 * r + d);
    Words.ModUnique(10 * n + d, 10 * p, q, 10 * r + d);
  }

  /** The digit of n that stands for p. */
  function Place(n: nat, p: nat): nat
    requires p >= 1
  {
    n / p % 10
  }

  lemma ValueStep(s: string)
    requires s != [] && AllDigits(s)
    ensures AllDigits(s[..|s| - 1]) && IsDigit(s[|s| - 1])
    ensures Value(s) == 10 * Value(s[..|s| - 1]) + DigitValue(s[|s| - 1])
  {
    assert s[|s| - 1] in s;
  }

  lemma PlaceStep(n: nat, d: nat, p: nat)
    requires d < 10 && p >= 1
    ensures Place(10 * n + d, 10 * p) == Place(n, p) && Place(10 * n + d, 1) == d
  {
    DropLastDigit(n, d, p);
  }

  lemma Pow10Step(k: nat)
    ensures Pow10(0) == 1 && Pow10(k + 1) == 10 * Pow10(k)
  {}

  /** Each digit of a number's text is the one its place calls for. */
  lemma {:induction false} DigitAt(s: string, i: nat)
    requires AllDigits(s) && i < |s|
    ensures s[i] as int == '0' as int + Place(Value(s), Pow10(|s| - 1 - i))
    decreases |s|
  {
    hide Value, AllDigits, Pow10, Place;
    var front, last := s[..|s| - 1], s[|s| - 1];
    ValueStep(s);
    if i == |s| - 1 {
      PlaceStep(Value(front), DigitValue(last), 1);
      Pow10Step(0);
    } else {
      DigitAt(front, i);
      PlaceStep(Value(front), DigitValue(last), Pow10(|s| - 2 - i));
      Pow10Step(|s| - 2 - i);
      assert s[i] == front[i];
    }
  }

  /** s has n's digit at every place, however many places there are. */
  predicate DecimalText(s: string, n: nat)
  {
    forall i :: 0 <= i < |s| ==> s[i] as int == '0' as int + Place(n, Pow10(|s| - 1 - i))
  }

  lemma PaddedValue(v: nat, width: nat)
    requires width >= 1 && v < Pow10(width)
    ensures var s := ZeroPad(v, width); |s| == width && AllDigits(s) && Value(s) == v
  {
    hide Digits, Value, Pow10;
    DigitsLength(v, width);
    ValueOfDigits(v);
    ValueOfPadded(width - |Digits(v)|, Digits(v));
    assert "" + Filled(Digits(v), width) == Filled(Digits(v), width);
  }

  /** The padded text of a number that keeps to its width: that many characters, each the digit of its place. */
  lemma PaddedDigits(v: nat, width: nat)
    requires width >= 1 && v < Pow10(width)
    ensures |ZeroPad(v, width)| == width && DecimalText(ZeroPad(v, width), v)
  {
    hide Digits, Value, Pow10, Filled, Place, ZeroPad;
    var s := ZeroPad(v, width);
    PaddedValue(v, width);
    forall i | 0 <= i < |s| ensures s[i] as int == '0' as int + Place(v, Pow10(|s| - 1 - i)) {
      DigitAt(s, i);
    }
  }

  /** A minus sign takes one place of the width. */
  lemma NegativePadded(v: int, width: nat)
    requires v < 0 && width >= 2
    ensures ZeroPad(v, width) == "-" + ZeroPad(-v, width - 1)
  {
    assert Sign(true) == "-" && Sign(false) == "";
    assert "" + Filled(Digits(Abs(v)), width - 1) == Filled(Digits(Abs(v)), width - 1);
  }

  /** Space, tab, line feed, vertical tab, form feed, carriage return. */
  predicate Blank(c: char)
  {
    c == ' ' || c == '\t' || c == '\n' || c as int == 11 || c as int == 12 || c == '\r'
  }

  lemma BlankIsSpace(c: char)
    ensures IsSpace(c) <==> Blank(c)
  {}

  predicate Spaces(s: string)
  {
    forall c :: c in s ==> Blank(c)
  }

  /** A text that begins with a number: spaces, an optional sign, digits as far as they go, anything else. */
  ghost predicate NumberText(s: string, spaces: string, sign: string, digits: string, tail: string)
  {
    s == spaces + sign + digits + tail && Spaces(spaces) && (sign == "" || sign == "+" || sign == "-") &&
    digits != [] && AllDigits(digits) && (tail != [] ==> !('0' <= tail[0] <= '9'))
  }

  lemma {:induction false} SkippedSpaces(spaces: string, t: string)
    requires Spaces(spaces) && t != [] && !IsSpace(t[0])
    ensures SkipSpaces(spaces + t) == t
    decreases |spaces|
  {
    if spaces == [] {
      assert spaces + t == t;
    } else {
      assert spaces[0] in spaces;
      BlankIsSpace(spaces[0]);
      assert (spaces + t)[1..] == spaces[1..] + t;
      SkippedSpaces(spaces[1..], t);
    }
  }

  lemma {:induction false} DigitsThenTail(digits: string, tail: string)
    requires AllDigits(digits) && (tail != [] ==> !IsDigit(tail[0]))
    ensures LeadingDigits(digits + tail) == digits
    decreases |digits|
  {
    if digits == [] {
      assert digits + tail == tail;
    } else {
      assert digits[0] in digits;
      assert (digits + tail)[1..] == digits[1..] + tail;
      DigitsThenTail(digits[1..], tail);
    }
  }

  lemma ReadsNumber(s: string, spaces: string, sign: string, digits: string, tail: string, low: int, high: int)
    requires NumberText(s, spaces, sign, digits, tail)
    ensures ParseInt(s, low, high) == Converted(sign == "-", digits, low, high)
  {
    var t := sign + digits + tail;
    assert s == spaces + t;
    assert digits[0] in digits && IsDigit(digits[0]);
    assert t[0] == if sign == "" then digits[0] else sign[0];
    BlankIsSpace(t[0]);
    SkippedSpaces(spaces, t);
    assert Unsigned(t) == digits + tail;
    DigitsThenTail(digits, tail);
    hide SkipSpaces, LeadingDigits, AllDigits, Value, Converted;
  }

  lemma {:induction false} SpacesSplit(s: string) returns (spaces: string)
    ensures Spaces(spaces) && s == spaces + SkipSpaces(s)
  {
    if s != [] && IsSpace(s[0]) {
      var rest := SpacesSplit(s[1..]);
      spaces := [s[0]] + rest;
      BlankIsSpace(s[0]);
      hide Blank, IsSpace;
      assert s == [s[0]] + s[1..];
      assert SkipSpaces(s) == SkipSpaces(s[1..]);
    } else {
      spaces := [];
    }
  }

  lemma {:induction false} DigitsSplit(s: string) returns (tail: string)
    ensures s == LeadingDigits(s) + tail && (tail != [] ==> !IsDigit(tail[0]))
  {
    if s != [] && IsDigit(s[0]) {
      tail := DigitsSplit(s[1..]);
      assert s == [s[0]] + s[1..];
    } else {
      tail := s;
    }
  }

  lemma SignSplit(t: string) returns (sign: string)
    ensures t == sign + Unsigned(t) && (sign == "" || sign == "+" || sign == "-")
    ensures sign == "-" <==> IsNegative(t)
  {
    sign := if t != [] && (t[0] == '-' || t[0] == '+') then [t[0]] else [];
  }

  /** Whatever the text: it begins with a number, or it is rejected. */
  lemma NumberOrNone(s: string, low: int, high: int)
    returns (spaces: string, sign: string, digits: string, tail: string)
    ensures AllDigits(digits) && ParseInt(s, low, high) == Converted(sign == "-", digits, low, high)
    ensures digits != [] ==> NumberText(s, spaces, sign, digits, tail)
  {
    spaces := SpacesSplit(s);
    var t := SkipSpaces(s);
    sign := SignSplit(t);
    digits := LeadingDigits(Unsigned(t));
    tail := DigitsSplit(Unsigned(t));
    hide SkipSpaces, LeadingDigits, Unsigned, AllDigits, Value, Converted, Spaces, IsNegative;
    assert t == sign + (digits + tail);
    assert spaces + (sign + (digits + tail)) == spaces + sign + digits + tail;
  }

  function SignedValue(sign: string, digits: string): int
    requires AllDigits(digits)
  {
    if sign == "-" then -(Value(digits) as int) else Value(digits)
  }

  /** What the library's number parser accepts: a text is read as v exactly when it begins with a number, signed or
      not, whose value is v and in range; it throws otherwise. */
  lemma ParsesExactlyNumbers(s: string, low: int, high: int, v: int)
    ensures ParseInt(s, low, high) == Some(v) <==>
            && low <= v <= high
            && exists spaces, sign, digits, tail ::
                 NumberText(s, spaces, sign, digits, tail) && v == SignedValue(sign, digits)
  {
    hide ParseInt, Value, AllDigits;
    if low <= v <= high {
      forall spaces, sign, digits, tail | NumberText(s, spaces, sign, digits, tail) && v == SignedValue(sign, digits)
        ensures ParseInt(s, low, high) == Some(v)
      {
        ReadsNumber(s, spaces, sign, digits, tail, low, high);
      }
    }
    if ParseInt(s, low, high) == Some(v) {
      var spaces, sign, digits, tail := NumberOrNone(s, low, high);
      assert NumberText(s, spaces, sign, digits, tail) && v == SignedValue(sign, digits);
    }
  }
}
