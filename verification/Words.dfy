/** 64-bit unsigned words (`size_t`): wrap-around arithmetic and bit operations, written on naturals. */
module Words {
  const WORD64: nat := 0x1_0000_0000_0000_0000
  type Word = w: nat | w < WORD64

  function Wrap(n: nat): Word
  {
    n % WORD64
  }

  function Sub(a: Word, b: Word): Word
  {
    if a >= b then a - b else a + WORD64 - b
  }

  function Pow2(n: nat): (p: nat)
    ensures p >= 1
  {
    if n == 0 then 1 else 2 * Pow2(n - 1)
  }

  function Shr(v: nat, n: nat): (r: nat)
    ensures r <= v
    decreases n
  {
    if n == 0 then v else Shr(v / 2, n - 1)
  }

  function Or(a: nat, b: nat): nat
  {
    if a == 0 && b == 0 then 0
    else 2 * Or(a / 2, b / 2) + (if a % 2 == 1 || b % 2 == 1 then 1 else 0)
  }

  function And(a: nat, b: nat): (r: nat)
    ensures r <= b
  {
    if a == 0 || b == 0 then 0
    else 2 * And(a / 2, b / 2) + (if a % 2 == 1 && b % 2 == 1 then 1 else 0)
  }

  predicate Bit(v: nat, i: nat)
    decreases i
  {
    if i == 0 then v % 2 == 1 else Bit(v / 2, i - 1)
  }

  /** Number of significant bits. */
  function Length(v: nat): nat
  {
    if v == 0 then 0 else 1 + Length(v / 2)
  }

  // ----- Bits of the operators -----

  lemma {:induction false} BitShr(v: nat, n: nat, i: nat)
    ensures Bit(Shr(v, n), i) == Bit(v, n + i)
    decreases n
  {
    if n > 0 {
      BitShr(v / 2, n - 1, i);
    }
  }

  lemma OrHalves(a: nat, b: nat)
    ensures Or(a, b) / 2 == Or(a / 2, b / 2)
    ensures Or(a, b) % 2 == 1 <==> a % 2 == 1 || b % 2 == 1
  {}

  lemma {:induction false} BitOr(a: nat, b: nat, i: nat)
    ensures Bit(Or(a, b), i) == (Bit(a, i) || Bit(b, i))
    decreases i
  {
    OrHalves(a, b);
    hide Or;
    if i > 0 {
      BitOr(a / 2, b / 2, i - 1);
    }
  }

  lemma {:induction false} BitOfZero(i: nat)
    ensures !Bit(0, i)
  {
    if i > 0 { BitOfZero(i - 1); }
  }

  lemma {:induction false} BitLength(v: nat, i: nat)
    ensures i >= Length(v) ==> !Bit(v, i)
    ensures i + 1 == Length(v) ==> Bit(v, i)
    decreases i
  {
    if v == 0 {
      BitOfZero(i);
    } else if i > 0 {
      BitLength(v / 2, i - 1);
    }
  }

  lemma {:induction false} LengthBounds(v: nat)
    requires v > 0
    ensures Pow2(Length(v) - 1) <= v < Pow2(Length(v))
  {
    if v > 1 { LengthBounds(v / 2); }
  }

  lemma {:induction false} Pow2Monotone(m: nat, n: nat)
    requires m <= n
    ensures Pow2(m) <= Pow2(n)
    decreases n
  {
    if m < n { Pow2Monotone(m, n - 1); }
  }

  lemma {:induction false} OrBound(a: nat, b: nat, n: nat)
    requires a < Pow2(n) && b < Pow2(n)
    ensures Or(a, b) < Pow2(n)
  {
    if n > 0 { OrBound(a / 2, b / 2, n - 1); }
  }

  lemma {:induction false} OnesValue(x: nat, n: nat)
    requires forall i: nat :: Bit(x, i) <==> i < n
    ensures x + 1 == Pow2(n)
    decreases n
  {
    if n == 0 {
      BitLength(x, if x == 0 then 0 else Length(x) - 1);
    } else {
      forall i: nat ensures Bit(x / 2, i) <==> i < n - 1 {
        assert Bit(x, i + 1) == Bit(x / 2, i);
      }
      OnesValue(x / 2, n - 1);
      assert Bit(x, 0);
    }
  }

  // ----- Rounding up to a power of two -----

  /** Bit i of x is the disjunction of bits i to i+width-1 of v. */
  ghost predicate Smeared(x: nat, v: nat, width: nat)
  {
    forall i: nat :: Bit(x, i) <==> exists j: nat :: i <= j < i + width && Bit(v, j)
  }

  /** `v |= v >> width` */
  function OrShr(x: nat, width: nat): nat
  {
    Or(x, Shr(x, width))
  }

  /** Smearing repeatedly, doubling the width each time. */
  function Smear(x: nat, width: nat, steps: nat): nat
    decreases steps
  {
    if steps == 0 then x else Smear(OrShr(x, width), 2 * width, steps - 1)
  }

  lemma SmearStep(x: nat, v: nat, width: nat)
    requires Smeared(x, v, width)
    ensures Smeared(OrShr(x, width), v, 2 * width)
  {
    var y := OrShr(x, width);
    forall i: nat
      ensures Bit(y, i) <==> exists j: nat :: i <= j < i + 2 * width && Bit(v, j)
    {
      BitOr(x, Shr(x, width), i);
      BitShr(x, width, i);
      assert Bit(x, i) <==> exists j: nat :: i <= j < i + width && Bit(v, j);
      assert Bit(x, width + i) <==> exists j: nat :: width + i <= j < width + i + width && Bit(v, j);
    }
  }

  lemma {:induction false} SmearDoubles(x: nat, v: nat, width: nat, steps: nat)
    requires Smeared(x, v, width)
    ensures Smeared(Smear(x, width, steps), v, width * Pow2(steps))
    decreases steps
  {
    if steps > 0 {
      hide Smeared, OrShr, Pow2;
      SmearStep(x, v, width);
      SmearDoubles(OrShr(x, width), v, 2 * width, steps - 1);
      Pow2Step(steps);
      Associate(width, Pow2(steps - 1), 2);
    } else {
      assert width * Pow2(0) == width;
    }
  }

  lemma SmearedOnes(x: nat, v: nat, width: nat)
    requires Smeared(x, v, width) && Length(v) <= width
    ensures x + 1 == Pow2(Length(v))
  {
    forall i: nat
      ensures Bit(x, i) <==> i < Length(v)
    {
      if i < Length(v) {
        BitLength(v, Length(v) - 1);
      } else {
        forall j: nat | i <= j ensures !Bit(v, j) { BitLength(v, j); }
      }
    }
    OnesValue(x, Length(v));
  }

  ghost predicate LeastPowerOf2(r: nat, v: nat)
  {
    (exists n: nat :: r == Pow2(n)) && v <= r && forall n: nat :: v <= Pow2(n) ==> r <= Pow2(n)
  }

  lemma LengthGivesLeast(v: nat)
    requires v >= 1
    ensures LeastPowerOf2(Pow2(Length(v - 1)), v)
  {
    var len := Length(v - 1);
    if v > 1 {
      LengthBounds(v - 1);
    }
    forall n: nat | v <= Pow2(n) ensures Pow2(len) <= Pow2(n) {
      LengthOfWord(v - 1, n);
      Pow2Monotone(len, n);
    }
  }

  lemma LengthOfWord(v: nat, n: nat)
    ensures v < Pow2(n) <==> Length(v) <= n
  {
    if v > 0 {
      LengthBounds(v);
      if Length(v) <= n { Pow2Monotone(Length(v), n); } else { Pow2Monotone(n, Length(v) - 1); }
    }
  }

  /** The value the bit-smearing round-up ends with. */
  function RoundUp(v: Word): Word
  {
    Wrap(Smear(Sub(v, 1), 1, 6) + 1)
  }

  lemma SmearedValue(x: Word)
    ensures Smear(x, 1, 6) + 1 == Pow2(Length(x))
  {
    hide Smear, OrShr, Smeared, Length;
    WordIsPow2();
    LengthOfWord(x, 64);
    SmearedOnce(x);
    SmearDoubles(x, x, 1, 6);
    assert 1 * Pow2(6) == 64;
    SmearedOnes(Smear(x, 1, 6), x, 64);
  }

  lemma HalfWord(x: Word)
    ensures x < WORD64 / 2 ==> 1 <= Pow2(Length(x)) <= WORD64 / 2
    ensures x >= WORD64 / 2 ==> Pow2(Length(x)) == WORD64
  {
    var half := 63;
    WordIsPow2();
    LengthOfWord(x, half);
    LengthOfWord(x, half + 1);
    if Length(x) <= half {
      Pow2Monotone(Length(x), half);
    }
  }

  /** 0 and anything above 2^63 wrap around to 0. */
  lemma RoundUpMeaning(v: Word)
    ensures 1 <= v <= WORD64 / 2 ==> LeastPowerOf2(RoundUp(v), v)
    ensures RoundUp(v) == 0 <==> v == 0 || v > WORD64 / 2
  {
    hide Smear, Length, Pow2, LeastPowerOf2;
    var x := Sub(v, 1);
    SmearedValue(x);
    HalfWord(x);
    if v >= 1 {
      LengthGivesLeast(v);
    }
  }

  lemma SmearedOnce(v: nat)
    ensures Smeared(v, v, 1)
  {
    forall i: nat ensures Bit(v, i) <==> exists j: nat :: i <= j < i + 1 && Bit(v, j) {
      assert i <= i < i + 1;
    }
  }

  method NextPowerOf2(v: Word) returns (r: Word)
    ensures r == RoundUp(v)
    ensures 1 <= v <= WORD64 / 2 ==> LeastPowerOf2(r, v)
    ensures r == 0 <==> v == 0 || v > WORD64 / 2
  {
    hide Smear, OrShr, Pow2, LeastPowerOf2;
    RoundUpMeaning(v);
    r := Sub(v, 1);
    ghost var end := Smear(r, 1, 6);
    r := SmearOnce(r, 1, 6, end);
    r := SmearOnce(r, 2, 5, end);
    r := SmearOnce(r, 4, 4, end);
    r := SmearOnce(r, 8, 3, end);
    r := SmearOnce(r, 16, 2, end);
    r := SmearOnce(r, 32, 1, end);
    r := Wrap(r as nat + 1);
  }

  method SmearOnce(x: Word, width: nat, ghost steps: nat, ghost end: nat) returns (y: Word)
    requires steps > 0 && end == Smear(x, width, steps)
    ensures y == OrShr(x, width)
    ensures end == Smear(y, 2 * width, steps - 1)
    ensures steps == 1 ==> y == end
  {
    WordIsPow2();
    OrBound(x, Shr(x, width), 64);
    y := Or(x, Shr(x, width));
  }

  // ----- Masks and wrapping counters -----

  lemma Distribute(a: int, b: int, m: int)
    ensures (a - b) * m == a * m - b * m
  {}

  lemma AtLeastOnce(d: nat, m: nat)
    requires d >= 1
    ensures d * m >= m
  {}

  lemma ModUnique(x: nat, m: nat, q: nat, r: nat)
    requires x == q * m + r && r < m
    ensures x % m == r && x / m == q
  {
    var q', r' := x / m, x % m;
    assert x == q' * m + r';
    Distribute(q', q, m);
    Distribute(q, q', m);
    if q' > q { AtLeastOnce(q' - q, m); } else if q' < q { AtLeastOnce(q - q', m); }
  }

  /** Halving a number drops its lowest bit from its residue modulo an even number. */
  lemma ModTwice(p: nat, m: nat)
    requires m >= 1
    ensures p % (2 * m) == 2 * (p / 2 % m) + p % 2
  {
    var h := p / 2;
    var q, r := h / m, h % m;
    assert h == q * m + r;
    assert q * (2 * m) == 2 * (q * m);
    ModUnique(p, 2 * m, q, 2 * r + p % 2);
  }

  lemma Associate(q: int, m: int, c: int)
    ensures q * (m * c) == (q * c) * m
  {}

  lemma Regroup(n: nat, m: nat, c: nat, mc: nat, q: nat, r: nat, s: nat, t: nat)
    requires n == q * mc + r && r == s * m + t && mc == m * c
    ensures n == (q * c + s) * m + t
  {
    Associate(q, m, c);
    Distribute(q * c, -(s as int), m);
  }

  /** Reducing modulo a multiple first changes nothing. */
  lemma ModOfMultiple(n: nat, m: nat, c: nat, mc: nat)
    requires m >= 1 && mc >= 1 && mc == m * c
    ensures n % mc % m == n % m
  {
    var q, r := n / mc, n % mc;
    var s, t := r / m, r % m;
    Regroup(n, m, c, mc, q, r, s, t);
    ModUnique(n, m, q * c + s, t);
  }

  lemma WordIsPow2()
    ensures Pow2(64) == WORD64 && 2 * Pow2(63) == WORD64
  {
    Pow2Sum(8, 8);
    assert Pow2(16) == 0x10000;
    Pow2Sum(16, 16);
    assert Pow2(32) == 0x1_0000_0000;
    Pow2Sum(32, 32);
    Pow2Sum(63, 1);
  }

  lemma AndStep(a: nat, b: nat)
    ensures And(a, b) == 2 * And(a / 2, b / 2) + (if a % 2 == 1 && b % 2 == 1 then 1 else 0)
  {}

  lemma {:induction false} MaskIsModulo(p: nat, k: nat)
    ensures And(p, Pow2(k) - 1) == p % Pow2(k)
    decreases k
  {
    if k > 0 {
      hide And, Pow2;
      var m := Pow2(k - 1);
      Pow2Step(k);
      MaskIsModulo(p / 2, k - 1);
      ModTwice(p, m);
      AndStep(p, 2 * m - 1);
      assert (2 * m - 1) / 2 == m - 1 && (2 * m - 1) % 2 == 1;
    }
  }

  lemma Pow2Step(n: nat)
    requires n > 0
    ensures Pow2(n) == 2 * Pow2(n - 1)
  {}

  lemma {:induction false} Pow2Sum(m: nat, n: nat)
    ensures Pow2(m + n) == Pow2(m) * Pow2(n)
    decreases n
  {
    if n > 0 {
      hide Pow2;
      Pow2Sum(m, n - 1);
      Pow2Step(m + n);
      Pow2Step(n);
      Associate(Pow2(n - 1), Pow2(m), 2);
    }
  }

  /** A counter that wraps at 2^64 selects the same slot as one that never wraps. */
  lemma MaskIgnoresWrap(n: nat, k: nat)
    requires k <= 64
    ensures And(Wrap(n), Pow2(k) - 1) == n % Pow2(k)
  {
    WordIsPow2();
    Pow2Sum(k, 64 - k);
    MaskIsModulo(Wrap(n), k);
    ModOfMultiple(n, Pow2(k), Pow2(64 - k), WORD64);
  }

  lemma WrapShift(n: nat, i: nat)
    ensures Wrap(Wrap(n) + i) == Wrap(n + i)
  {}

  /** The difference of two wrapping counters is the distance between the true counters. */
  lemma WrappedDistance(a: nat, b: nat)
    requires b <= a < b + WORD64
    ensures Sub(Wrap(a), Wrap(b)) == a - b
  {}
}
