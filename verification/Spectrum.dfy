/** Bands, span tiers, and the map between spectrum pixels and frequencies.
    The doubles of the pixel maps are modelled as reals. */
module Spectrum {
  import opened Basics
  import opened Words

  // ----- Bands -----

  datatype Band = Band(id: int, lower: int, upper: int)

  const BANDS: seq<Band> := [
    Band(0, 1800000, 2000000), Band(1, 3500000, 4000000), Band(2, 5330500, 5403500),
    Band(3, 7000000, 7300000), Band(4, 10100000, 10150000), Band(5, 14000000, 14350000),
    Band(6, 18068000, 18168000), Band(7, 21000000, 21450000), Band(8, 24890000, 24990000),
    Band(9, 28000000, 29700000), Band(10, 50000000, 54000000)]

  predicate Within(hz: int, b: Band)
  {
    b.lower <= hz <= b.upper
  }

  /** The id of the first band from position i on that holds the frequency, -1 if none does. */
  function BandId(hz: int, i: nat := 0): int
    requires i <= |BANDS|
    decreases |BANDS| - i
  {
    if i == |BANDS| then -1 else if Within(hz, BANDS[i]) then BANDS[i].id else BandId(hz, i + 1)
  }

  /** The amateur bands, edge by edge. */
  lemma BandTable(hz: int)
    ensures BandId(hz) == 0 <==> 1800000 <= hz <= 2000000
    ensures BandId(hz) == 1 <==> 3500000 <= hz <= 4000000
    ensures BandId(hz) == 2 <==> 5330500 <= hz <= 5403500
    ensures BandId(hz) == 3 <==> 7000000 <= hz <= 7300000
    ensures BandId(hz) == 4 <==> 10100000 <= hz <= 10150000
    ensures BandId(hz) == 5 <==> 14000000 <= hz <= 14350000
    ensures BandId(hz) == 6 <==> 18068000 <= hz <= 18168000
    ensures BandId(hz) == 7 <==> 21000000 <= hz <= 21450000
    ensures BandId(hz) == 8 <==> 24890000 <= hz <= 24990000
    ensures BandId(hz) == 9 <==> 28000000 <= hz <= 29700000
    ensures BandId(hz) == 10 <==> 50000000 <= hz <= 54000000
    ensures -1 <= BandId(hz) <= 10
  {
    hide BandId;
    BandIdRange(hz, 0);
    BandRow(hz, 0, 1800000, 2000000);
    BandRow(hz, 1, 3500000, 4000000);
    BandRow(hz, 2, 5330500, 5403500);
    BandRow(hz, 3, 7000000, 7300000);
    BandRow(hz, 4, 10100000, 10150000);
    BandRow(hz, 5, 14000000, 14350000);
    BandRow(hz, 6, 18068000, 18168000);
    BandRow(hz, 7, 21000000, 21450000);
    BandRow(hz, 8, 24890000, 24990000);
    BandRow(hz, 9, 28000000, 29700000);
    BandRow(hz, 10, 50000000, 54000000);
  }

  lemma BandRow(hz: int, i: nat, lower: int, upper: int)
    requires i < |BANDS| && BANDS[i] == Band(i, lower, upper)
    ensures BandId(hz) == i <==> lower <= hz <= upper
  {
    BandConsistency(hz);
    hide BandId;
    assert BANDS[i] in BANDS;
  }

  lemma {:induction false} BandIdRange(hz: int, i: nat)
    requires i <= |BANDS|
    ensures -1 <= BandId(hz, i) <= 10
    decreases |BANDS| - i
  {
    if i < |BANDS| {
      BandsDisjoint();
      BandIdRange(hz, i + 1);
    }
  }

  method FreqToBand(hz: int) returns (id: int)
    ensures id == BandId(hz)
  {
    for i := 0 to |BANDS|
      invariant BandId(hz) == BandId(hz, i)
    {
      if hz >= BANDS[i].lower && hz <= BANDS[i].upper {
        return BANDS[i].id;
      }
    }
    return -1;
  }

  lemma {:induction false} FirstBand(hz: int, i: nat, j: nat)
    requires i <= j < |BANDS| && Within(hz, BANDS[j])
    requires forall k :: i <= k < j ==> !Within(hz, BANDS[k])
    ensures BandId(hz, i) == BANDS[j].id
    decreases j - i
  {
    if i < j { FirstBand(hz, i + 1, j); }
  }

  lemma {:induction false} NoBand(hz: int, i: nat)
    requires i <= |BANDS| && forall k :: i <= k < |BANDS| ==> !Within(hz, BANDS[k])
    ensures BandId(hz, i) == -1
    decreases |BANDS| - i
  {
    if i < |BANDS| { NoBand(hz, i + 1); }
  }

  /** A frequency gets a band's id exactly when it lies within that band, and -1 exactly when it lies in none. */
  lemma BandConsistency(hz: int)
    ensures forall b :: b in BANDS ==> (BandId(hz) == b.id <==> Within(hz, b))
    ensures BandId(hz) == -1 <==> forall b :: b in BANDS ==> !Within(hz, b)
  {
    BandsDisjoint();
    if j :| 0 <= j < |BANDS| && Within(hz, BANDS[j]) {
      forall k | 0 <= k < |BANDS| && k != j ensures !Within(hz, BANDS[k]) {
        assert k < j ==> BANDS[k].upper < BANDS[j].lower;
        assert j < k ==> BANDS[j].upper < BANDS[k].lower;
      }
      FirstBand(hz, 0, j);
    } else {
      NoBand(hz, 0);
    }
  }

  /** Bands are numbered by position, ordered and disjoint. */
  lemma BandsDisjoint()
    ensures forall i :: 0 <= i < |BANDS| ==> BANDS[i].id == i && BANDS[i].lower < BANDS[i].upper
    ensures forall i, j :: 0 <= i < j < |BANDS| ==> BANDS[i].upper < BANDS[j].lower
  {}

  // ----- Span tiers -----

  const SPAN_TIERS: seq<int> := [
    2000, 3000, 4000, 5000, 7000, 10000, 15000, 20000, 30000,
    50000, 75000, 100000, 150000, 200000, 300000, 500000]

  /** The nearest tier, the lower one of two equally near. */
  ghost predicate Nearest(tier: int, span: int)
  {
    tier in SPAN_TIERS &&
    forall t :: t in SPAN_TIERS ==> Better(tier, t, span)
  }

  predicate Better(s: int, t: int, span: int)
  {
    Abs(span - s) < Abs(span - t) || (Abs(span - s) == Abs(span - t) && s <= t)
  }

  lemma TiersAscend(i: nat)
    requires i < |SPAN_TIERS|
    ensures SPAN_TIERS[0] <= SPAN_TIERS[i] && forall k :: 0 <= k < i ==> SPAN_TIERS[k] < SPAN_TIERS[i]
  {}

  method SnapToSpanTier(span: int) returns (closest: int)
    ensures Nearest(closest, span)
  {
    closest := SPAN_TIERS[0];
    var minDiff := Abs(span - closest);
    for i := 0 to |SPAN_TIERS|
      invariant closest in SPAN_TIERS && minDiff == Abs(span - closest)
      invariant forall k :: 0 <= k < i ==> Better(closest, SPAN_TIERS[k], span)
      invariant closest == SPAN_TIERS[0] || (exists k :: 0 <= k < i && closest == SPAN_TIERS[k])
    {
      TiersAscend(i);
      var diff := Abs(span - SPAN_TIERS[i]);
      if diff < minDiff {
        minDiff := diff;
        closest := SPAN_TIERS[i];
      }
    }
  }

  /** There is only one nearest tier, a tier is its own, and a wider request never gets a narrower tier. */
  lemma SnapProperties(a: int, b: int, s: int, t: int)
    requires Nearest(s, a) && Nearest(t, b)
    ensures a == b ==> s == t
    ensures a in SPAN_TIERS ==> s == a
    ensures a <= b ==> s <= t
  {}

  /** The tiers, in Hertz. */
  lemma TierTable(t: int)
    ensures t in SPAN_TIERS <==>
            t == 2000 || t == 3000 || t == 4000 || t == 5000 || t == 7000 || t == 10000 || t == 15000 || t == 20000 ||
            t == 30000 || t == 50000 || t == 75000 || t == 100000 || t == 150000 || t == 200000 || t == 300000 || t == 500000
  {}

  /** Exactly which requests snap to a tier: from above the middle between it and the tier below, up to and including
      the middle between it and the tier above. */
  lemma SnapRange(i: nat, span: int)
    requires i < |SPAN_TIERS|
    ensures Nearest(SPAN_TIERS[i], span) <==>
            && (i > 0 ==> SPAN_TIERS[i - 1] + SPAN_TIERS[i] < 2 * span)
            && (i + 1 < |SPAN_TIERS| ==> 2 * span <= SPAN_TIERS[i] + SPAN_TIERS[i + 1])
  {
    hide Better;
    var s := SPAN_TIERS[i];
    if i > 0 {
      NeighboursBound(i, i - 1);
      BetterMeans(s, SPAN_TIERS[i - 1], span);
      assert SPAN_TIERS[i - 1] in SPAN_TIERS;
    }
    if i + 1 < |SPAN_TIERS| {
      NeighboursBound(i, i + 1);
      BetterMeans(s, SPAN_TIERS[i + 1], span);
      assert SPAN_TIERS[i + 1] in SPAN_TIERS;
    }
    if (i > 0 ==> SPAN_TIERS[i - 1] + s < 2 * span) && (i + 1 < |SPAN_TIERS| ==> 2 * span <= s + SPAN_TIERS[i + 1]) {
      forall t | t in SPAN_TIERS ensures Better(s, t, span) {
        var k :| 0 <= k < |SPAN_TIERS| && SPAN_TIERS[k] == t;
        NeighboursBound(i, k);
        BetterMeans(s, t, span);
      }
    }
  }

  /** Which of two tiers is nearer depends on the side of their middle. */
  lemma BetterMeans(s: int, t: int, span: int)
    ensures Better(s, t, span) <==> if t < s then s + t < 2 * span else t == s || 2 * span <= s + t
  {}

  lemma NeighboursBound(i: nat, k: nat)
    requires i < |SPAN_TIERS| && k < |SPAN_TIERS|
    ensures k < i ==> SPAN_TIERS[k] <= SPAN_TIERS[i - 1] < SPAN_TIERS[i]
    ensures k > i ==> SPAN_TIERS[i] < SPAN_TIERS[i + 1] <= SPAN_TIERS[k]
  {
    TiersAscend(i);
    TiersAscend(k);
    if k < i { TiersAscend(i - 1); }
    if k > i { TiersAscend(i + 1); }
  }

  // ----- Pixels and frequencies -----

  /** Integer division by 2 truncates toward zero. */
  function Half(x: int): int
  {
    if x >= 0 then x / 2 else -((-x) / 2)
  }

  function Ratio(x: real, y: real, w: real): real
    requires w != 0.0
  {
    x / w * y
  }

  /** `x / w * y` in reals, converted to an integer. */
  function Share(x: int, y: int, w: int): int
    requires w != 0
  {
    Truncate(Ratio(x as real, y as real, w as real))
  }

  function PixelToFreq(x: int, width: int, center: int, span: int): int
  {
    if width <= 0 then center else center - Half(span) + Share(x, span, width)
  }

  function FreqToPixel(hz: int, width: int, center: int, span: int): int
  {
    if span <= 0 then Half(width) else Share(hz - (center - Half(span)), width, span)
  }

  function ClampCenter(center: int, span: int, lower: int, upper: int): int
  {
    var minCenter, maxCenter := lower + Half(span), upper - Half(span);
    if minCenter > maxCenter then Half(lower + upper)
    else if center < minCenter then minCenter
    else if center > maxCenter then maxCenter
    else center
  }

  /** The clamped centre is the nearest one that keeps the span in the band; when there is none, the middle of
      the band. */
  lemma ClampIsNearest(center: int, span: int, lower: int, upper: int, x: int)
    ensures var c := ClampCenter(center, span, lower, upper);
            if lower + Half(span) <= upper - Half(span)
            then Shows(c, span, lower, upper) && (Shows(x, span, lower, upper) ==> Abs(c - center) <= Abs(x - center))
            else !Shows(x, span, lower, upper) && -1 <= (c - lower) - (upper - c) <= 1
  {
    assert -1 <= 2 * Half(lower + upper) - (lower + upper) <= 1;
  }

  /** The displayed range lies between the bounds. */
  predicate Shows(center: int, span: int, lower: int, upper: int)
  {
    lower <= center - Half(span) && center + Half(span) <= upper
  }

  lemma MulLess(a: real, b: real, c: real)
    requires a <= b && c >= 0.0
    ensures a * c <= b * c
  {}

  lemma Commute(x: real, y: real, w: real)
    requires w != 0.0
    ensures x / w * y == x * y / w
  {}

  lemma Fraction(r: real, w: real)
    requires 0.0 <= r < w
    ensures 0.0 <= r / w < 1.0
  {
    var f := r / w;
    assert f * w == r;
    if f >= 1.0 {
      MulLess(1.0, f, w);
      assert false;
    }
  }

  lemma FloorOfQuotient(a: int, w: int)
    requires w > 0
    ensures (a as real / w as real).Floor == a / w
  {
    var q := a / w;
    var r := a % w;
    assert a == q * w + r;
    assert a as real == q as real * w as real + r as real;
    var f := r as real / w as real;
    Fraction(r as real, w as real);
    assert a as real / w as real == q as real + f;
  }

  /** The exact integer quotient. */
  function Scaled(x: nat, y: nat, w: nat): nat
    requires w > 0
  {
    x * y / w
  }

  lemma ShareIsQuotient(x: nat, y: nat, w: nat)
    requires w > 0
    ensures Share(x, y, w) == Scaled(x, y, w)
  {
    Commute(x as real, y as real, w as real);
    assert x as real * y as real == (x * y) as real;
    FloorOfQuotient(x * y, w);
  }

  /** Half of an odd number is rounded towards zero. */
  lemma HalfTowardZero(x: int)
    ensures x >= 0 ==> 2 * Half(x) <= x <= 2 * Half(x) + 1
    ensures x <= 0 ==> 2 * Half(x) - 1 <= x <= 2 * Half(x)
  {}

  /** n is x rounded towards zero to a whole number. */
  predicate RoundsTowardZero(n: int, x: real)
  {
    (x >= 0.0 ==> 0.0 <= n as real <= x < n as real + 1.0) && (x <= 0.0 ==> n as real - 1.0 < x <= n as real <= 0.0)
  }

  /** The frequency of a pixel is the exact linear one from the left edge, rounded towards that edge to a whole Hertz;
      without a display it is the centre. */
  lemma TouchTolerance(x: int, width: int, center: int, span: int)
    ensures width > 0 ==>
              RoundsTowardZero(PixelToFreq(x, width, center, span) - (center - Half(span)), (x * span) as real / width as real)
    ensures width <= 0 ==> PixelToFreq(x, width, center, span) == center
  {
    if width > 0 {
      LinearShare(x, span, width);
    }
  }

  /** Likewise the pixel of a frequency; without a span it is the middle of the display. */
  lemma PixelTolerance(hz: int, width: int, center: int, span: int)
    ensures span > 0 ==>
              RoundsTowardZero(FreqToPixel(hz, width, center, span),
                               ((hz - (center - Half(span))) * width) as real / span as real)
    ensures span <= 0 ==> FreqToPixel(hz, width, center, span) == Half(width)
  {
    if span > 0 {
      LinearShare(hz - (center - Half(span)), width, span);
    }
  }

  lemma LinearShare(x: int, y: int, w: int)
    requires w > 0
    ensures RoundsTowardZero(Share(x, y, w), (x * y) as real / w as real)
  {
    Commute(x as real, y as real, w as real);
    assert x as real * y as real == (x * y) as real;
  }

  lemma Grow(y: int, x: int, s: int)
    requires y > x && s > 0
    ensures y * s >= x * s + s
  {
    Distribute(y, x, s);
    AtLeastOnce(y - x, s);
  }

  /** There and back through two rounded quotients. */
  lemma ThereAndBack(x: nat, s: nat, w: nat)
    requires s > 0 && w > 0
    ensures x - (w + s - 2) / s <= Scaled(Scaled(x, s, w), w, s) <= x
  {
    var a := x * s;
    var o := a / w;
    var b := o * w;
    var y := b / s;
    assert a - w < b <= a;
    assert y * s <= b < y * s + s;
    if y > x { Grow(y, x, s); }
    var e := (w + s - 2) / s;
    assert e * s > w - 2;
    if y < x - e {
      Grow(x - e, y, s);
      Distribute(x, e, s);
    }
  }

  /** Rounding is toward zero, so both sides of the left edge behave alike. */
  lemma ShareIsOdd(x: int, y: int, w: int)
    requires w != 0
    ensures Share(-x, y, w) == -Share(x, y, w)
  {
    var r := x as real / w as real;
    assert (-x) as real == -(x as real);
    assert (-(x as real)) / w as real == -r;
    assert -r * y as real == -(r * y as real);
  }

  /** Two shares there and back, on either side of the left edge. */
  lemma SharesThereAndBack(x: int, s: nat, w: nat)
    requires s > 0 && w > 0
    ensures var x' := Share(Share(x, s, w), w, s);
            var loss := (w + s - 2) / s;
            if x >= 0 then x - loss <= x' <= x else x <= x' <= x + loss
  {
    var n := Abs(x);
    var o := Scaled(n, s, w);
    ShareIsQuotient(n, s, w);
    ShareIsQuotient(o, w, s);
    ThereAndBack(n, s, w);
    if x < 0 {
      ShareIsOdd(n, s, w);
      ShareIsOdd(o, w, s);
    }
  }

  /** Pixel to frequency and back never moves a pixel away from the left edge, and moves it towards the edge by
      at most one when a pixel is at least a Hertz wide. */
  lemma PixelRoundTrip(x: int, width: nat, center: int, span: nat)
    requires width > 0 && span > 0
    ensures var x' := FreqToPixel(PixelToFreq(x, width, center, span), width, center, span);
            var loss := (width + span - 2) / span;
            && (if x >= 0 then x - loss <= x' <= x else x <= x' <= x + loss)
            && (span >= width ==> Abs(x' - x) <= 1)
  {
    SharesThereAndBack(x, span, width);
    AtMostOne(width, span);
  }

  lemma AtMostOne(w: nat, s: nat)
    requires w > 0 && s > 0
    ensures s >= w ==> (w + s - 2) / s <= 1
  {
    var e := (w + s - 2) / s;
    assert e * s <= w + s - 2;
    if e > 1 { Grow(e, 1, s); }
  }

  /** Frequency to pixel and back loses less than the width of a pixel, towards the left edge. */
  lemma FreqRoundTrip(hz: int, width: nat, center: int, span: nat)
    requires width > 0 && span > 0
    ensures var hz' := PixelToFreq(FreqToPixel(hz, width, center, span), width, center, span);
            var loss := (span + width - 2) / width;
            if hz >= center - Half(span) then hz - loss <= hz' <= hz else hz <= hz' <= hz + loss
  {
    SharesThereAndBack(hz - (center - Half(span)), width, span);
  }

  /** Truncation toward zero is monotone, and so is every conversion to pixels or Hertz built on it. */
  lemma TruncateMonotone(a: real, b: real)
    requires a <= b
    ensures Truncate(a) <= Truncate(b)
  {}

  lemma RatioMonotone(a: real, b: real, s: real, w: real)
    requires a <= b && w > 0.0
    ensures s >= 0.0 ==> Ratio(a, s, w) <= Ratio(b, s, w)
    ensures s <= 0.0 ==> Ratio(a, s, w) >= Ratio(b, s, w)
  {
    var unit := 1.0 / w;
    assert a / w == a * unit && b / w == b * unit;
    MulLess(a, b, unit);
    if s >= 0.0 { MulLess(a / w, b / w, s); }
    if s <= 0.0 { MulGreater(a / w, b / w, s); }
  }

  lemma MulGreater(a: real, b: real, c: real)
    requires a <= b && c <= 0.0
    ensures a * c >= b * c
  {
    MulLess(a, b, -c);
    assert a * -c == -(a * c) && b * -c == -(b * c);
  }

  lemma ShareMonotone(x: int, y: int, s: int, w: nat)
    requires x <= y && w > 0
    ensures s >= 0 ==> Share(x, s, w) <= Share(y, s, w)
    ensures s <= 0 ==> Share(x, s, w) >= Share(y, s, w)
  {
    hide Ratio;
    var p, q := Ratio(x as real, s as real, w as real), Ratio(y as real, s as real, w as real);
    RatioMonotone(x as real, y as real, s as real, w as real);
    if p <= q { TruncateMonotone(p, q); }
    if q <= p { TruncateMonotone(q, p); }
  }

  /** Further right is never a lower frequency, on the display or off it; a negative span turns the axis round. */
  lemma PixelMonotone(x: int, y: int, width: int, center: int, span: int)
    requires x <= y
    ensures span >= 0 ==> PixelToFreq(x, width, center, span) <= PixelToFreq(y, width, center, span)
    ensures span <= 0 ==> PixelToFreq(x, width, center, span) >= PixelToFreq(y, width, center, span)
  {
    if width > 0 { ShareMonotone(x, y, span, width); }
  }

  /** A higher frequency is never further left, displayed or not; a negative width turns the axis round. */
  lemma FreqMonotone(f: int, g: int, width: int, center: int, span: int)
    requires f <= g
    ensures width >= 0 ==> FreqToPixel(f, width, center, span) <= FreqToPixel(g, width, center, span)
    ensures width <= 0 ==> FreqToPixel(f, width, center, span) >= FreqToPixel(g, width, center, span)
  {
    if span > 0 {
      ShareMonotone(f - (center - Half(span)), g - (center - Half(span)), width, span);
    }
  }

  lemma Whole(w: nat, s: nat)
    requires w > 0
    ensures Scaled(0, s, w) == 0 && Scaled(w, s, w) == s
  {
    ModUnique(w * s, w, s, 0);
  }

  /** The first pixel shows the left edge of the span, the last its right edge. */
  lemma Edges(width: nat, center: int, span: nat)
    requires width > 0
    ensures PixelToFreq(0, width, center, span) == center - Half(span)
    ensures PixelToFreq(width, width, center, span) == center - Half(span) + span
  {
    ShareIsQuotient(0, span, width);
    ShareIsQuotient(width, span, width);
    Whole(width, span);
  }

  lemma BandsEven(b: Band)
    requires b in BANDS
    ensures b.lower % 2 == 0 && b.upper % 2 == 0 && 0 < b.lower < b.upper
  {}

  lemma TiersEven(t: int)
    requires t in SPAN_TIERS
    ensures t % 2 == 0 && t > 0
  {}

  /** With a span tier that fits the band, no touch on the clamped spectrum leaves the band, whatever centre
      was asked for; with one that does not fit, some touch does. */
  lemma TouchStaysInBand(b: Band, span: int, request: int, width: nat)
    requires b in BANDS && span in SPAN_TIERS && width > 0
    ensures (forall x :: 0 <= x <= width ==>
               BandId(PixelToFreq(x, width, ClampCenter(request, span, b.lower, b.upper), span)) == b.id)
       <==> span <= b.upper - b.lower
  {
    BandsEven(b);
    TiersEven(span);
    var center := ClampCenter(request, span, b.lower, b.upper);
    Edges(width, center, span);
    forall x | 0 <= x <= width
      ensures BandId(PixelToFreq(x, width, center, span)) == b.id <==> Within(PixelToFreq(x, width, center, span), b)
    {
      BandConsistency(PixelToFreq(x, width, center, span));
    }
    if span <= b.upper - b.lower {
      forall x | 0 <= x <= width ensures Within(PixelToFreq(x, width, center, span), b) {
        PixelMonotone(0, x, width, center, span);
        PixelMonotone(x, width, width, center, span);
      }
    } else {
      assert !Within(PixelToFreq(0, width, center, span), b);
    }
  }
}
