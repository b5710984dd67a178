/** The LMS noise filter.  Floats are modelled as reals; every sum is taken in the code's order.

    `Weights` and `Output` are the textbook recursion on the whole input history; the object keeps
    the history in a circular delay line. */
module NrLms {
  import opened Basics
  import opened Words
  import opened Spsc

  // ----- The filter on its input history -----

  /** The input j samples ago, 0 before the start. */
  function Tap(xs: seq<real>, j: nat): real
  {
    if j < |xs| then xs[|xs| - 1 - j] else 0.0
  }

  function Estimate(w: seq<real>, xs: seq<real>, k: nat): real
    requires k <= |w|
  {
    if k == 0 then 0.0 else Estimate(w, xs, k - 1) + w[k - 1] * Tap(xs, k - 1)
  }

  /** The desired signal is the input delayed by half the filter. */
  function Error(w: seq<real>, xs: seq<real>): real
  {
    Tap(xs, |w| / 2) - Estimate(w, xs, |w|)
  }

  function NormFactor(mu: real, taps: nat): (r: real)
    requires mu > 0.0
    ensures r > 0.0 && r * (1.0 + mu * taps as real) == mu
  {
    mu / (1.0 + mu * taps as real)
  }

  function Gain(w: seq<real>, xs: seq<real>, mu: real): real
    requires mu > 0.0
  {
    StepGain(Error(w, xs), |w|, mu)
  }

  function StepGain(error: real, taps: nat, mu: real): real
    requires mu > 0.0
  {
    NormFactor(mu, taps) * error
  }

  function Adapted(w: seq<real>, xs: seq<real>, gain: real): (w': seq<real>)
    ensures |w'| == |w|
  {
    seq(|w|, j requires 0 <= j < |w| => w[j] + gain * Tap(xs, j))
  }

  function Learn(w: seq<real>, xs: seq<real>, mu: real): (w': seq<real>)
    requires mu > 0.0
    ensures |w'| == |w|
  {
    Adapted(w, xs, Gain(w, xs, mu))
  }

  function Zeros(n: nat): seq<real>
  {
    seq(n, _ => 0.0)
  }

  /** The weights after the inputs xs. */
  function Weights(xs: seq<real>, taps: nat, mu: real): (w: seq<real>)
    requires mu > 0.0
    ensures |w| == taps
  {
    if xs == [] then Zeros(taps)
    else Learn(Weights(xs[..|xs| - 1], taps, mu), xs, mu)
  }

  /** The output for the last of the inputs xs. */
  function Output(xs: seq<real>, taps: nat, mu: real): real
    requires mu > 0.0 && xs != []
  {
    Error(Weights(xs[..|xs| - 1], taps, mu), xs)
  }

  // ----- 16-bit samples -----

  function FromSample(s: Sample): real
  {
    s as real / 32768.0
  }

  function Clamp(x: real): real
  {
    if x < -1.0 then -1.0 else if x > 1.0 then 1.0 else x
  }

  function ToSample(x: real): Sample
  {
    Truncate(Clamp(x) * 32767.0)
  }

  /** A sample that only passes through both conversions loses one step towards zero, and no output is -32768. */
  lemma ConversionsLoseOneStep(s: Sample, x: real)
    ensures ToSample(FromSample(s)) == if s > 0 then s - 1 else if s < 0 then s + 1 else 0
    ensures -0x7FFF <= ToSample(x) <= 0x7FFF
  {
    var y := FromSample(s) * 32767.0;
    assert y == s as real - FromSample(s);
    if s < 0 {
      assert (-y).Floor == -(s as int) - 1;
    } else if s > 0 {
      assert y.Floor == s as int - 1;
    }
  }

  function Inputs(block: seq<Sample>): (xs: seq<real>)
    ensures |xs| == |block|
    ensures forall i :: 0 <= i < |xs| ==> 32768.0 * xs[i] == block[i] as real
  {
    seq(|block|, i requires 0 <= i < |block| => FromSample(block[i]))
  }

  /** The block that replaces `block` after the inputs `history`. */
  function Denoised(history: seq<real>, block: seq<Sample>, taps: nat, mu: real): (r: seq<Sample>)
    requires mu > 0.0
    ensures |r| == |block|
    decreases |block|
  {
    if block == [] then []
    else
      Denoised(history, block[..|block| - 1], taps, mu) + [ToSample(Output(history + Inputs(block), taps, mu))]
  }

  /** A sample written for the filter output x: saturated beyond full scale, otherwise 32767 * x rounded towards 0. */
  predicate Written(s: Sample, x: real)
  {
    && (s == 32767 <==> x >= 1.0)
    && (s == -32767 <==> x <= -1.0)
    && (0.0 <= x <= 1.0 ==> 0.0 <= s as real <= 32767.0 * x < s as real + 1.0)
    && (-1.0 <= x <= 0.0 ==> s as real - 1.0 < 32767.0 * x <= s as real <= 0.0)
  }

  lemma SaturatesAndRounds(x: real)
    ensures Written(ToSample(x), x)
  {
    var c := Clamp(x);
    assert Truncate(32767.0) == 32767 && Truncate(-32767.0) == -32767;
    if -1.0 < x < 1.0 {
      assert -32767.0 < c * 32767.0 < 32767.0;
    }
  }

  /** No smaller output becomes a larger sample. */
  lemma ConversionMonotone(x: real, y: real)
    requires x <= y
    ensures ToSample(x) <= ToSample(y)
  {
    SaturatesAndRounds(x);
    SaturatesAndRounds(y);
    hide ToSample;
  }

  lemma DenoisedLast(history: seq<real>, block: seq<Sample>, taps: nat, mu: real)
    requires mu > 0.0 && block != []
    ensures Denoised(history, block, taps, mu)
         == Denoised(history, block[..|block| - 1], taps, mu) + [ToSample(Output(history + Inputs(block), taps, mu))]
  {
    hide Output, Inputs;
  }

  /** Sample by sample: what stands in a denoised block. */
  lemma {:induction false} DenoisedAt(history: seq<real>, block: seq<Sample>, i: nat, taps: nat, mu: real)
    requires mu > 0.0 && i < |block|
    ensures Written(Denoised(history, block, taps, mu)[i], Output(history + Inputs(block[..i + 1]), taps, mu))
    decreases |block|
  {
    hide ToSample, Output, Inputs, Written, Denoised;
    var front := block[..|block| - 1];
    DenoisedLast(history, block, taps, mu);
    if i < |front| {
      DenoisedAt(history, front, i, taps, mu);
      assert front[..i + 1] == block[..i + 1];
    } else {
      assert block[..i + 1] == block;
      SaturatesAndRounds(Output(history + Inputs(block), taps, mu));
    }
  }

  // ----- Properties of the filter -----

  lemma DenoisedStep(history: seq<real>, block: seq<Sample>, i: nat, taps: nat, mu: real)
    requires mu > 0.0 && i < |block|
    ensures var input := FromSample(block[i]);
            var xs := history + Inputs(block[..i]) + [input];
            && history + Inputs(block[..i + 1]) == xs
            && Denoised(history, block[..i + 1], taps, mu)
               == Denoised(history, block[..i], taps, mu) + [ToSample(Output(xs, taps, mu))]
  {
    assert block[..i + 1][..i] == block[..i];
    assert Inputs(block[..i + 1]) == Inputs(block[..i]) + [FromSample(block[i])];
    assert history + Inputs(block[..i + 1]) == history + Inputs(block[..i]) + [FromSample(block[i])];
  }

  lemma InputsSplit(a: seq<Sample>, b: seq<Sample>)
    ensures Inputs(a + b) == Inputs(a) + Inputs(b)
  {}

  /** How the stream is cut into blocks does not matter. */
  lemma {:induction false} BlockSplit(history: seq<real>, a: seq<Sample>, b: seq<Sample>, taps: nat, mu: real)
    requires mu > 0.0
    ensures Denoised(history, a + b, taps, mu)
         == Denoised(history, a, taps, mu) + Denoised(history + Inputs(a), b, taps, mu)
    decreases |b|
  {
    if b == [] {
      assert a + b == a;
    } else {
      var b' := b[..|b| - 1];
      assert (a + b)[..|a + b| - 1] == a + b';
      BlockSplit(history, a, b', taps, mu);
      InputsSplit(a, b);
      var xs := history + Inputs(a + b);
      assert xs == history + Inputs(a) + Inputs(b);
      var last := [ToSample(Output(xs, taps, mu))];
      assert Denoised(history, a + b, taps, mu) == Denoised(history, a + b', taps, mu) + last;
    }
  }

  function Energy(xs: seq<real>, k: nat): real
  {
    if k == 0 then 0.0 else Energy(xs, k - 1) + Tap(xs, k - 1) * Tap(xs, k - 1)
  }

  lemma MulMonotone(a: real, b: real, c: real)
    requires a >= 0.0 && b <= c
    ensures a * b <= a * c
  {}

  lemma MulNonNegative(a: real, b: real)
    requires a >= 0.0 && b >= 0.0
    ensures a * b >= 0.0
  {}

  lemma Square(x: real)
    requires -1.0 <= x <= 1.0
    ensures 0.0 <= x * x <= 1.0
  {
    var y := if x < 0.0 then -x else x;
    assert x * x == y * y;
    assert y * y >= 0.0 by { MulNonNegative(y, y); }
    assert y * y <= y by { MulMonotone(y, y, 1.0); }
  }

  lemma {:induction false} EnergyBound(xs: seq<real>, k: nat)
    requires forall i :: 0 <= i < |xs| ==> -1.0 <= xs[i] <= 1.0
    ensures 0.0 <= Energy(xs, k) <= k as real
  {
    if k > 0 {
      EnergyBound(xs, k - 1);
      Square(Tap(xs, k - 1));
    }
  }

  /** What adapting by the gain g adds to the estimate of the same input. */
  function Shift(xs: seq<real>, g: real, k: nat): real
  {
    g * Energy(xs, k)
  }

  lemma {:induction false} EstimateShift(w: seq<real>, xs: seq<real>, g: real, k: nat)
    requires k <= |w|
    ensures Estimate(Adapted(w, xs, g), xs, k) == Estimate(w, xs, k) + Shift(xs, g, k)
  {
    if k > 0 {
      EstimateShift(w, xs, g, k - 1);
      LearntTerm(Estimate(w, xs, k - 1), w[k - 1], g, Energy(xs, k - 1), Tap(xs, k - 1));
    }
  }

  lemma LearntTerm(sum: real, w: real, g: real, e: real, t: real)
    ensures sum + g * e + (w + g * t) * t == sum + w * t + g * (e + t * t)
  {
    assert (w + g * t) * t == w * t + g * (t * t);
    assert g * (e + t * t) == g * e + g * (t * t);
  }

  function Times(a: real, b: real): real
  {
    a * b
  }

  /** n is the step size mu, normalised for t taps. */
  predicate Normalised(n: real, mu: real, t: real)
  {
    n > 0.0 && mu > 0.0 && t >= 0.0 && n * (1.0 + mu * t) == mu
  }

  lemma NormIsNormalised(mu: real, taps: nat)
    requires mu > 0.0
    ensures Normalised(NormFactor(mu, taps), mu, taps as real)
  {}

  /** The share of the error that one learning step leaves. */
  function Residue(xs: seq<real>, taps: nat, mu: real): real
    requires mu > 0.0
  {
    1.0 - Times(NormFactor(mu, taps), Energy(xs, taps))
  }

  /** One learning step, judged on the input it learnt from: the error keeps its sign and never grows.
      This is what the normalisation of the step size is for. */
  lemma LearningContracts(w: seq<real>, xs: seq<real>, mu: real)
    requires mu > 0.0
    requires forall i :: 0 <= i < |xs| ==> -1.0 <= xs[i] <= 1.0
    ensures 0.0 < Residue(xs, |w|, mu) <= 1.0
    ensures Error(Learn(w, xs, mu), xs) == Residue(xs, |w|, mu) * Error(w, xs)
  {
    ResidueBounds(xs, |w|, mu);
    ErrorAfter(w, xs, Gain(w, xs, mu));
    ShareOfError(w, xs, mu);
  }

  lemma ShareOfError(w: seq<real>, xs: seq<real>, mu: real)
    requires mu > 0.0
    ensures Error(w, xs) - Shift(xs, Gain(w, xs, mu), |w|) == Residue(xs, |w|, mu) * Error(w, xs)
  {
    Regroup(NormFactor(mu, |w|), Error(w, xs), Energy(xs, |w|));
  }

  lemma ErrorAfter(w: seq<real>, xs: seq<real>, g: real)
    ensures Error(Adapted(w, xs, g), xs) == Error(w, xs) - Shift(xs, g, |w|)
  {
    EstimateShift(w, xs, g, |w|);
  }

  lemma ResidueBounds(xs: seq<real>, taps: nat, mu: real)
    requires mu > 0.0
    requires forall i :: 0 <= i < |xs| ==> -1.0 <= xs[i] <= 1.0
    ensures 0.0 < Residue(xs, taps, mu) <= 1.0
  {
    hide NormFactor, Energy, Times, Normalised;
    EnergyBound(xs, taps);
    NormIsNormalised(mu, taps);
    Contract(NormFactor(mu, taps), Energy(xs, taps), taps as real, mu);
  }

  lemma Contract(norm: real, energy: real, taps: real, mu: real)
    requires Normalised(norm, mu, taps) && 0.0 <= energy <= taps
    ensures 0.0 < 1.0 - Times(norm, energy) <= 1.0
  {
    MulNonNegative(norm, energy);
    MulMonotone(norm, energy, taps);
    NormBelowOne(norm, mu, taps);
    RestOfShare(norm * energy, norm * taps);
  }

  lemma RestOfShare(p: real, q: real)
    requires 0.0 <= p <= q < 1.0
    ensures 0.0 < 1.0 - p <= 1.0
  {}

  lemma Regroup(norm: real, e: real, energy: real)
    ensures e - norm * e * energy == (1.0 - norm * energy) * e
  {
    assert norm * e * energy == (norm * energy) * e;
  }

  lemma NormBelowOne(norm: real, mu: real, taps: real)
    requires norm > 0.0 && mu > 0.0 && norm * (1.0 + mu * taps) == mu
    ensures norm * taps < 1.0
  {
    assert norm * (1.0 + mu * taps) == norm + mu * (norm * taps);
    if norm * taps >= 1.0 {
      MulMonotone(mu, 1.0, norm * taps);
      assert false;
    }
  }

  /** The filter is silent for its first taps/2 inputs, then starts with the very first input, unchanged. */
  lemma {:induction false} SilentStart(xs: seq<real>, taps: nat, mu: real)
    requires mu > 0.0 && xs != []
    requires |xs| <= taps / 2 + 1
    ensures Weights(xs[..|xs| - 1], taps, mu) == Zeros(taps)
    ensures Output(xs, taps, mu) == if |xs| == taps / 2 + 1 then xs[0] else 0.0
  {
    var ys := xs[..|xs| - 1];
    if ys != [] {
      SilentStart(ys, taps, mu);
      var w := Weights(ys[..|ys| - 1], taps, mu);
      assert Error(w, ys) == 0.0 && Gain(w, ys, mu) == 0.0;
      assert Learn(w, ys, mu) == Zeros(taps);
    }
    ZeroEstimate(xs, taps, taps);
  }

  lemma {:induction false} ZeroEstimate(xs: seq<real>, taps: nat, k: nat)
    requires k <= taps
    ensures Estimate(Zeros(taps), xs, k) == 0.0
  {
    if k > 0 { ZeroEstimate(xs, taps, k - 1); }
  }

  // ----- The object -----

  /** `(i - j + taps) % taps` */
  function Back(i: nat, j: nat, taps: nat): (r: nat)
    requires i < taps && j < taps
    ensures r == if i >= j then i - j else i - j + taps
  {
    ModUnique(i - j + taps, taps, if i >= j then 1 else 0, if i >= j then i - j else i - j + taps);
    (i - j + taps) % taps
  }

  function Next(i: nat, taps: nat): (r: nat)
    requires i < taps
    ensures r == if i + 1 < taps then i + 1 else 0
  {
    ModUnique(i + 1, taps, if i + 1 < taps then 0 else 1, if i + 1 < taps then i + 1 else 0);
    (i + 1) % taps
  }

  class Filter {
    var enabled: bool
    var level: int
    var taps: nat
    var mu: real
    var weights: array<real>
    var delayLine: array<real>
    var delayIndex: nat

    ghost var history: seq<real>  // every input since the last SetLevel or Reset

    ghost predicate Shape()
      reads this
    {
      1 <= level <= 10 && taps == 32 + level * 8 && mu == 0.005 + level as real * 0.003 &&
      weights.Length == delayLine.Length == taps && weights != delayLine && delayIndex < taps
    }

    /** Slot by slot: the delay line holds the last `taps` inputs, the newest just before the index. */
    ghost predicate Valid()
      reads this, weights, delayLine
    {
      Shape() &&
      (forall j :: 0 <= j < taps ==> delayLine[Back(Back(delayIndex, 1, taps), j, taps)] == Tap(history, j)) &&
      weights[..] == Weights(history, taps, mu)
    }

    constructor ()
      ensures Valid() && history == [] && !enabled && level == 5
      ensures taps == 72 && mu == 0.02
      ensures fresh(weights) && fresh(delayLine)
    {
      enabled := false;
      level, taps, mu := 5, 72, 0.02;
      weights := new real[72](_ => 0.0);
      delayLine := new real[72](_ => 0.0);
      delayIndex := 0;
      history := [];
    }

    method SetLevel(level: int)
      modifies this
      ensures Valid() && history == [] && enabled == old(enabled)
      ensures this.level == if level < 1 then 1 else if level > 10 then 10 else level
      ensures taps == 32 + 8 * this.level && 1000.0 * mu == 5.0 + 3.0 * this.level as real
      ensures fresh(weights) && fresh(delayLine)
    {
      this.level := if level < 1 then 1 else if level > 10 then 10 else level;
      taps := 32 + this.level * 8;
      mu := 0.005 + this.level as real * 0.003;
      weights := new real[taps](_ => 0.0);
      delayLine := new real[taps](_ => 0.0);
      delayIndex := 0;
      history := [];
    }

    method Reset()
      requires Valid()
      modifies this`delayIndex, this`history, weights, delayLine
      ensures Valid() && history == []
    {
      forall i | 0 <= i < taps { weights[i] := 0.0; }
      forall i | 0 <= i < taps { delayLine[i] := 0.0; }
      delayIndex := 0;
      history := [];
    }

    /** The delay line right after a sample is stored and before the index moves on. */
    ghost predicate Holds(xs: seq<real>)
      reads this, delayLine
    {
      Shape() && forall j :: 0 <= j < taps ==> delayLine[Back(delayIndex, j, taps)] == Tap(xs, j)
    }

    method ProcessSample(input: real) returns (error: real)
      requires Valid()
      modifies this`delayIndex, this`history, weights, delayLine
      ensures Valid() && history == old(history) + [input]
      ensures error == Output(history, taps, mu)
    {
      ghost var xs, w := history + [input], weights[..];
      ghost var out := Output(xs, taps, mu);
      assert xs[..|xs| - 1] == history;
      Store(input);
      var estimated := Estimated(xs);
      var desired := delayLine[Back(delayIndex, taps / 2, taps)];
      error := desired - estimated;
      assert error == Error(w, xs) == out;
      Adapt(error, xs);
      assert weights[..] == Weights(xs, taps, mu);
      Advance(xs);
    }

    method Advance(ghost xs: seq<real>)
      requires Holds(xs) && weights[..] == Weights(xs, taps, mu)
      modifies this`delayIndex, this`history
      ensures Valid() && history == xs
    {
      ghost var at := delayIndex;
      delayIndex := Next(delayIndex, taps);
      history := xs;
      assert Back(delayIndex, 1, taps) == at;
    }

    method Store(input: real)
      requires Valid()
      modifies delayLine
      ensures Holds(history + [input]) && weights[..] == old(weights[..])
    {
      delayLine[delayIndex] := input;
      forall j | 0 <= j < taps ensures delayLine[Back(delayIndex, j, taps)] == Tap(history + [input], j) {
        if j > 0 { assert Back(Back(delayIndex, 1, taps), j - 1, taps) == Back(delayIndex, j, taps); }
      }
    }

    method Estimated(ghost xs: seq<real>) returns (sum: real)
      requires Holds(xs)
      ensures sum == Estimate(weights[..], xs, taps)
    {
      sum := 0.0;
      for j := 0 to taps
        invariant sum == Estimate(weights[..], xs, j)
      {
        sum := sum + weights[j] * delayLine[Back(delayIndex, j, taps)];
      }
    }

    method Adapt(error: real, ghost xs: seq<real>)
      requires Holds(xs)
      requires error == Error(weights[..], xs)
      modifies weights
      ensures Holds(xs) && weights[..] == Learn(old(weights[..]), xs, mu)
    {
      var gain := StepGain(error, taps, mu);
      AdaptBy(gain, xs);
    }

    method AdaptBy(gain: real, ghost xs: seq<real>)
      requires Holds(xs)
      modifies weights
      ensures Holds(xs) && weights[..] == Adapted(old(weights[..]), xs, gain)
    {
      ghost var w' := Adapted(weights[..], xs, gain);
      for j := 0 to taps
        invariant Holds(xs)
        invariant forall i :: 0 <= i < j ==> weights[i] == w'[i]
        invariant forall i :: j <= i < taps ==> weights[i] == old(weights[i])
      {
        weights[j] := weights[j] + gain * delayLine[Back(delayIndex, j, taps)];
      }
    }

    method Process(samples: array<Sample>, count: int)
      requires Valid() && count <= samples.Length
      modifies this`delayIndex, this`history, weights, delayLine, samples
      ensures Valid()
      ensures !enabled || count <= 0 ==> history == old(history) && samples[..] == old(samples[..])
      ensures enabled && count > 0 ==>
                && history == old(history) + Inputs(old(samples[..count]))
                && samples[..count] == Denoised(old(history), old(samples[..count]), taps, mu)
                && samples[count..] == old(samples[count..])
                && forall i :: 0 <= i < count ==>
                     Written(samples[i], Output(old(history) + Inputs(old(samples[..count])[..i + 1]), taps, mu))
    {
      if !enabled || count <= 0 { return; }
      ghost var was, before := samples[..], history;
      for i := 0 to count
        invariant Valid() && history == before + Inputs(was[..i])
        invariant samples[..i] == Denoised(before, was[..i], taps, mu)
        invariant samples[i..] == was[i..]
      {
        ProcessAt(samples, i, was, before);
      }
      forall i | 0 <= i < count
        ensures Written(samples[i], Output(before + Inputs(was[..count][..i + 1]), taps, mu))
      {
        DenoisedAt(before, was[..count], i, taps, mu);
        assert samples[i] == samples[..count][i];
      }
    }

    /** Replaces one sample. */
    method ProcessAt(samples: array<Sample>, i: nat, ghost was: seq<Sample>, ghost before: seq<real>)
      requires Valid() && i < samples.Length == |was| && samples[i..] == was[i..]
      requires history == before + Inputs(was[..i])
      requires samples[..i] == Denoised(before, was[..i], taps, mu)
      modifies this`delayIndex, this`history, weights, delayLine, samples
      ensures Valid() && history == before + Inputs(was[..i + 1])
      ensures samples[..i + 1] == Denoised(before, was[..i + 1], taps, mu)
      ensures samples[i + 1..] == was[i + 1..]
    {
      hide Output, Weights, ToSample, Tap, Denoised, Inputs, FromSample;
      assert samples[i] == was[i];
      var output := ProcessSample(FromSample(samples[i]));
      samples[i] := ToSample(output);
      DenoisedStep(before, was, i, taps, mu);
    }
  }
}
