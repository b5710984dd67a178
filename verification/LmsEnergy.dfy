/** Where the energy of the LMS filter goes, over a whole stream of inputs since the last reset.

    Every input splits into what the filter outputs, what it estimates, and what it stores in its weights.  The
    desired signal is itself one of the filter's taps, and from that follow two bounds on the output: it never has
    more energy than the input, and there is a limit to its total energy that no stream can exceed. */
module LmsEnergy {
  import opened Basics
  import opened Spsc
  import opened NrLms

  // ----- Sums over a stream -----

  function Squared(x: real): real
  {
    x * x
  }

  function Last(xs: seq<real>): seq<real>
    requires xs != []
  {
    xs[..|xs| - 1]
  }

  function InputEnergy(xs: seq<real>): real
  {
    if xs == [] then 0.0 else InputEnergy(Last(xs)) + Squared(xs[|xs| - 1])
  }

  function Desired(xs: seq<real>, taps: nat): real
  {
    Tap(xs, taps / 2)
  }

  /** Energy of the delayed inputs, the signal the filter is to clean. */
  function DesiredEnergy(xs: seq<real>, taps: nat): real
  {
    if xs == [] then 0.0 else DesiredEnergy(Last(xs), taps) + Squared(Desired(xs, taps))
  }

  function OutputEnergy(xs: seq<real>, taps: nat, mu: real): real
    requires mu > 0.0
  {
    if xs == [] then 0.0 else OutputEnergy(Last(xs), taps, mu) + Squared(Output(xs, taps, mu))
  }

  /** What the filter subtracts from the last of the inputs. */
  function Estimated(xs: seq<real>, taps: nat, mu: real): real
    requires mu > 0.0 && xs != []
  {
    Estimate(Weights(Last(xs), taps, mu), xs, taps)
  }

  function EstimateEnergy(xs: seq<real>, taps: nat, mu: real): real
    requires mu > 0.0
  {
    if xs == [] then 0.0 else EstimateEnergy(Last(xs), taps, mu) + Squared(Estimated(xs, taps, mu))
  }

  /** Output energy, each sample weighted with the share of its error that learning from it leaves. */
  function ResidualEnergy(xs: seq<real>, taps: nat, mu: real): real
    requires mu > 0.0
  {
    if xs == [] then 0.0
    else ResidualEnergy(Last(xs), taps, mu) + Times(Residue(xs, taps, mu), Squared(Output(xs, taps, mu)))
  }

  function WeightEnergy(w: seq<real>, k: nat): real
    requires k <= |w|
  {
    if k == 0 then 0.0 else WeightEnergy(w, k - 1) + Squared(w[k - 1])
  }

  // ----- Products -----

  lemma TimesLaws(a: real, b: real, c: real)
    ensures Times(a, 0.0) == 0.0
    ensures Times(a, b + c) == Times(a, b) + Times(a, c)
    ensures Times(Times(a, b), c) == Times(a, Times(b, c))
    ensures Times(b, Times(a, c)) == Times(a, Times(b, c))
  {}

  lemma SquareOfSum(a: real, b: real)
    ensures Squared(a + b) == Squared(a) + 2.0 * Times(a, b) + Squared(b)
  {}

  lemma SquareOfProduct(a: real, b: real)
    ensures Squared(Times(a, b)) == Times(Squared(a), Squared(b))
  {
    assert (a * b) * (a * b) == (a * a) * (b * b);
  }

  // The products in the filter's definitions, by name.

  lemma AdaptedAt(w: seq<real>, xs: seq<real>, g: real, j: nat)
    requires j < |w|
    ensures Adapted(w, xs, g)[j] == w[j] + Times(g, Tap(xs, j))
  {}

  lemma GainIsScaledError(w: seq<real>, xs: seq<real>, mu: real)
    requires mu > 0.0
    ensures Gain(w, xs, mu) == Times(NormFactor(mu, |w|), Error(w, xs))
  {}

  lemma ResidueIsRest(xs: seq<real>, taps: nat, mu: real)
    requires mu > 0.0
    ensures Residue(xs, taps, mu) == 1.0 - Times(NormFactor(mu, taps), Energy(xs, taps))
  {}

  lemma EstimateStep(w: seq<real>, xs: seq<real>, k: nat)
    requires 0 < k <= |w|
    ensures Estimate(w, xs, k) == Estimate(w, xs, k - 1) + Times(w[k - 1], Tap(xs, k - 1))
    ensures Energy(xs, k) == Energy(xs, k - 1) + Squared(Tap(xs, k - 1))
  {
    hide Tap;
  }

  // ----- One step -----

  /** What adapting with the gain g adds to the energy of the weights, y being the estimate and a the energy in the
      delay line. */
  function Stored(g: real, y: real, a: real): real
  {
    2.0 * Times(g, y) + Times(Squared(g), a)
  }

  lemma {:induction false} AdaptedEnergy(w: seq<real>, xs: seq<real>, g: real, k: nat)
    requires k <= |w|
    ensures WeightEnergy(Adapted(w, xs, g), k) == WeightEnergy(w, k) + Stored(g, Estimate(w, xs, k), Energy(xs, k))
  {
    if k == 0 {
      TimesLaws(g, 0.0, 0.0);
      TimesLaws(Squared(g), 0.0, 0.0);
    } else {
      hide Times, Squared, Stored, Tap, Estimate, Energy, Adapted;
      AdaptedEnergy(w, xs, g, k - 1);
      AdaptedAt(w, xs, g, k - 1);
      EstimateStep(w, xs, k);
      AdaptedTerm(w[k - 1], Tap(xs, k - 1), g, Estimate(w, xs, k - 1), Energy(xs, k - 1));
    }
  }

  lemma AdaptedTerm(w: real, t: real, g: real, y: real, a: real)
    ensures Stored(g, y, a) + Squared(w + Times(g, t)) == Squared(w) + Stored(g, y + Times(w, t), a + Squared(t))
  {
    hide Times, Squared;
    SquareOfSum(w, Times(g, t));
    SquareOfProduct(g, t);
    TimesLaws(g, w, t);
    TimesLaws(g, y, Times(w, t));
    TimesLaws(Squared(g), a, Squared(t));
  }

  /** The books of one step, with e the output, y the estimate, a the energy in the delay line, r the residue and
      v, v' the energies of the weights before and after. */
  lemma StepBalance(n: real, e: real, y: real, a: real, r: real, v: real, v': real)
    requires v' == v + Stored(Times(n, e), y, a) && r == 1.0 - Times(n, a)
    ensures Times(n, Times(r, Squared(e)) + Squared(y)) + v' == v + Times(n, Squared(e + y))
  {
    ResidualPart(n, e, a, r);
    hide Times, Squared;
    SquareOfSum(e, y);
    TimesLaws(n, e, y);
    TimesLaws(n, Times(r, Squared(e)), Squared(y));
    TimesLaws(n, Squared(e) + 2.0 * Times(e, y), Squared(y));
    TimesLaws(n, Squared(e), Times(e, y) + Times(e, y));
    TimesLaws(n, Times(e, y), Times(e, y));
  }

  lemma ResidualPart(n: real, e: real, a: real, r: real)
    requires r == 1.0 - Times(n, a)
    ensures Times(n, Times(r, Squared(e))) == Times(n, Squared(e)) - Times(Squared(Times(n, e)), a)
  {
    var ee := e * e;
    assert (n * e) * (n * e) * a == n * (n * a * ee);
    assert (1.0 - n * a) * ee == ee - n * a * ee;
    assert n * (ee - n * a * ee) == n * ee - n * (n * a * ee);
  }

  lemma Accumulate(n: real, r: real, y: real, d: real, r': real, y': real, d': real, v: real, v': real)
    requires Times(n, r + y) + v == Times(n, d) && Times(n, r' + y') + v' == v + Times(n, d')
    ensures Times(n, (r + r') + (y + y')) + v' == Times(n, d + d')
  {
    assert n * ((r + r') + (y + y')) == n * (r + y) + n * (r' + y');
    assert n * (d + d') == n * d + n * d';
  }

  /** The energy of the weights after one more input. */
  lemma StoredEnergy(xs: seq<real>, taps: nat, mu: real)
    requires mu > 0.0 && xs != []
    ensures WeightEnergy(Weights(xs, taps, mu), taps)
         == WeightEnergy(Weights(Last(xs), taps, mu), taps)
            + Stored(Times(NormFactor(mu, taps), Output(xs, taps, mu)), Estimated(xs, taps, mu), Energy(xs, taps))
  {
    hide Stored, Times, NormFactor, Gain;
    var w := Weights(Last(xs), taps, mu);
    GainIsScaledError(w, xs, mu);
    AdaptedEnergy(w, xs, Gain(w, xs, mu), taps);
  }

  lemma StepConserved(xs: seq<real>, taps: nat, mu: real)
    requires mu > 0.0 && xs != []
    ensures Times(NormFactor(mu, taps),
                  Times(Residue(xs, taps, mu), Squared(Output(xs, taps, mu))) + Squared(Estimated(xs, taps, mu)))
              + WeightEnergy(Weights(xs, taps, mu), taps)
         == WeightEnergy(Weights(Last(xs), taps, mu), taps) + Times(NormFactor(mu, taps), Squared(Desired(xs, taps)))
  {
    hide Stored, Squared, Weights, NormFactor, WeightEnergy, Energy, Estimate, Tap, Residue, Times;
    StoredEnergy(xs, taps, mu);
    ResidueIsRest(xs, taps, mu);
    assert Desired(xs, taps) == Output(xs, taps, mu) + Estimated(xs, taps, mu);
    hide Output, Estimated, Desired;
    StepBalance(NormFactor(mu, taps), Output(xs, taps, mu), Estimated(xs, taps, mu), Energy(xs, taps),
                Residue(xs, taps, mu),
                WeightEnergy(Weights(Last(xs), taps, mu), taps), WeightEnergy(Weights(xs, taps, mu), taps));
  }

  // ----- Conservation -----

  lemma {:induction false} Conserved(xs: seq<real>, taps: nat, mu: real)
    requires mu > 0.0
    ensures Times(NormFactor(mu, taps), ResidualEnergy(xs, taps, mu) + EstimateEnergy(xs, taps, mu))
              + WeightEnergy(Weights(xs, taps, mu), taps)
         == Times(NormFactor(mu, taps), DesiredEnergy(xs, taps))
  {
    hide Times, Squared, Output, Estimated, Weights, Residue, NormFactor, WeightEnergy, Desired;
    if xs == [] {
      NoWeightEnergy(taps, mu);
    } else {
      var front := Last(xs);
      Conserved(front, taps, mu);
      StepConserved(xs, taps, mu);
      Accumulate(NormFactor(mu, taps), ResidualEnergy(front, taps, mu), EstimateEnergy(front, taps, mu),
                 DesiredEnergy(front, taps), Times(Residue(xs, taps, mu), Squared(Output(xs, taps, mu))),
                 Squared(Estimated(xs, taps, mu)), Squared(Desired(xs, taps)),
                 WeightEnergy(Weights(front, taps, mu), taps), WeightEnergy(Weights(xs, taps, mu), taps));
    }
  }

  lemma NoWeightEnergy(taps: nat, mu: real)
    requires mu > 0.0
    ensures WeightEnergy(Weights([], taps, mu), taps) == 0.0
  {
    ZeroWeights(taps, taps);
  }

  lemma {:induction false} ZeroWeights(taps: nat, k: nat)
    requires k <= taps
    ensures WeightEnergy(NrLms.Zeros(taps), k) == 0.0
  {
    if k > 0 { ZeroWeights(taps, k - 1); }
  }

  /** For every stream: residual output energy, estimate energy and the energy stored in the weights make up the
      energy of the delayed inputs. */
  lemma EnergyConserved(xs: seq<real>, taps: nat, mu: real)
    requires mu > 0.0
    ensures NormFactor(mu, taps) * (ResidualEnergy(xs, taps, mu) + EstimateEnergy(xs, taps, mu))
              + WeightEnergy(Weights(xs, taps, mu), taps)
         == NormFactor(mu, taps) * DesiredEnergy(xs, taps)
  {
    Conserved(xs, taps, mu);
  }

  // ----- What the delayed input's own tap learns -----

  function Correlation(xs: seq<real>, taps: nat, mu: real): real
    requires mu > 0.0
  {
    if xs == [] then 0.0
    else Correlation(Last(xs), taps, mu) + Times(Output(xs, taps, mu), Desired(xs, taps))
  }

  /** The weight on the delayed input is the correlation of output and delayed input. */
  lemma {:induction false} DelayWeight(xs: seq<real>, taps: nat, mu: real)
    requires mu > 0.0 && taps > 0
    ensures Weights(xs, taps, mu)[taps / 2] == Times(NormFactor(mu, taps), Correlation(xs, taps, mu))
  {
    hide Weights, NormFactor, Output, Desired, Times;
    if xs == [] {
      NoWeights(taps, mu);
      TimesLaws(NormFactor(mu, taps), 0.0, 0.0);
    } else {
      DelayWeight(Last(xs), taps, mu);
      DelayStep(xs, taps, mu);
      TimesLaws(NormFactor(mu, taps), Correlation(Last(xs), taps, mu), Times(Output(xs, taps, mu), Desired(xs, taps)));
    }
  }

  lemma NoWeights(taps: nat, mu: real)
    requires mu > 0.0
    ensures forall j :: 0 <= j < taps ==> Weights([], taps, mu)[j] == 0.0
  {}

  lemma DelayStep(xs: seq<real>, taps: nat, mu: real)
    requires mu > 0.0 && taps > 0 && xs != []
    ensures Weights(xs, taps, mu)[taps / 2]
         == Weights(Last(xs), taps, mu)[taps / 2]
            + Times(NormFactor(mu, taps), Times(Output(xs, taps, mu), Desired(xs, taps)))
  {
    hide NormFactor, Times, Tap, Estimate, Error;
    var w, h := Weights(Last(xs), taps, mu), taps / 2;
    AdaptedAt(w, xs, Gain(w, xs, mu), h);
    GainIsScaledError(w, xs, mu);
    TimesLaws(NormFactor(mu, taps), Output(xs, taps, mu), Tap(xs, h));
  }

  lemma SquaredNonNegative(x: real)
    ensures Squared(x) >= 0.0
  {}

  lemma {:induction false} WeightEnergyAtLeast(w: seq<real>, k: nat, j: nat)
    requires k <= |w|
    ensures WeightEnergy(w, k) >= 0.0 && (j < k ==> WeightEnergy(w, k) >= Squared(w[j]))
  {
    if k > 0 {
      hide Squared;
      WeightEnergyAtLeast(w, k - 1, j);
      SquaredNonNegative(w[k - 1]);
    }
  }

  lemma SquareOfDifference(d: real, e: real)
    ensures Squared(d - e) == Squared(d) + Squared(e) - 2.0 * Times(e, d)
  {
    assert (d - e) * (d - e) == d * d + e * e - 2.0 * (e * d);
  }

  lemma {:induction false} EstimateSplits(xs: seq<real>, taps: nat, mu: real)
    requires mu > 0.0
    ensures EstimateEnergy(xs, taps, mu)
         == DesiredEnergy(xs, taps) + OutputEnergy(xs, taps, mu) - 2.0 * Correlation(xs, taps, mu)
    ensures EstimateEnergy(xs, taps, mu) >= 0.0 && OutputEnergy(xs, taps, mu) >= 0.0
  {
    if xs != [] {
      EstimateSplits(Last(xs), taps, mu);
      var e, d := Output(xs, taps, mu), Desired(xs, taps);
      assert Estimated(xs, taps, mu) == d - e;
      hide Squared, Times, Output, Desired, Estimated;
      SquareOfDifference(d, e);
      SquaredNonNegative(e);
      SquaredNonNegative(d - e);
    }
  }

  // ----- Energy in the delay line -----

  lemma TapOfLast(xs: seq<real>, j: nat)
    requires xs != []
    ensures Tap(xs, j) == if j == 0 then xs[|xs| - 1] else Tap(Last(xs), j - 1)
  {}

  lemma {:induction false} EnergyShifts(xs: seq<real>, k: nat)
    requires xs != [] && k > 0
    ensures Energy(xs, k) == Squared(xs[|xs| - 1]) + Energy(Last(xs), k - 1)
  {
    TapOfLast(xs, k - 1);
    if k > 1 { EnergyShifts(xs, k - 1); }
  }

  lemma {:induction false} EnergyOfNothing(k: nat)
    ensures Energy([], k) == 0.0
  {
    if k > 0 { EnergyOfNothing(k - 1); }
  }

  lemma {:induction false} LineBelowInput(xs: seq<real>, k: nat)
    ensures Energy(xs, k) <= InputEnergy(xs) && InputEnergy(xs) >= 0.0
  {
    if xs == [] {
      EnergyOfNothing(k);
    } else {
      LineBelowInput(Last(xs), if k > 0 then k - 1 else 0);
      if k > 0 { EnergyShifts(xs, k); }
      SquaredNonNegative(xs[|xs| - 1]);
    }
  }

  lemma {:induction false} DesiredBelowInput(xs: seq<real>, taps: nat)
    ensures DesiredEnergy(xs, taps) <= InputEnergy(xs[..|xs| - (if taps / 2 < |xs| then taps / 2 else |xs|)])
  {
    if xs != [] {
      var front, h := Last(xs), taps / 2;
      DesiredBelowInput(front, taps);
      if h < |xs| {
        var ys := xs[..|xs| - h];
        assert ys[|ys| - 1] == Tap(xs, h);
        assert Last(ys) == front[..|front| - (if h < |front| then h else |front|)];
      } else {
        assert Tap(xs, h) == 0.0;
        assert xs[..0] == front[..0];
      }
    }
  }

  lemma {:induction false} PrefixBelowInput(xs: seq<real>, i: nat)
    requires i <= |xs|
    ensures InputEnergy(xs[..i]) <= InputEnergy(xs)
  {
    if i < |xs| {
      PrefixBelowInput(Last(xs), i);
      assert Last(xs)[..i] == xs[..i];
      SquaredNonNegative(xs[|xs| - 1]);
    } else {
      assert xs[..i] == xs;
    }
  }

  /** The energy in the delay line never exceeds m. */
  ghost predicate LineBelow(xs: seq<real>, taps: nat, m: real)
  {
    forall i :: 0 < i <= |xs| ==> Energy(xs[..i], taps) <= m
  }

  lemma LineWithinInput(xs: seq<real>, taps: nat)
    ensures LineBelow(xs, taps, InputEnergy(xs))
  {
    forall i | 0 < i <= |xs| ensures Energy(xs[..i], taps) <= InputEnergy(xs) {
      LineBelowInput(xs[..i], taps);
      PrefixBelowInput(xs, i);
    }
  }

  lemma LineWithinTaps(xs: seq<real>, taps: nat)
    requires forall i :: 0 <= i < |xs| ==> -1.0 <= xs[i] <= 1.0
    ensures LineBelow(xs, taps, taps as real)
  {
    forall i | 0 < i <= |xs| ensures Energy(xs[..i], taps) <= taps as real {
      EnergyBound(xs[..i], taps);
    }
  }

  lemma {:induction false} ResidualAtLeast(xs: seq<real>, taps: nat, mu: real, m: real)
    requires mu > 0.0 && LineBelow(xs, taps, m)
    ensures ResidualEnergy(xs, taps, mu) >= Times(1.0 - Times(NormFactor(mu, taps), m), OutputEnergy(xs, taps, mu))
  {
    if xs != [] {
      var front, n, e := Last(xs), NormFactor(mu, taps), Squared(Output(xs, taps, mu));
      assert forall i :: 0 < i <= |front| ==> front[..i] == xs[..i];
      ResidualAtLeast(front, taps, mu, m);
      assert xs[..|xs|] == xs;
      SquaredNonNegative(Output(xs, taps, mu));
      ResidueAtLeast(xs, taps, mu, m);
      hide NormFactor, Output, Residue, Squared, LineBelow;
      Weighted(1.0 - Times(n, m), Residue(xs, taps, mu), OutputEnergy(front, taps, mu), e);
    }
  }

  lemma ResidueAtLeast(xs: seq<real>, taps: nat, mu: real, m: real)
    requires mu > 0.0 && Energy(xs, taps) <= m
    ensures Residue(xs, taps, mu) >= 1.0 - Times(NormFactor(mu, taps), m)
  {
    hide Residue, Energy, Times, NormFactor;
    ResidueIsRest(xs, taps, mu);
    TimesMonotone(NormFactor(mu, taps), Energy(xs, taps), m);
  }

  lemma TimesMonotone(a: real, b: real, c: real)
    requires a >= 0.0 && b <= c
    ensures Times(a, b) <= Times(a, c)
  {
    MulMonotone(a, b, c);
  }

  lemma Weighted(low: real, r: real, s: real, e: real)
    requires e >= 0.0 && low <= r
    ensures Times(low, s) + Times(r, e) >= Times(low, s + e)
  {
    MulMonotone(e, low, r);
    assert low * (s + e) == low * s + low * e;
  }

  // ----- The two bounds -----

  /** Output energy s, correlation u and a bound m on the delay line, with the normalised step size n. */
  predicate Balanced(n: real, s: real, u: real, m: real)
  {
    2.0 * s - Times(n, Times(m, s)) <= 2.0 * u - Times(n, Squared(u))
  }

  /** What conservation says about them. */
  lemma OutputBalance(xs: seq<real>, taps: nat, mu: real, m: real)
    requires mu > 0.0 && taps > 0 && LineBelow(xs, taps, m)
    ensures Balanced(NormFactor(mu, taps), OutputEnergy(xs, taps, mu), Correlation(xs, taps, mu), m)
  {
    hide Times, Squared, Balanced, Weights, WeightEnergy, LineBelow;
    hide OutputEnergy, Correlation, ResidualEnergy, EstimateEnergy, DesiredEnergy;
    Conserved(xs, taps, mu);
    DelayWeight(xs, taps, mu);
    WeightEnergyAtLeast(Weights(xs, taps, mu), taps, taps / 2);
    EstimateSplits(xs, taps, mu);
    ResidualAtLeast(xs, taps, mu, m);
    Balance(NormFactor(mu, taps), OutputEnergy(xs, taps, mu), Correlation(xs, taps, mu), m, ResidualEnergy(xs, taps, mu),
            EstimateEnergy(xs, taps, mu), DesiredEnergy(xs, taps), WeightEnergy(Weights(xs, taps, mu), taps));
  }

  lemma Balance(n: real, s: real, u: real, m: real, r: real, y: real, d: real, w: real)
    requires n > 0.0
    requires Times(n, r + y) + w == Times(n, d) && w >= Squared(Times(n, u))
    requires y == d + s - 2.0 * u && r >= Times(1.0 - Times(n, m), s)
    ensures Balanced(n, s, u, m)
  {
    hide Times, Squared;
    SquareOfScaled(n, u);
    Rest(n, m, s);
    TimesLaws(n, r + y, Times(n, Squared(u)));
    Cancel(n, r + y + Times(n, Squared(u)), d);
  }

  lemma SquareOfScaled(n: real, u: real)
    ensures Squared(Times(n, u)) == Times(n, Times(n, Squared(u)))
  {
    assert (n * u) * (n * u) == n * (n * (u * u));
  }

  lemma Rest(n: real, m: real, s: real)
    ensures Times(1.0 - Times(n, m), s) == s - Times(n, Times(m, s))
  {
    assert (1.0 - n * m) * s == s - n * m * s;
  }

  lemma TimesStrict(a: real, b: real, c: real)
    requires a > 0.0 && b < c
    ensures Times(a, b) < Times(a, c)
  {}

  lemma Cancel(n: real, a: real, b: real)
    requires n > 0.0 && Times(n, a) <= Times(n, b)
    ensures a <= b
  {
    if a > b {
      TimesStrict(n, b, a);
      assert false;
    }
  }

  /** Whatever it is fed and for however long, the filter's whole output never exceeds a fixed amount of energy: in
      the end it cancels any signal. */
  lemma OutputDiesOut(xs: seq<real>, taps: nat, mu: real)
    requires mu > 0.0 && taps > 0
    requires forall i :: 0 <= i < |xs| ==> -1.0 <= xs[i] <= 1.0
    ensures mu * OutputEnergy(xs, taps, mu) <= 1.0 + mu * taps as real
  {
    hide OutputEnergy, Correlation, LineBelow, Times, Normalised, NormFactor;
    ScaledOutputAtMostOne(xs, taps, mu);
    NormIsNormalised(mu, taps);
    Unscale(NormFactor(mu, taps), OutputEnergy(xs, taps, mu), mu, taps as real);
  }

  lemma Unscale(n: real, s: real, mu: real, t: real)
    requires Normalised(n, mu, t) && Times(n, s) <= 1.0
    ensures mu * s <= 1.0 + mu * t
  {
    MulNonNegative(mu, t);
    var k := 1.0 + mu * t;
    assert mu * s == k * (n * s);
    MulMonotone(k, n * s, 1.0);
  }

  lemma ScaledOutputAtMostOne(xs: seq<real>, taps: nat, mu: real)
    requires mu > 0.0 && taps > 0
    requires forall i :: 0 <= i < |xs| ==> -1.0 <= xs[i] <= 1.0
    ensures Times(NormFactor(mu, taps), OutputEnergy(xs, taps, mu)) <= 1.0
  {
    hide OutputEnergy, Correlation, LineBelow, Balanced, Times, Normalised, NormFactor;
    LineWithinTaps(xs, taps);
    OutputBalance(xs, taps, mu, taps as real);
    EstimateSplits(xs, taps, mu);
    NormIsNormalised(mu, taps);
    StepBelowOne(NormFactor(mu, taps), mu, taps as real);
    AtMostOne(NormFactor(mu, taps), OutputEnergy(xs, taps, mu), Correlation(xs, taps, mu), taps as real);
  }

  lemma StepBelowOne(n: real, mu: real, t: real)
    requires Normalised(n, mu, t)
    ensures Times(n, t) < 1.0
  {
    NormBelowOne(n, mu, t);
  }

  lemma AtMostOne(n: real, s: real, u: real, m: real)
    requires n > 0.0 && s >= 0.0 && Times(n, m) <= 1.0 && Balanced(n, s, u, m)
    ensures Times(n, s) <= 1.0
  {
    assert s <= 2.0 * u - Times(n, Squared(u)) by {
      TimesMonotone(s, Times(n, m), 1.0);
      assert Times(s, Times(n, m)) == Times(n, Times(m, s)) && Times(s, 1.0) == s;
    }
    Peak(n, u);
    hide Times, Squared;
    TimesMonotone(n, s, 2.0 * u - Times(n, Squared(u)));
  }

  lemma Peak(n: real, u: real)
    ensures Times(n, 2.0 * u - Times(n, Squared(u))) <= 1.0
  {
    var q := n * u;
    assert n * (2.0 * u - n * (u * u)) == 2.0 * q - q * q;
    SquaredNonNegative(1.0 - q);
    assert (1.0 - q) * (1.0 - q) == 1.0 - 2.0 * q + q * q;
  }

  /** At every moment, what the filter has output has no more energy than what it has been fed. */
  lemma OutputBelowInput(xs: seq<real>, taps: nat, mu: real)
    requires mu > 0.0 && taps > 0
    requires forall i :: 0 <= i < |xs| ==> -1.0 <= xs[i] <= 1.0
    ensures OutputEnergy(xs, taps, mu) <= InputEnergy(xs)
  {
    hide OutputEnergy, Correlation, LineBelow, Balanced, InputEnergy, DesiredEnergy, EstimateEnergy, Times;
    ScaledOutputAtMostOne(xs, taps, mu);
    LineWithinInput(xs, taps);
    OutputBalance(xs, taps, mu, InputEnergy(xs));
    EstimateSplits(xs, taps, mu);
    DesiredBelowInput(xs, taps);
    PrefixBelowInput(xs, |xs| - (if taps / 2 < |xs| then taps / 2 else |xs|));
    LineBelowInput(xs, 0);
    if OutputEnergy(xs, taps, mu) > InputEnergy(xs) {
      Excess(NormFactor(mu, taps), OutputEnergy(xs, taps, mu), Correlation(xs, taps, mu), InputEnergy(xs));
    }
  }

  /** While below its peak, what the correlation allows grows with it. */
  lemma RisingPart(n: real, s: real, u: real)
    requires n > 0.0 && u <= s && Times(n, s) <= 1.0
    ensures 2.0 * u - Times(n, Squared(u)) <= 2.0 * s - Times(n, Squared(s))
  {
    MulMonotone(n, u, s);
    var a, b := s - u, 2.0 - n * s - n * u;
    MulNonNegative(a, b);
    assert a * b == 2.0 * s - n * (s * s) - (2.0 * u - n * (u * u));
  }

  /** No output energy s above the input energy x is in balance. */
  lemma Excess(n: real, s: real, u: real, x: real)
    requires n > 0.0 && Times(n, s) <= 1.0 && 0.0 <= x && u <= s && Balanced(n, s, u, x)
    ensures s <= x
  {
    RisingPart(n, s, u);
    if s > x {
      assert Squared(s) == Times(s, s) && Times(x, s) == Times(s, x);
      hide Times, Squared;
      Cancel(n, Times(s, s), Times(s, x));
      Cancel(s, s, x);
    }
  }

  // ----- In 16-bit samples -----

  function SampleEnergy(block: seq<Sample>): nat
  {
    if block == [] then 0
    else
      var s: int := block[|block| - 1];
      SampleEnergy(block[..|block| - 1]) + Abs(s) * Abs(s)
  }

  const SCALE: real := 32768.0 * 32768.0

  lemma InputsInRange(block: seq<Sample>)
    ensures forall i :: 0 <= i < |block| ==> -1.0 <= Inputs(block)[i] <= 1.0
  {}

  lemma SampleSquare(s: Sample)
    ensures (Abs(s) * Abs(s)) as real == SCALE * Squared(FromSample(s))
  {
    var a: int := Abs(s);
    assert (a * a) as real == a as real * a as real;
    assert s as real == 32768.0 * FromSample(s);
    assert a as real * a as real == s as real * s as real;
  }

  lemma {:induction false} SampleEnergyOfInputs(block: seq<Sample>)
    ensures SampleEnergy(block) as real == SCALE * InputEnergy(Inputs(block))
  {
    if block != [] {
      var front := block[..|block| - 1];
      SampleEnergyOfInputs(front);
      assert Last(Inputs(block)) == Inputs(front);
      SampleSquare(block[|block| - 1]);
      hide Squared;
    }
  }

  lemma SquareMonotone(a: real, b: real)
    requires 0.0 <= a <= b
    ensures a * a <= b * b
  {
    MulMonotone(a, a, b);
    MulMonotone(b, a, b);
  }

  function Magnitude(x: real): real
  {
    if x < 0.0 then -x else x
  }

  lemma ScaledMagnitude(x: real)
    ensures (32768.0 * Magnitude(x)) * (32768.0 * Magnitude(x)) == SCALE * Squared(x)
  {
    var a := Magnitude(x);
    assert a * a == x * x;
    assert (32768.0 * a) * (32768.0 * a) == SCALE * (a * a);
  }

  lemma ConversionMagnitude(x: real)
    ensures 0.0 <= Abs(ToSample(x)) as real <= 32768.0 * Magnitude(x)
  {}

  /** Clamping and rounding never make a sample larger. */
  lemma ConversionShrinks(x: real)
    ensures var s := ToSample(x); (Abs(s) * Abs(s)) as real <= SCALE * Squared(x)
  {
    hide ToSample, Magnitude, Abs, Squared;
    ConversionMagnitude(x);
    ScaledMagnitude(x);
    var n: int := Abs(ToSample(x));
    SquareMonotone(n as real, 32768.0 * Magnitude(x));
    assert (n * n) as real == n as real * n as real;
  }

  lemma {:induction false} SampleEnergyOfOutputs(block: seq<Sample>, taps: nat, mu: real)
    requires mu > 0.0
    ensures SampleEnergy(Denoised([], block, taps, mu)) as real <= SCALE * OutputEnergy(Inputs(block), taps, mu)
  {
    if block != [] {
      var front, out, xs := block[..|block| - 1], Denoised([], block, taps, mu), Inputs(block);
      SampleEnergyOfOutputs(front, taps, mu);
      assert Last(xs) == Inputs(front) && [] + xs == xs;
      assert out[..|out| - 1] == Denoised([], front, taps, mu);
      assert out[|out| - 1] == ToSample(Output(xs, taps, mu));
      ConversionShrinks(Output(xs, taps, mu));
      hide Squared, ToSample, Output, Denoised;
    }
  }

  /** The energy bound on noise reduction, on the samples themselves: whatever a freshly reset filter is given, in
      however many blocks, it never returns more energy than it was given. */
  lemma NeverAmplifies(block: seq<Sample>, taps: nat, mu: real)
    requires mu > 0.0 && taps > 0
    ensures SampleEnergy(Denoised([], block, taps, mu)) <= SampleEnergy(block)
  {
    hide Denoised, OutputEnergy, InputEnergy, SampleEnergy;
    InputsInRange(block);
    OutputBelowInput(Inputs(block), taps, mu);
    SampleEnergyOfOutputs(block, taps, mu);
    SampleEnergyOfInputs(block);
  }

  /** And there is a limit, whatever the length of the stream. */
  lemma SamplesDieOut(block: seq<Sample>, taps: nat, mu: real)
    requires mu > 0.0 && taps > 0
    ensures mu * SampleEnergy(Denoised([], block, taps, mu)) as real <= SCALE * (1.0 + mu * taps as real)
  {
    hide Denoised, OutputEnergy, SampleEnergy;
    InputsInRange(block);
    OutputDiesOut(Inputs(block), taps, mu);
    SampleEnergyOfOutputs(block, taps, mu);
    var s, e := SampleEnergy(Denoised([], block, taps, mu)) as real, OutputEnergy(Inputs(block), taps, mu);
    MulMonotone(mu, s, SCALE * e);
    assert mu * (SCALE * e) == SCALE * (mu * e);
  }

  lemma {:induction false} SampleEnergyAppend(a: seq<Sample>, b: seq<Sample>)
    ensures SampleEnergy(a + b) == SampleEnergy(a) + SampleEnergy(b)
    decreases |b|
  {
    if b == [] {
      assert a + b == a;
    } else {
      assert (a + b)[..|a + b| - 1] == a + b[..|b| - 1];
      SampleEnergyAppend(a, b[..|b| - 1]);
    }
  }

  /** A later block may exceed its own input only by what the earlier ones have held back. */
  lemma LaterBlock(a: seq<Sample>, b: seq<Sample>, taps: nat, mu: real)
    requires mu > 0.0 && taps > 0
    ensures SampleEnergy(Denoised(Inputs(a), b, taps, mu)) + SampleEnergy(Denoised([], a, taps, mu))
         <= SampleEnergy(b) + SampleEnergy(a)
  {
    hide Denoised, SampleEnergy;
    NeverAmplifies(a + b, taps, mu);
    BlockSplit([], a, b, taps, mu);
    assert [] + Inputs(a) == Inputs(a);
    SampleEnergyAppend(a, b);
    SampleEnergyAppend(Denoised([], a, taps, mu), Denoised(Inputs(a), b, taps, mu));
  }

  function Silence(n: nat): (block: seq<Sample>)
    ensures |block| == n
  {
    seq(n, _ => 0)
  }

  lemma {:induction false} SilenceIsSilent(n: nat)
    ensures SampleEnergy(Silence(n)) == 0
  {
    if n > 0 {
      assert Silence(n)[..n - 1] == Silence(n - 1);
      SilenceIsSilent(n - 1);
    }
  }

  /** A sample's magnitude after both conversions. */
  function Lessened(s: Sample): nat
  {
    if s == 0 then 0 else Abs(s) - 1
  }

  lemma LessenedSample(s: Sample)
    ensures Abs(ToSample(FromSample(s))) == Lessened(s)
  {
    ConversionsLoseOneStep(s, 0.0);
  }

  /** Until the delay has passed a block comes out silent; then the very first sample follows. */
  lemma {:induction false} EarlyOutput(a: seq<Sample>, b: seq<Sample>, taps: nat, mu: real)
    requires mu > 0.0 && |a| + |b| <= taps / 2 + 1
    ensures SampleEnergy(Denoised(Inputs(a), b, taps, mu))
         == if b != [] && |a| + |b| == taps / 2 + 1 then Lessened((a + b)[0]) * Lessened((a + b)[0]) else 0
    decreases |b|
  {
    if b != [] {
      var front, out, xs := b[..|b| - 1], Denoised(Inputs(a), b, taps, mu), Inputs(a) + Inputs(b);
      EarlyOutput(a, front, taps, mu);
      SilentStart(xs, taps, mu);
      assert out[..|out| - 1] == Denoised(Inputs(a), front, taps, mu);
      assert out[|out| - 1] == ToSample(Output(xs, taps, mu));
      assert xs[0] == FromSample((a + b)[0]);
      LessenedSample((a + b)[0]);
      LessenedSample(0);
      hide Output, Denoised, ToSample, Lessened;
    }
  }

  /** The exact condition for a block that ends before the filter starts to learn: alone, it never exceeds its own
      input unless it reaches the end of the delay and has less energy than the first sample of all, which then
      comes out one step smaller. */
  lemma EarlyBlock(a: seq<Sample>, b: seq<Sample>, taps: nat, mu: real)
    requires mu > 0.0 && b != [] && |a| + |b| <= taps / 2 + 1
    ensures SampleEnergy(Denoised(Inputs(a), b, taps, mu)) <= SampleEnergy(b)
       <==> |a| + |b| <= taps / 2 || Lessened((a + b)[0]) * Lessened((a + b)[0]) <= SampleEnergy(b)
  {
    hide SampleEnergy, Denoised, Lessened;
    EarlyOutput(a, b, taps, mu);
  }

  /** Half a filter length of silence right after a single sample comes out louder than it went in exactly when
      that sample is more than one step from 0. */
  lemma SilenceCanSound(s: Sample, taps: nat, mu: real)
    requires mu > 0.0 && taps >= 2
    ensures SampleEnergy(Denoised(Inputs([s]), Silence(taps / 2), taps, mu)) > SampleEnergy(Silence(taps / 2))
       <==> s < -1 || s > 1
  {
    hide SampleEnergy, Denoised;
    EarlyBlock([s], Silence(taps / 2), taps, mu);
    SilenceIsSilent(taps / 2);
    assert Lessened(s) > 0 ==> Lessened(s) * Lessened(s) > 0;
  }
}
