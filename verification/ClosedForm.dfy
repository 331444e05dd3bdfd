/** The older aggregate path, which keeps (N, Sx, Sxx) over the accepted draws and accounts for rejections in one
    closed-form step at the end, and its agreement with the streaming path on plain sampling with replacement. */
module ClosedForm {
  import opened Options
  import opened Reals
  import opened Moments
  import opened Streaming

  /** The three-element transition array of the float8 aggregates. */
  datatype Transition = Transition(n: nat, sx: real, sxx: real)

  function Step(t: Transition, x: real): Transition {
    var n := t.n + 1;
    var sx := t.sx + x;
    var d := x * n as real - sx;
    Transition(n, sx, if t.n > 0 then t.sxx + d * d / (n as real * t.n as real) else t.sxx)
  }

  function Steps(xs: seq<real>): Transition {
    if xs == [] then Transition(0, 0.0, 0.0) else Step(Steps(xs[..|xs| - 1]), xs[|xs| - 1])
  }

  /** Sxx over accepted and rejected draws together. */
  function CombinedSxx(t: Transition, nsamples: nat): real {
    if t.n == 0 then 0.0
    else if nsamples <= t.n then t.sxx
    else
      var mean := t.sx / t.n as real;
      t.sxx + t.n as real * (nsamples - t.n) as real / nsamples as real * mean * mean
  }

  /** `z` stands for the quantile and `sqrt` for the square root. */
  function HalfWidth(z: real, sqrt: real -> real, twiceVariance: real): real {
    z * sqrt(twiceVariance)
  }

  function TwiceVariance(sxx: real, nsamples: nat): real
    requires nsamples >= 2
  {
    2.0 * sxx / (nsamples as real * (nsamples as real - 1.0))
  }

  /** The half width of the confidence interval; NULL for fewer than two draws. */
  function OldHalfCi(z: real, sqrt: real -> real, t: Transition, nsamples: nat): Option<real> {
    var sxx := CombinedSxx(t, nsamples);
    if nsamples <= 1 then None
    else Some(HalfWidth(z, sqrt, TwiceVariance(sxx, nsamples)))
  }

  function OldEstimate(t: Transition, nsamples: nat): real
    requires nsamples > 0
  {
    t.sx / nsamples as real
  }

  function NewHalfCi(z: real, sqrt: real -> real, p: Stratum): real {
    HalfWidth(z, sqrt, 2.0 * p.variance)
  }

  lemma {:induction false} StepsExact(xs: seq<real>)
    ensures Steps(xs).n == |xs| && Steps(xs).sx == Sum(xs)
    ensures Steps(xs).sxx == if xs == [] then 0.0 else Sxx(xs)
  {
    if xs != [] {
      var q, x := xs[..|xs| - 1], xs[|xs| - 1];
      StepsExact(q);
      assert q + [x] == xs;
      if q == [] {
        SxxOfOne(xs);
      } else {
        StepExact(Steps(q), q, x);
      }
    }
  }

  lemma StepExact(t: Transition, q: seq<real>, x: real)
    requires q != [] && t.n == |q| && t.sx == Sum(q) && t.sxx == Sxx(q)
    ensures Step(t, x).sxx == Sxx(q + [x])
  {
    hide Sum, Sxx, Mean, Between;
    SxxConcat(q, [x]);
    SxxOfOne([x]);
    MeanOfOne(x);
    MeanTimes(q);
    YoungsCramer(|q| as real, Mean(q), x);
  }

  lemma MeanTimes(q: seq<real>)
    requires q != []
    ensures Sum(q) == Mean(q) * |q| as real
  {
    QuotientTimes(Sum(q), |q| as real);
  }

  lemma YoungsCramer(n: real, m: real, x: real)
    requires n >= 1.0
    ensures var d := x * (n + 1.0) - (m * n + x);
            d * d / ((n + 1.0) * n) == Between(n, 1.0, m - x)
  {
    var d := x * (n + 1.0) - (m * n + x);
    assert d == n * (x - m);
    assert d * d == n * (n * (m - x) * (m - x));
  }

  /** The closed form is Sxx of all draws, rejections counting as zeros. */
  lemma CombinedSxxExact(ds: seq<Draw>)
    requires ds != []
    ensures CombinedSxx(Steps(Accepted(ds)), |ds|) == Sxx(Values(ds))
    ensures Sum(Accepted(ds)) == Sum(Values(ds))
  {
    hide *;
    var acc, zs := Accepted(ds), Zeros(Rejections(ds));
    AcceptedThenZeros(ds);
    AcceptedAndRejected(ds);
    PowerSumsOfPermutation(acc + zs, Values(ds));
    PowerSumsOfZeros(|zs|);
    SumConcat(acc, zs);
    MomentsOfPermutation(acc + zs, Values(ds));
    CombineWithZeros(acc, Rejections(ds));
  }

  lemma CombineWithZeros(acc: seq<real>, k: nat)
    requires |acc| + k > 0
    ensures CombinedSxx(Steps(acc), |acc| + k) == Sxx(acc + Zeros(k))
  {
    hide Sum, SumSq, Sxx, Steps, Mean, Between;
    var zs := Zeros(k);
    StepsExact(acc);
    if k == 0 {
      assert acc + zs == acc;
    } else if acc == [] {
      SxxOfZeros(k);
      assert acc + zs == zs;
    } else {
      hide CombinedSxx;
      SxxOfZeros(k);
      SxxConcat(acc, zs);
      MeanTimes(acc);
      QuotientIs(Mean(acc), Sum(acc), |acc| as real);
      CombinedScalar(Steps(acc), k, Mean(acc));
    }
  }

  lemma SxxOfZeros(k: nat)
    requires k > 0
    ensures Sxx(Zeros(k)) == 0.0 && Mean(Zeros(k)) == 0.0
  {
    hide Sum, SumSq, Sxx;
    PowerSumsOfZeros(k);
    MeanOfZeros(Zeros(k));
    SxxFromPowerSums(Zeros(k));
  }

  lemma CombinedScalar(t: Transition, k: nat, m: real)
    requires t.n >= 1 && k >= 1 && m == t.sx / t.n as real
    ensures CombinedSxx(t, t.n + k)
            == t.sxx + 0.0 + Between(t.n as real, k as real, m - 0.0)
  {
    ClosedFormTerm(t.n as real, k as real, m);
  }

  lemma MeanOfZeros(zs: seq<real>)
    requires zs != [] && Sum(zs) == 0.0
    ensures Mean(zs) == 0.0
  {
  }

  lemma ClosedFormTerm(n1: real, n2: real, m: real)
    requires n1 >= 1.0 && n2 >= 1.0
    ensures Between(n1, n2, m - 0.0) == n1 * n2 / (n1 + n2) * m * m
  {
  }

  /** On any two or more draws the two paths give the same estimate and the same half width, for every quantile
      and every square root function. */
  lemma OldAndNewAgree(ds: seq<Draw>, z: real, sqrt: real -> real)
    requires |ds| >= 2
    ensures OldEstimate(Steps(Accepted(ds)), |ds|) == Scan(EMPTY, ds).mu
    ensures OldHalfCi(z, sqrt, Steps(Accepted(ds)), |ds|) == Some(NewHalfCi(z, sqrt, Scan(EMPTY, ds)))
  {
    hide *;
    StepsExact(Accepted(ds));
    CombinedSxxExact(ds);
    ScanMoments(ds);
    MomentsAre(Values(ds));
    EstimatesAre(z, sqrt, Steps(Accepted(ds)), Scan(EMPTY, ds), |ds|, Sum(Values(ds)), Sxx(Values(ds)));
  }

  /** The half width is the root of twice the variance of the mean of the draws, times the quantile. */
  lemma HalfCiSquared(ds: seq<Draw>, z: real, sqrt: real -> real)
    requires |ds| >= 2 && z >= 0.0 && forall x: real :: x >= 0.0 ==> sqrt(x) >= 0.0 && sqrt(x) * sqrt(x) == x
    ensures var w := NewHalfCi(z, sqrt, Scan(EMPTY, ds));
            w >= 0.0 && w * w == z * z * (2.0 * VarOfMean(Values(ds)))
  {
    hide Scan, Mean, VarOfMean, Describes;
    ScanMoments(ds);
    VarOfMeanNonNegative(Values(ds));
    SquaredHalfWidth(z, 2.0 * VarOfMean(Values(ds)), sqrt);
  }

  lemma SquaredHalfWidth(z: real, v: real, sqrt: real -> real)
    requires z >= 0.0 && v >= 0.0 && sqrt(v) >= 0.0 && sqrt(v) * sqrt(v) == v
    ensures HalfWidth(z, sqrt, v) >= 0.0 && HalfWidth(z, sqrt, v) * HalfWidth(z, sqrt, v) == z * z * v
  {
    var r := sqrt(v);
    assert z * r == Mul(z, r) && (z * r) * (z * r) == z * z * (r * r);
  }

  lemma EstimatesAre(z: real, sqrt: real -> real, t: Transition, p: Stratum, n: nat, s: real, sxx: real)
    requires n >= 2 && t.sx == s && CombinedSxx(t, n) == sxx
    requires p.mu == s / n as real && p.variance == sxx / (n as real * (n as real - 1.0))
    ensures OldEstimate(t, n) == p.mu
    ensures OldHalfCi(z, sqrt, t, n) == Some(NewHalfCi(z, sqrt, p))
  {
    hide CombinedSxx, HalfWidth;
    ScaleQuotient(sxx, n as real * (n as real - 1.0));
    assert TwiceVariance(sxx, n) == 2.0 * p.variance;
  }

  /** A fresh stratum after one scan. */
  lemma ScanMoments(ds: seq<Draw>)
    requires ds != []
    ensures Scan(EMPTY, ds).n == |ds| && Scan(EMPTY, ds).mu == Mean(Values(ds))
    ensures |ds| >= 2 ==> Scan(EMPTY, ds).variance == VarOfMean(Values(ds))
    ensures Describes(Scan(EMPTY, ds), Values(ds))
  {
    hide Scan, Mean, VarOfMean;
    ScanDescribes(EMPTY, [], ds);
    assert [] + Values(ds) == Values(ds);
  }

  lemma MomentsAre(xs: seq<real>)
    requires xs != []
    ensures Mean(xs) == Sum(xs) / |xs| as real
    ensures |xs| >= 2 ==> VarOfMean(xs) == Sxx(xs) / (|xs| as real * (|xs| as real - 1.0))
  {
    hide Sum, Sxx;
  }

  lemma ScaleQuotient(x: real, d: real)
    requires d != 0.0
    ensures 2.0 * x / d == 2.0 * (x / d)
  {
  }

  // ----- the combined slot of phase 0 and the uniform fallback

  /** Entry 0 of the arrays as phase 1 finds it: estimates over all draws of phase 0, counter over the accepted
      ones only. */
  function PhaseZeroSlot(ds: seq<Draw>): Stratum {
    Scan(EMPTY, ds).(n := |Accepted(ds)|)
  }

  /** Whether every later uniform scan leaves the mean of all draws in entry 0. */
  ghost predicate UniformMeansExact(ds: seq<Draw>) {
    forall more: seq<Draw> :: more != [] ==> Scan(PhaseZeroSlot(ds), more).mu == Mean(Values(ds) + Values(more))
  }

  /** The uniform fallback keeps an exact mean over any continuation if and only if phase 0 had no rejection. */
  lemma UniformMeansExactIff(ds: seq<Draw>)
    requires ds != []
    ensures UniformMeansExact(ds) <==> Rejections(ds) == 0
  {
    AcceptedAndRejected(ds);
    ScanMoments(ds);
    if Rejections(ds) == 0 {
      forall more: seq<Draw> | more != []
        ensures Scan(PhaseZeroSlot(ds), more).mu == Mean(Values(ds) + Values(more))
      {
        hide Mean, VarOfMean, Scan, Accepted, Rejections;
        ScanDescribes(PhaseZeroSlot(ds), Values(ds), more);
      }
    } else {
      UniformMeanOff(ds);
    }
  }

  /** After a rejection in phase 0, the very next accepted draw can already move the mean away. */
  lemma UniformMeanOff(ds: seq<Draw>)
    requires |Accepted(ds)| < |ds|
    ensures var x := Mean(Values(ds)) + 1.0;
            Scan(PhaseZeroSlot(ds), [Value(x)]).mu != Mean(Values(ds) + Values([Value(x)]))
  {
    hide Mean, VarOfMean, Scan, Accepted, Rejections, Sum, Sxx, Describes;
    var m := Mean(Values(ds));
    ScanMoments(ds);
    OneMoreDraw(PhaseZeroSlot(ds), m + 1.0);
    assert Values([Value(m + 1.0)]) == [m + 1.0];
    MeanAfterOne(Values(ds), m + 1.0);
    ShiftedMeansDiffer(|Accepted(ds)| as real, |ds| as real, m);
  }

  lemma OneMoreDraw(p: Stratum, x: real)
    ensures Scan(p, [Value(x)]).mu == (p.n as real * p.mu + x) / (p.n as real + 1.0)
  {
    var ds := [Value(x)];
    assert ds[..0] == [];
    assert Accepted(ds) == [x] && Rejections(ds) == 0;
    assert [x][..0] == [];
    assert AcceptAll(p, [x]) == Accept(p, x);
  }

  lemma MeanAfterOne(xs: seq<real>, x: real)
    requires xs != []
    ensures Mean(xs + [x]) == (|xs| as real * Mean(xs) + x) / (|xs| as real + 1.0)
  {
    hide Sum;
    SumConcat(xs, [x]);
    SumSingleton(x);
    MeanTimes(xs);
  }

  lemma ShiftedMeansDiffer(a: real, n: real, m: real)
    requires 0.0 <= a < n
    ensures (a * m + (m + 1.0)) / (a + 1.0) != (n * m + (m + 1.0)) / (n + 1.0)
  {
    assert (a * m + (m + 1.0)) / (a + 1.0) == m + 1.0 / (a + 1.0);
    assert (n * m + (m + 1.0)) / (n + 1.0) == m + 1.0 / (n + 1.0);
  }
}
