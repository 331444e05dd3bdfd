/** Exact moments of a finite sample: the sum, the mean, the sum of squared deviations, and the variance of
    the sample mean. Everything the estimator keeps incrementally is stated against these definitions. */
module Moments {
  import opened Reals

  function Sum(xs: seq<real>): real {
    if xs == [] then 0.0 else Sum(xs[..|xs| - 1]) + xs[|xs| - 1]
  }

  function SumSq(xs: seq<real>): real {
    if xs == [] then 0.0 else SumSq(xs[..|xs| - 1]) + xs[|xs| - 1] * xs[|xs| - 1]
  }

  /** The sum of squared distances of `xs` to a given centre. */
  function Spread(xs: seq<real>, centre: real): real {
    if xs == [] then 0.0
    else Spread(xs[..|xs| - 1], centre) + (xs[|xs| - 1] - centre) * (xs[|xs| - 1] - centre)
  }

  function Mean(xs: seq<real>): real
    requires xs != []
  {
    Sum(xs) / |xs| as real
  }

  /** The sum of squared distances to the sample mean. */
  function Sxx(xs: seq<real>): real
    requires xs != []
  {
    Spread(xs, Mean(xs))
  }

  /** The unbiased estimate of the variance of the sample mean, Sxx / (n (n - 1)). */
  function VarOfMean(xs: seq<real>): real
    requires |xs| >= 2
  {
    Sxx(xs) / (|xs| as real * (|xs| as real - 1.0))
  }

  // ----- moments of the whole sample

  lemma {:induction false} SpreadNonNegative(xs: seq<real>, centre: real)
    ensures Spread(xs, centre) >= 0.0
  {
    if xs != [] {
      SpreadNonNegative(xs[..|xs| - 1], centre);
      assert Sq(xs[|xs| - 1] - centre) >= 0.0;
    }
  }

  predicate Constant(xs: seq<real>) {
    forall i :: 0 <= i < |xs| ==> xs[i] == xs[0]
  }

  lemma {:induction false} SpreadZeroIff(xs: seq<real>, centre: real)
    ensures Spread(xs, centre) == 0.0 <==> forall i :: 0 <= i < |xs| ==> xs[i] == centre
  {
    if xs != [] {
      var p, d := xs[..|xs| - 1], xs[|xs| - 1] - centre;
      SpreadZeroIff(p, centre);
      SpreadNonNegative(p, centre);
      assert d * d == Sq(d) && (d < 0.0 ==> Sq(d) == Sq(-d));
      assert forall i :: 0 <= i < |p| ==> p[i] == xs[i];
    }
  }

  lemma {:induction false} SumOfConstant(xs: seq<real>, x: real)
    requires forall i :: 0 <= i < |xs| ==> xs[i] == x
    ensures Sum(xs) == |xs| as real * x
  {
    if xs != [] { SumOfConstant(xs[..|xs| - 1], x); }
  }

  /** Values do not deviate at all exactly when they are all equal. */
  lemma SxxZeroIff(xs: seq<real>)
    requires xs != []
    ensures Sxx(xs) == 0.0 <==> Constant(xs)
  {
    SpreadZeroIff(xs, Mean(xs));
    if Constant(xs) {
      SumOfConstant(xs, xs[0]);
      assert |xs| as real * xs[0] / |xs| as real == xs[0];
    }
  }

  lemma VarOfMeanZeroIff(xs: seq<real>)
    requires |xs| >= 2
    ensures VarOfMean(xs) == 0.0 <==> Constant(xs)
  {
    hide Sxx;
    SxxZeroIff(xs);
    var d := Mul(|xs| as real, |xs| as real - 1.0);
    QuotientTimes(Sxx(xs), d);
  }

  /** Spread about any centre, from the first two power sums. */
  lemma {:induction false} SpreadFromPowerSums(xs: seq<real>, c: real)
    ensures Spread(xs, c) == AboutCentre(SumSq(xs), Sum(xs), |xs| as real, c)
  {
    if xs != [] {
      var p, x := xs[..|xs| - 1], xs[|xs| - 1];
      SpreadFromPowerSums(p, c);
      AboutCentreStep(SumSq(p), Sum(p), |p| as real, c, x);
      hide AboutCentre;
    }
  }

  function AboutCentre(q: real, s: real, n: real, c: real): real {
    q - 2.0 * c * s + c * c * n
  }

  lemma AboutCentreStep(q: real, s: real, n: real, c: real, x: real)
    ensures AboutCentre(q, s, n, c) + (x - c) * (x - c) == AboutCentre(q + x * x, s + x, n + 1.0, c)
  {
  }

  lemma SxxFromPowerSums(xs: seq<real>)
    requires xs != []
    ensures Sxx(xs) == SumSq(xs) - Mean(xs) * Mean(xs) * |xs| as real
    ensures Sxx(xs) >= 0.0
  {
    hide Sum, SumSq, Spread, AboutCentre;
    var m, n := Mean(xs), |xs| as real;
    SpreadNonNegative(xs, m);
    SpreadFromPowerSums(xs, m);
    CentreAtMean(SumSq(xs), Sum(xs), n, m);
  }

  lemma CentreAtMean(q: real, s: real, n: real, m: real)
    requires n != 0.0 && m == s / n
    ensures AboutCentre(q, s, n, m) == q - m * m * n
  {
    assert m * n == s;
    assert m * m * n == m * s;
  }

  lemma VarOfMeanNonNegative(xs: seq<real>)
    requires |xs| >= 2
    ensures VarOfMean(xs) >= 0.0
  {
    SxxFromPowerSums(xs);
    var d := |xs| as real * (|xs| as real - 1.0);
    assert d == Mul(|xs| as real, |xs| as real - 1.0) > 0.0;
  }

  lemma {:induction false} SumConcat(xs: seq<real>, ys: seq<real>)
    ensures Sum(xs + ys) == Sum(xs) + Sum(ys)
    ensures SumSq(xs + ys) == SumSq(xs) + SumSq(ys)
  {
    if ys == [] {
      assert xs + ys == xs;
    } else {
      var q := ys[..|ys| - 1];
      assert (xs + ys)[..|xs + ys| - 1] == xs + q;
      SumConcat(xs, q);
    }
  }

  /** The spread between two parts of `n1` and `n2` values whose means differ by `d`. */
  function Between(n1: real, n2: real, d: real): real
    requires n1 + n2 != 0.0
  {
    n1 * n2 * d * d / (n1 + n2)
  }

  /** The spread of a sample from the spreads of two parts of it. */
  lemma SxxConcat(xs: seq<real>, ys: seq<real>)
    requires xs != [] && ys != []
    ensures Sxx(xs + ys)
            == Sxx(xs) + Sxx(ys) + Between(|xs| as real, |ys| as real, Mean(xs) - Mean(ys))
  {
    hide Sum, SumSq, Sxx, Between;
    var n1, n2, a, b := |xs| as real, |ys| as real, Mean(xs), Mean(ys);
    SumConcat(xs, ys);
    SxxFromPowerSums(xs);
    SxxFromPowerSums(ys);
    SxxFromPowerSums(xs + ys);
    assert |xs + ys| as real == n1 + n2;
    PooledMean(Sum(xs), n1, Sum(ys), n2);
    PooledSquares(n1, a, n2, b);
  }

  lemma PooledMean(s1: real, n1: real, s2: real, n2: real)
    requires n1 > 0.0 && n2 > 0.0
    ensures (s1 + s2) / (n1 + n2) == (s1 / n1 * n1 + s2 / n2 * n2) / (n1 + n2)
  {
    QuotientTimes(s1, n1);
    QuotientTimes(s2, n2);
  }

  lemma PooledSquares(n1: real, a: real, n2: real, b: real)
    requires n1 > 0.0 && n2 > 0.0
    ensures var m := (a * n1 + b * n2) / (n1 + n2);
            a * a * n1 + b * b * n2 - m * m * (n1 + n2) == Between(n1, n2, a - b)
  {
    var n := n1 + n2;
    var t := a * n1 + b * n2;
    var m := t / n;
    QuotientTimes(t, n);
    assert m * m * n == m * t;
    var q := a * a * n1 + b * b * n2 - m * t;
    calc {
      q * n;
      (a * a * n1 + b * b * n2) * n - m * t * n;
      { assert m * t * n == m * n * t; }
      (a * a * n1 + b * b * n2) * n - t * t;
      { PooledPolynomial(n1, a, n2, b); }
      n1 * n2 * (a - b) * (a - b);
    }
    QuotientIs(q, n1 * n2 * (a - b) * (a - b), n);
  }

  lemma PooledPolynomial(n1: real, a: real, n2: real, b: real)
    ensures (a * a * n1 + b * b * n2) * (n1 + n2) - (a * n1 + b * n2) * (a * n1 + b * n2)
            == n1 * n2 * (a - b) * (a - b)
  {
  }

  // ----- order and padding

  lemma SumRemove(xs: seq<real>, i: nat)
    requires i < |xs|
    ensures Sum(xs) == Sum(xs[..i] + xs[i + 1..]) + xs[i]
    ensures SumSq(xs) == SumSq(xs[..i] + xs[i + 1..]) + xs[i] * xs[i]
  {
    hide Sum, SumSq;
    assert xs == xs[..i] + [xs[i]] + xs[i + 1..];
    SumConcat(xs[..i] + [xs[i]], xs[i + 1..]);
    SumConcat(xs[..i], [xs[i]]);
    SumConcat(xs[..i], xs[i + 1..]);
    SumSingleton(xs[i]);
  }

  lemma SumSingleton(x: real)
    ensures Sum([x]) == x && SumSq([x]) == x * x
  {
    assert [x][..0] == [];
  }

  lemma MeanOfOne(x: real)
    ensures Mean([x]) == x
  {
    SumSingleton(x);
  }

  lemma SxxOfOne(xs: seq<real>)
    requires |xs| == 1
    ensures Sxx(xs) == 0.0
  {
    hide Sum, SumSq, Sxx;
    assert xs == [xs[0]];
    SumSingleton(xs[0]);
    SxxFromPowerSums(xs);
  }

  /** Two arrival orders of the same draws stay so when one common draw is taken out of each. */
  lemma DropCommonDraw(xs: seq<real>, ys: seq<real>) returns (i: nat)
    requires multiset(xs) == multiset(ys) && xs != []
    ensures i < |ys| && ys[i] == xs[|xs| - 1]
    ensures multiset(xs[..|xs| - 1]) == multiset(ys[..i] + ys[i + 1..])
  {
    var p, x := xs[..|xs| - 1], xs[|xs| - 1];
    assert xs == p + [x];
    assert x in multiset(ys);
    i :| 0 <= i < |ys| && ys[i] == x;
    assert multiset(xs) == multiset(p) + multiset{x};
    assert ys == ys[..i] + ([x] + ys[i + 1..]);
    assert multiset(ys) == multiset(ys[..i]) + (multiset{x} + multiset(ys[i + 1..]));
    assert multiset(p) == multiset(xs) - multiset{x};
    assert multiset(ys[..i] + ys[i + 1..]) == multiset(ys) - multiset{x};
  }

  /** Power sums, and hence all moments, do not depend on arrival order. */
  lemma {:induction false} PowerSumsOfPermutation(xs: seq<real>, ys: seq<real>)
    requires multiset(xs) == multiset(ys)
    ensures |xs| == |ys| && Sum(xs) == Sum(ys) && SumSq(xs) == SumSq(ys)
    decreases |xs|
  {
    assert |multiset(xs)| == |xs| && |multiset(ys)| == |ys|;
    if xs != [] {
      hide Sum, SumSq;
      var i := DropCommonDraw(xs, ys);
      PowerSumsOfPermutation(xs[..|xs| - 1], ys[..i] + ys[i + 1..]);
      SumRemove(ys, i);
      SumRemove(xs, |xs| - 1);
      assert xs[..|xs| - 1] + xs[|xs|..] == xs[..|xs| - 1];
    }
  }

  lemma MomentsOfPermutation(xs: seq<real>, ys: seq<real>)
    requires multiset(xs) == multiset(ys)
    ensures |xs| == |ys|
    ensures xs != [] ==> Mean(xs) == Mean(ys) && Sxx(xs) == Sxx(ys)
    ensures |xs| >= 2 ==> VarOfMean(xs) == VarOfMean(ys)
  {
    hide Sum, SumSq, Sxx;
    PowerSumsOfPermutation(xs, ys);
    if xs != [] {
      SxxFromPowerSums(xs);
      SxxFromPowerSums(ys);
    }
  }

  function Zeros(k: nat): (zs: seq<real>)
    ensures |zs| == k && forall i :: 0 <= i < k ==> zs[i] == 0.0
  {
    seq(k, _ => 0.0)
  }

  lemma {:induction false} PowerSumsOfZeros(k: nat)
    ensures Sum(Zeros(k)) == 0.0 && SumSq(Zeros(k)) == 0.0
  {
    if k > 0 {
      assert Zeros(k)[..k - 1] == Zeros(k - 1);
      PowerSumsOfZeros(k - 1);
    }
  }

  function Copies(x: real, k: nat): (xs: seq<real>)
    ensures |xs| == k && forall i :: 0 <= i < k ==> xs[i] == x
  {
    seq(k, _ => x)
  }

  lemma CopiesStats(x: real, k: nat)
    requires k >= 1
    ensures Sum(Copies(x, k)) == k as real * x && Mean(Copies(x, k)) == x && Sxx(Copies(x, k)) == 0.0
  {
    hide Sum, Sxx;
    SumOfConstant(Copies(x, k), x);
    SxxZeroIff(Copies(x, k));
    assert k as real * x / k as real == x;
  }

  lemma MeanConcat(xs: seq<real>, ys: seq<real>)
    requires xs != [] && ys != []
    ensures Mean(xs + ys) == (|xs| as real * Mean(xs) + |ys| as real * Mean(ys)) / (|xs| as real + |ys| as real)
  {
    hide Sum;
    SumConcat(xs, ys);
    assert |xs| as real * Mean(xs) == Sum(xs) && |ys| as real * Mean(ys) == Sum(ys);
  }

  lemma HalfAndHalf(x: real, y: real, k: nat)
    requires k >= 1
    ensures |Copies(x, k) + Copies(y, k)| == 2 * k
    ensures Mean(Copies(x, k) + Copies(y, k)) == (x + y) / 2.0
    ensures Sxx(Copies(x, k) + Copies(y, k)) == Mul(k as real, Sq(x - y)) / 2.0
  {
    hide Sum, Sxx, Mean, Copies, Between, Mul, Sq;
    CopiesStats(x, k);
    CopiesStats(y, k);
    MeanConcat(Copies(x, k), Copies(y, k));
    SxxConcat(Copies(x, k), Copies(y, k));
    HalfScalars(k as real, x, y);
  }

  lemma HalfScalars(n: real, x: real, y: real)
    requires n >= 1.0
    ensures (n * x + n * y) / (n + n) == (x + y) / 2.0 && Between(n, n, x - y) == Mul(n, Sq(x - y)) / 2.0
  {
    assert n * x + n * y == (x + y) / 2.0 * (n + n);
    assert n * n * (x - y) * (x - y) == Mul(n, Sq(x - y)) / 2.0 * (n + n);
  }
}
