/** The per-stratum estimator: running count, mean and variance of the mean, updated one draw at a time, with
    rejected draws folded in afterwards as zeros. Proved equal to the moments of everything ever drawn. */
module Streaming {
  import opened Moments

  /** One draw of the index sampler: a scaled value, or a rejection. */
  datatype Draw = Rejected | Value(x: real)

  /** One entry of the arrays n_part, mu_part and var_part. */
  datatype Stratum = Stratum(n: nat, mu: real, variance: real)

  const EMPTY := Stratum(0, 0.0, 0.0)

  const UINT32 := 0x1_0000_0000

  const UINT64 := 0x1_0000_0000_0000_0000

  // ----- what the arrays are supposed to hold

  /** `p` describes exactly the draws `xs`. A single draw leaves its square in the variance slot: the first
      update has no previous mean to subtract. */
  predicate Describes(p: Stratum, xs: seq<real>) {
    && p.n == |xs|
    && p.mu == (if xs == [] then 0.0 else Mean(xs))
    && p.variance == (if xs == [] then 0.0 else if |xs| == 1 then xs[0] * xs[0] else VarOfMean(xs))
  }

  function Accepted(ds: seq<Draw>): seq<real> {
    if ds == [] then []
    else
      var last := ds[|ds| - 1];
      Accepted(ds[..|ds| - 1]) + if last.Rejected? then [] else [last.x]
  }

  function Rejections(ds: seq<Draw>): nat {
    if ds == [] then 0
    else Rejections(ds[..|ds| - 1]) + if ds[|ds| - 1].Rejected? then 1 else 0
  }

  lemma {:induction false} AcceptedAndRejected(ds: seq<Draw>)
    ensures |Accepted(ds)| + Rejections(ds) == |ds|
  {
    if ds != [] { AcceptedAndRejected(ds[..|ds| - 1]); }
  }

  /** The contribution of every draw in arrival order, a rejection contributing zero. */
  function Values(ds: seq<Draw>): (xs: seq<real>)
    ensures |xs| == |ds|
  {
    seq(|ds|, i requires 0 <= i < |ds| => if ds[i].Rejected? then 0.0 else ds[i].x)
  }

  // ----- what the code does

  /** n - 2 in an unsigned counter, which wraps around at n == 1. */
  function Minus2(n: nat, modulus: nat): real {
    if n < 2 then (n - 2 + modulus) as real else (n - 2) as real
  }

  /** The update for an accepted value. The factor n - 2 is computed in an unsigned 32-bit counter. */
  function Accept(p: Stratum, x: real): Stratum {
    var n := p.n + 1;
    var d := x - p.mu;
    Stratum(n,
            ((n - 1) as real * p.mu + x) / n as real,
            d * d / (n as real * n as real) + Minus2(n, UINT32) / n as real * p.variance)
  }

  function AcceptAll(p: Stratum, xs: seq<real>): Stratum {
    if xs == [] then p else Accept(AcceptAll(p, xs[..|xs| - 1]), xs[|xs| - 1])
  }

  /** The update that folds in one rejected draw. Here n - 2 is computed in an unsigned 64-bit counter. */
  function Pad(p: Stratum): Stratum {
    var n := p.n + 1;
    Stratum(n,
            (n - 1) as real / n as real * p.mu,
            p.mu * p.mu / (n as real * n as real) + Minus2(n, UINT64) / n as real * p.variance)
  }

  function PadAll(p: Stratum, k: nat): Stratum {
    if k == 0 then p else Pad(PadAll(p, k - 1))
  }

  /** One scan of a stratum: accepted values as they arrive, then one padding step for each rejection. */
  function Scan(p: Stratum, ds: seq<Draw>): Stratum {
    PadAll(AcceptAll(p, Accepted(ds)), Rejections(ds))
  }

  // ----- exactness

  lemma AcceptDescribes(p: Stratum, xs: seq<real>, x: real)
    requires Describes(p, xs)
    ensures Describes(Accept(p, x), xs + [x])
  {
    if xs == [] {
      assert xs + [x] == [x];
      SumSingleton(x);
    } else {
      AcceptNext(p, xs, x);
    }
  }

  lemma AcceptNext(p: Stratum, xs: seq<real>, x: real)
    requires Describes(p, xs) && xs != []
    ensures Describes(Accept(p, x), xs + [x])
  {
    hide Mean, VarOfMean;
    AcceptMean(p, xs, x);
    AcceptVariance(p, xs, x);
  }

  lemma AcceptMean(p: Stratum, xs: seq<real>, x: real)
    requires xs != [] && p.n == |xs| && p.mu == Mean(xs)
    ensures Accept(p, x).mu == Mean(xs + [x])
  {
    hide Sum, Minus2;
    SumConcat(xs, [x]);
    SumSingleton(x);
    MeanUpdate(Sum(xs), |xs| as real, x);
  }

  lemma AcceptVariance(p: Stratum, xs: seq<real>, x: real)
    requires Describes(p, xs) && xs != []
    ensures Accept(p, x).variance == VarOfMean(xs + [x])
  {
    hide Mean, Sxx, Accept, Grown, Updated;
    VarOfOneMore(xs, x);
    UpdateOf(p, x);
    if |xs| == 1 { SxxOfOne(xs); }
    VarUpdate(|xs| as real, Sxx(xs), Mean(xs), x, p.variance);
  }

  /** Variance of the mean of `n + 1` values, from squares and mean of the first `n`. */
  function Grown(n: real, s: real, m: real, x: real): real
    requires n > 0.0
  {
    (s + 0.0 + Between(n, 1.0, m - x)) / ((n + 1.0) * n)
  }

  /** The update in exact arithmetic. */
  function Updated(n: real, m: real, v: real, x: real): real
    requires n > 0.0
  {
    (x - m) * (x - m) / ((n + 1.0) * (n + 1.0)) + (n - 1.0) / (n + 1.0) * v
  }

  lemma VarOfOneMore(xs: seq<real>, x: real)
    requires xs != []
    ensures VarOfMean(xs + [x]) == Grown(|xs| as real, Sxx(xs), Mean(xs), x)
  {
    hide Mean, Sxx, Between;
    SxxOfOne([x]);
    MeanOfOne(x);
    SxxConcat(xs, [x]);
  }

  lemma UpdateOf(p: Stratum, x: real)
    requires p.n >= 1
    ensures Accept(p, x).variance == Updated(p.n as real, p.mu, p.variance, x)
  {
  }

  lemma MeanUpdate(s: real, n: real, x: real)
    requires n >= 1.0
    ensures (n * (s / n) + x) / (n + 1.0) == (s + x) / (n + 1.0)
  {
  }

  lemma VarUpdate(n: real, s: real, m: real, x: real, v: real)
    requires n == 1.0 || (n >= 2.0 && v == s / (n * (n - 1.0)))
    requires n == 1.0 ==> s == 0.0
    ensures Grown(n, s, m, x) == Updated(n, m, v, x)
  {
  }

  /** Folding in a rejection is accepting a zero. */
  lemma PadIsZeroDraw(p: Stratum)
    requires p.n == 0 ==> p.variance == 0.0
    ensures Pad(p) == Accept(p, 0.0)
  {
    assert (0.0 - p.mu) * (0.0 - p.mu) == p.mu * p.mu;
  }

  lemma {:induction false} AcceptAllDescribes(p: Stratum, hist: seq<real>, xs: seq<real>)
    requires Describes(p, hist)
    ensures Describes(AcceptAll(p, xs), hist + xs)
  {
    hide Describes, Accept;
    if xs == [] {
      assert hist + xs == hist;
    } else {
      var q := xs[..|xs| - 1];
      AcceptAllDescribes(p, hist, q);
      AcceptDescribes(AcceptAll(p, q), hist + q, xs[|xs| - 1]);
      assert hist + q + [xs[|xs| - 1]] == hist + xs;
    }
  }

  lemma {:induction false} PadAllDescribes(p: Stratum, hist: seq<real>, k: nat)
    requires Describes(p, hist)
    ensures Describes(PadAll(p, k), hist + Zeros(k))
  {
    if k == 0 {
      assert hist + Zeros(k) == hist;
    } else {
      PadAllDescribes(p, hist, k - 1);
      PadIsZeroDraw(PadAll(p, k - 1));
      hide Describes, Accept, Pad;
      AcceptDescribes(PadAll(p, k - 1), hist + Zeros(k - 1), 0.0);
      assert hist + Zeros(k - 1) + [0.0] == hist + Zeros(k);
    }
  }

  /** A stratum that describes one arrival order describes every other. */
  lemma DescribesPermutation(p: Stratum, xs: seq<real>, ys: seq<real>)
    requires Describes(p, xs) && multiset(xs) == multiset(ys)
    ensures Describes(p, ys)
  {
    hide Mean, VarOfMean;
    MomentsOfPermutation(xs, ys);
    if |xs| == 1 {
      assert xs[0] in multiset(ys);
    }
  }

  lemma {:induction false} AcceptedThenZeros(ds: seq<Draw>)
    ensures multiset(Accepted(ds) + Zeros(Rejections(ds))) == multiset(Values(ds))
  {
    if ds == [] {
      assert Values(ds) == [];
    } else {
      var q, d := ds[..|ds| - 1], ds[|ds| - 1];
      AcceptedThenZeros(q);
      var acc, zs := Accepted(q), Zeros(Rejections(q));
      if d.Rejected? {
        assert Values(ds) == Values(q) + [0.0];
        assert Accepted(ds) == acc;
        assert Zeros(Rejections(ds)) == zs + [0.0];
        hide *;
        OneMore(acc, zs, 0.0);
      } else {
        assert Values(ds) == Values(q) + [d.x];
        assert Accepted(ds) == acc + [d.x];
        assert Zeros(Rejections(ds)) == zs;
        hide *;
        OneMore(acc, zs, d.x);
      }
    }
  }

  lemma OneMore(xs: seq<real>, ys: seq<real>, v: real)
    ensures multiset(xs + (ys + [v])) == multiset(xs + ys) + multiset{v}
    ensures multiset(xs + [v] + ys) == multiset(xs + ys) + multiset{v}
  {
  }

  /** After a scan the stratum describes its whole history followed by the draws of the scan. */
  lemma ScanDescribes(p: Stratum, hist: seq<real>, ds: seq<Draw>)
    requires Describes(p, hist)
    ensures Describes(Scan(p, ds), hist + Values(ds))
  {
    hide Describes, AcceptAll, PadAll;
    var acc, zs := Accepted(ds), Zeros(Rejections(ds));
    AcceptAllDescribes(p, hist, acc);
    PadAllDescribes(AcceptAll(p, acc), hist + acc, Rejections(ds));
    assert hist + acc + zs == hist + (acc + zs);
    AcceptedThenZeros(ds);
    assert multiset(hist + (acc + zs)) == multiset(hist) + multiset(Values(ds)) == multiset(hist + Values(ds));
    DescribesPermutation(Scan(p, ds), hist + acc + zs, hist + Values(ds));
  }

  /** The scans of one stratum over all rounds and phases of a run. */
  function Scans(p: Stratum, rounds: seq<seq<Draw>>): Stratum {
    if rounds == [] then p else Scan(Scans(p, rounds[..|rounds| - 1]), rounds[|rounds| - 1])
  }

  function AllValues(rounds: seq<seq<Draw>>): seq<real> {
    if rounds == [] then [] else AllValues(rounds[..|rounds| - 1]) + Values(rounds[|rounds| - 1])
  }

  /** Over any run the arrays hold the count, the mean and the variance of the mean of every draw ever made in
      the stratum, whatever the split into rounds and wherever the rejections fall. */
  lemma {:induction false} RunDescribes(rounds: seq<seq<Draw>>)
    ensures Describes(Scans(EMPTY, rounds), AllValues(rounds))
  {
    if rounds != [] {
      hide Describes, Scan;
      var q, ds := rounds[..|rounds| - 1], rounds[|rounds| - 1];
      RunDescribes(q);
      ScanDescribes(Scans(EMPTY, q), AllValues(q), ds);
    }
  }
}
