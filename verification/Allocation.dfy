/** From back-pointers to strata: bounds, fractions and sample sizes, and why sizes in proportion to deviations are
    both sufficient and the best possible. */
module Allocation {
  import opened Reals
  import opened SampleSize
  import opened StrataDP

  const MIN_STRATUM: nat := 30

  function SumR(xs: seq<real>): real {
    if xs == [] then 0.0 else SumR(xs[..|xs| - 1]) + xs[|xs| - 1]
  }

  function SumN(xs: seq<nat>): nat {
    if xs == [] then 0 else SumN(xs[..|xs| - 1]) + xs[|xs| - 1]
  }

  /** Deviations of the strata of a split. */
  function Sigmas(w: Weight, split: seq<nat>): (ds: seq<real>)
    requires |split| >= 1
    ensures |ds| == |split| - 1
  {
    seq(|split| - 1, t requires 0 <= t < |split| - 1 => w(split[t], split[t + 1]))
  }

  /** Sample size of a stratum with fraction `f` of a phase of `phase` draws. */
  function StratumSize(phase: nat, f: real): (n: nat)
    requires f >= 0.0
    ensures n >= MIN_STRATUM && n as real >= phase as real * f
    ensures n > MIN_STRATUM ==> n as real < phase as real * f + 1.0
  {
    assert Mul(phase as real, f) >= 0.0;
    var n := Ceil(phase as real * f);
    if n < MIN_STRATUM then MIN_STRATUM else n
  }

  lemma {:induction false} SplitCostCons(w: Weight, a: nat, s: seq<nat>)
    requires s != []
    ensures SplitCost(w, [a] + s) == w(a, s[0]) + SplitCost(w, s)
    decreases |s|
  {
    var r := [a] + s;
    if |s| == 1 {
      assert r[..1] == [a];
    } else {
      var q := s[..|s| - 1];
      assert r[..|r| - 1] == [a] + q;
      SplitCostCons(w, a, q);
    }
  }

  lemma {:induction false} SumNCons(x: nat, xs: seq<nat>)
    ensures SumN([x] + xs) == x + SumN(xs)
  {
    if xs == [] {
      assert [x][..0] == [];
    } else {
      var r := [x] + xs;
      assert r[..|r| - 1] == [x] + xs[..|xs| - 1];
      SumNCons(x, xs[..|xs| - 1]);
    }
  }

  /** What is written for the stratum between boundaries `j` and `i`. */
  datatype StratumPlan = StratumPlan(size: nat, fraction: real, ub: int)

  ghost predicate WrittenFor(w: Weight, keys: seq<int>, j: nat, i: nat, phase: nat, s: real, st: StratumPlan) {
    && s > 0.0 && j < i < |keys|
    && w(j, i) >= 0.0
    && st.fraction == w(j, i) / s && st.fraction >= 0.0
    && st.size == StratumSize(phase, st.fraction)
    && st.ub == keys[i]
  }

  /** What is written for all strata from `from` on, whose boundaries are `tail`. */
  ghost predicate Written(w: Weight, keys: seq<int>, tail: seq<nat>, from: nat, phase: nat, s: real,
                          out: seq<StratumPlan>)
  {
    && |tail| >= 1 && from + |tail| - 1 == |out|
    && forall t :: from <= t < |out| ==> WrittenFor(w, keys, tail[t - from], tail[t - from + 1], phase, s, out[t])
  }

  lemma WrittenExtend(w: Weight, keys: seq<int>, tail: seq<nat>, from: nat, phase: nat, s: real,
                      before: seq<StratumPlan>, after: seq<StratumPlan>, j: nat)
    requires from >= 1 && Written(w, keys, tail, from, phase, s, before)
    requires |after| == |before| && from - 1 < |after| && after[from..] == before[from..]
    requires WrittenFor(w, keys, j, tail[0], phase, s, after[from - 1])
    ensures Written(w, keys, [j] + tail, from - 1, phase, s, after)
  {
    var longer := [j] + tail;
    forall t | from - 1 <= t < |after|
      ensures WrittenFor(w, keys, longer[t - from + 1], longer[t - from + 2], phase, s, after[t])
    {
      if t >= from {
        assert after[from..][t - from] == before[from..][t - from];
      }
    }
  }

  function Sizes(out: seq<StratumPlan>): (ns: seq<nat>)
    ensures |ns| == |out|
  {
    seq(|out|, t requires 0 <= t < |out| => out[t].size)
  }

  /** Boundaries from `i` to `n`. */
  ghost predicate IsTail(tail: seq<nat>, i: nat, n: nat) {
    && tail != [] && tail[0] == i && tail[|tail| - 1] == n
    && forall t :: 0 <= t < |tail| - 1 ==> tail[t] < tail[t + 1]
  }

  lemma ExtendOutput(w: Weight, keys: seq<int>, tail: seq<nat>, from: nat, phase: nat, s: real,
                     before: seq<StratumPlan>, after: seq<StratumPlan>, j: nat)
    requires from >= 1 && Written(w, keys, tail, from, phase, s, before)
    requires |after| == |before| && from - 1 < |after| && after[from..] == before[from..]
    requires WrittenFor(w, keys, j, tail[0], phase, s, after[from - 1])
    ensures Written(w, keys, [j] + tail, from - 1, phase, s, after)
    ensures SplitCost(w, [j] + tail) == w(j, tail[0]) + SplitCost(w, tail)
    ensures SumN(Sizes(after[from - 1..])) == after[from - 1].size + SumN(Sizes(before[from..]))
  {
    hide WrittenFor;
    WrittenExtend(w, keys, tail, from, phase, s, before, after, j);
    SplitCostCons(w, j, tail);
    assert Sizes(after[from - 1..]) == [after[from - 1].size] + Sizes(after[from..]);
    SumNCons(after[from - 1].size, Sizes(after[from..]));
  }

  lemma BackPointer(w: Weight, prev: seq<int>, n: nat, strata: nat, k: nat, i: nat)
    requires RowsDone(w, prev, n, strata) && 2 <= k <= strata && k <= i <= n
    ensures PointsBack(w, prev, n, k, i)
  {
  }

  /** Nothing written yet. */
  lemma EmptyOutput(w: Weight, keys: seq<int>, n: nat, phase: nat, s: real, out: seq<StratumPlan>)
    ensures Written(w, keys, [n], |out|, phase, s, out)
    ensures SplitCost(w, [n]) == 0.0 && SumN(Sizes(out[|out|..])) == 0
  {
  }

  lemma OptOfOne(w: Weight, i: nat)
    requires i >= 1
    ensures Opt(w, 1, i) == w(0, i)
  {
  }

  /** Fraction, size and bound of the stratum between boundaries `j` and `i`. */
  method EmitStratum(w: Weight, keys: seq<int>, j: nat, i: nat, phase: nat, s: real)
    returns (sigma: real, st: StratumPlan)
    requires j < i < |keys| && s > 0.0 && w(j, i) >= 0.0
    ensures sigma == w(j, i) && WrittenFor(w, keys, j, i, phase, s, st)
  {
    sigma := w(j, i);
    assert sigma / s >= 0.0;
    st := StratumPlan(StratumSize(phase, sigma / s), sigma / s, keys[i]);
  }

  /** Walks the back-pointers from the last boundary and writes fractions, sizes and bounds, right-most stratum first.
      The sum of the deviations met on the way is the optimal cost itself. */
  method EmitStrata(w: Weight, keys: seq<int>, n: nat, strata: nat, prev: array<int>, phase: nat, s: real,
                    out: array<StratumPlan>)
    returns (total: nat, s2: real, ghost split: seq<nat>)
    requires 2 <= strata <= n < |keys| && strata <= out.Length
    requires RowsDone(w, prev[..], n, strata)
    requires forall j, i :: 0 <= j < i <= n ==> w(j, i) >= 0.0
    requires s == Opt(w, strata, n) && s > 0.0
    modifies out
    ensures IsSplit(split, strata, n) && SplitCost(w, split) == s
    ensures s2 == s
    ensures Written(w, keys, split, 0, phase, s, out[..strata])
    ensures total == SumN(Sizes(out[..strata]))
  {
    hide Opt, WrittenFor, SplitCost, SumN, Written, RowsDone;
    var k, i := strata, n;
    total, s2 := 0, 0.0;
    ghost var tail: seq<nat> := [n];
    EmptyOutput(w, keys, n, phase, s, out[..strata]);
    while k > 1
      invariant 1 <= k <= strata && k <= i <= n
      invariant IsTail(tail, i, n) && |tail| == strata - k + 1
      invariant s2 == SplitCost(w, tail) && Opt(w, strata, n) == Opt(w, k, i) + s2
      invariant Written(w, keys, tail, k, phase, s, out[..strata])
      invariant total == SumN(Sizes(out[..strata][k..]))
    {
      BackPointer(w, prev[..], n, strata, k, i);
      var j := prev[Cell(n, k, i)];
      var sigma, st := EmitStratum(w, keys, j, i, phase, s);
      s2 := s2 + sigma;
      total := total + st.size;
      ghost var before := out[..strata];
      out[k - 1] := st;
      ExtendOutput(w, keys, tail, k, phase, s, before, out[..strata], j);
      tail := [j] + tail;
      i := j;
      k := k - 1;
    }
    var sigma, st := EmitStratum(w, keys, 0, i, phase, s);
    s2 := s2 + sigma;
    total := total + st.size;
    ghost var before := out[..strata];
    out[0] := st;
    ExtendOutput(w, keys, tail, 1, phase, s, before, out[..strata], 0);
    split := [0] + tail;
    OptOfOne(w, i);
    assert out[..strata][0..] == out[..strata];
  }

  // ----- fractions

  function Fractions(out: seq<StratumPlan>): (fs: seq<real>)
    ensures |fs| == |out|
  {
    seq(|out|, t requires 0 <= t < |out| => out[t].fraction)
  }

  /** The fractions of the emitted strata add up to one. */
  lemma FractionsSumToOne(w: Weight, keys: seq<int>, split: seq<nat>, phase: nat, s: real, out: seq<StratumPlan>)
    requires Written(w, keys, split, 0, phase, s, out) && s > 0.0 && SplitCost(w, split) == s
    ensures SumR(Fractions(out)) == 1.0
  {
    hide Written, SplitCost, SumR;
    FractionsOfCost(w, keys, split, phase, s, out);
    OverItself(s);
  }

  lemma OverItself(s: real)
    requires s != 0.0
    ensures s / s == 1.0
  {
  }

  lemma {:induction false} FractionsOfCost(w: Weight, keys: seq<int>, split: seq<nat>, phase: nat, s: real,
                                           out: seq<StratumPlan>)
    requires Written(w, keys, split, 0, phase, s, out) && s > 0.0
    ensures SumR(Fractions(out)) == SplitCost(w, split) / s
    decreases |out|
  {
    if out != [] {
      var k := |out|;
      var shorter, o := split[..k], out[..k - 1];
      assert Written(w, keys, shorter, 0, phase, s, o) by {
        forall t | 0 <= t < |o| ensures WrittenFor(w, keys, shorter[t - 0], shorter[t - 0 + 1], phase, s, o[t]) {
          assert WrittenFor(w, keys, split[t - 0], split[t - 0 + 1], phase, s, out[t]);
        }
      }
      FractionsOfCost(w, keys, shorter, phase, s, o);
      assert Fractions(out)[..k - 1] == Fractions(o);
      assert WrittenFor(w, keys, split[k - 1 - 0], split[k - 1 - 0 + 1], phase, s, out[k - 1]);
      AddQuotients(SplitCost(w, shorter), w(split[k - 1], split[k]), s);
    }
  }

  lemma AddQuotients(a: real, b: real, s: real)
    requires s != 0.0
    ensures a / s + b / s == (a + b) / s
  {
  }

  // ----- proportional allocation

  function SquareOver(x: real, d: real): real
    requires d > 0.0
  {
    x * x / d
  }

  /** Variance of the stratified estimate with `sizes[t]` draws in a stratum of deviation `sigma[t]`. */
  function StratifiedVariance(sigma: seq<real>, sizes: seq<real>): real
    requires |sigma| == |sizes| && forall t :: 0 <= t < |sizes| ==> sizes[t] > 0.0
  {
    if sigma == [] then 0.0
    else
      var k := |sigma| - 1;
      StratifiedVariance(sigma[..k], sizes[..k]) + SquareOver(sigma[k], sizes[k])
  }

  /** Sizes no smaller than proportional keep the variance within that of a single stratum of the summed deviation. */
  lemma {:induction false} ProportionalIsEnough(sigma: seq<real>, sizes: seq<real>, s: real, n: real)
    requires |sigma| == |sizes| && s > 0.0 && n > 0.0
    requires forall t :: 0 <= t < |sizes| ==> sigma[t] >= 0.0 && sizes[t] > 0.0
    requires forall t :: 0 <= t < |sizes| ==> sizes[t] >= n * (sigma[t] / s)
    ensures StratifiedVariance(sigma, sizes) <= SumR(sigma) * (s / n)
    decreases |sigma|
  {
    if sigma != [] {
      var k := |sigma| - 1;
      ProportionalIsEnough(sigma[..k], sizes[..k], s, n);
      TermWithinShare(sigma[k], sizes[k], s, n);
    }
  }

  lemma TermWithinShare(sigma: real, size: real, s: real, n: real)
    requires sigma >= 0.0 && size > 0.0 && s > 0.0 && n > 0.0 && size >= n * (sigma / s)
    ensures SquareOver(sigma, size) <= sigma * (s / n)
  {
    var f, u := sigma / s, s / n;
    QuotientTimes(sigma, s);
    QuotientTimes(s, n);
    assert u > 0.0;
    ProductMonotone(n * f, size, u);
    assert n * f * u == f * s == sigma;
    ProductMonotone(sigma, size * u, sigma);
    QuotientBelow(sigma * sigma, size, sigma * u);
  }

  /** No way to spread a total of `n` draws over the strata has less variance than that. */
  lemma {:induction false} NoSplitIsBetter(sigma: seq<real>, sizes: seq<real>)
    requires |sigma| == |sizes| && sigma != []
    requires forall t :: 0 <= t < |sizes| ==> sizes[t] > 0.0
    ensures SumR(sizes) > 0.0
    ensures StratifiedVariance(sigma, sizes) >= SquareOver(SumR(sigma), SumR(sizes))
    decreases |sigma|
  {
    hide SquareOver;
    var k := |sigma| - 1;
    if k == 0 {
      assert sigma[..0] == [] && sizes[..0] == [];
    } else {
      NoSplitIsBetter(sigma[..k], sizes[..k]);
      TwoTerms(SumR(sigma[..k]), SumR(sizes[..k]), sigma[k], sizes[k]);
    }
  }

  lemma TwoTerms(a: real, x: real, b: real, y: real)
    requires x > 0.0 && y > 0.0
    ensures SquareOver(a, x) + SquareOver(b, y) >= SquareOver(a + b, x + y)
  {
    var p, q := a / x, b / y;
    QuotientTimes(a, x);
    QuotientTimes(b, y);
    var z := p * p * x + q * q * y;
    assert SquareOver(a, x) == p * p * x && SquareOver(b, y) == q * q * y;
    assert z * (x + y) - (a + b) * (a + b) == Mul(Mul(x, y), Sq(p - q));
    SquareOverBelow(a + b, x + y, z);
  }

  lemma SquareOverBelow(x: real, d: real, y: real)
    requires d > 0.0 && x * x <= y * d
    ensures SquareOver(x, d) <= y
  {
    QuotientBelow(x * x, d, y);
  }

  // ----- the emitted sizes

  function AsReals(ns: seq<nat>): (xs: seq<real>)
    ensures |xs| == |ns|
  {
    seq(|ns|, t requires 0 <= t < |ns| => ns[t] as real)
  }

  lemma {:induction false} SigmasSumToCost(w: Weight, split: seq<nat>)
    requires |split| >= 1
    ensures SumR(Sigmas(w, split)) == SplitCost(w, split)
  {
    if |split| >= 2 {
      var shorter := split[..|split| - 1];
      SigmasSumToCost(w, shorter);
      assert Sigmas(w, split)[..|split| - 2] == Sigmas(w, shorter);
    }
  }

  /** Drawing the emitted sizes gives a stratified variance of at most s^2 / n for the solved phase size n, the value
      with which n was solved for. */
  lemma EmittedSizesAreEnough(w: Weight, keys: seq<int>, split: seq<nat>, phase: nat, s: real, out: seq<StratumPlan>)
    requires Written(w, keys, split, 0, phase, s, out) && s > 0.0 && SplitCost(w, split) == s && phase >= 1
    ensures |split| == |out| + 1
    ensures forall t :: 0 <= t < |out| ==> AsReals(Sizes(out))[t] > 0.0
    ensures StratifiedVariance(Sigmas(w, split), AsReals(Sizes(out))) <= s * (s / phase as real)
  {
    hide StratifiedVariance, SumR, SplitCost, Written;
    EmittedCount(w, keys, split, phase, s, out);
    var sigma, sizes := Sigmas(w, split), AsReals(Sizes(out));
    forall t | 0 <= t < |out|
      ensures sigma[t] >= 0.0 && sizes[t] > 0.0 && sizes[t] >= phase as real * (sigma[t] / s)
    {
      EmittedStratum(w, keys, split, phase, s, out, t);
    }
    ProportionalIsEnough(sigma, sizes, s, phase as real);
    SigmasSumToCost(w, split);
  }

  lemma EmittedCount(w: Weight, keys: seq<int>, split: seq<nat>, phase: nat, s: real, out: seq<StratumPlan>)
    requires Written(w, keys, split, 0, phase, s, out)
    ensures |split| == |out| + 1
  {
  }

  lemma EmittedStratum(w: Weight, keys: seq<int>, split: seq<nat>, phase: nat, s: real, out: seq<StratumPlan>, t: nat)
    requires Written(w, keys, split, 0, phase, s, out) && t < |out|
    ensures split[t] < split[t + 1] < |keys| && s > 0.0
    ensures w(split[t], split[t + 1]) >= 0.0
    ensures out[t].fraction == w(split[t], split[t + 1]) / s >= 0.0
    ensures out[t].size >= MIN_STRATUM && out[t].size as real >= phase as real * (w(split[t], split[t + 1]) / s)
    ensures out[t].ub == keys[split[t + 1]]
  {
    hide StratumSize;
    assert WrittenFor(w, keys, split[t - 0], split[t - 0 + 1], phase, s, out[t]);
  }

  /** The cost that the fractions are divided by is zero exactly when every stratum of the split has weight zero. */
  lemma {:induction false} ZeroCostIff(w: Weight, split: seq<nat>)
    requires forall t :: 0 <= t < |split| - 1 ==> w(split[t], split[t + 1]) >= 0.0
    ensures SplitCost(w, split) >= 0.0
    ensures SplitCost(w, split) == 0.0 <==> forall t :: 0 <= t < |split| - 1 ==> w(split[t], split[t + 1]) == 0.0
    decreases |split|
  {
    if |split| >= 2 {
      var shorter := split[..|split| - 1];
      forall t | 0 <= t < |shorter| - 1 ensures w(shorter[t], shorter[t + 1]) == w(split[t], split[t + 1]) {
      }
      ZeroCostIff(w, shorter);
      var last := |split| - 2;
      if forall t :: 0 <= t < |split| - 1 ==> w(split[t], split[t + 1]) == 0.0 {
        assert w(split[last], split[last + 1]) == 0.0;
        forall t | 0 <= t < |shorter| - 1 ensures w(shorter[t], shorter[t + 1]) == 0.0 {
          assert w(split[t], split[t + 1]) == 0.0;
        }
      } else if SplitCost(w, split) == 0.0 {
        assert w(split[last], split[last + 1]) == 0.0;
        forall t | 0 <= t < |split| - 1 ensures w(split[t], split[t + 1]) == 0.0 {
          if t < last { assert w(shorter[t], shorter[t + 1]) == 0.0; }
        }
      }
    }
  }
}
