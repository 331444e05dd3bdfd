/** The stratification optimiser on a real sample: weights of intervals from prefix statistics, the dynamic program,
    the phase size, and the emitted strata. */
module StrataPlan {
  import opened Reals
  import opened Moments
  import opened PrefixStats
  import opened Intervals
  import opened SampleSize
  import opened StrataDP
  import opened Allocation

  ghost predicate IsSqrt(sqrt: real -> real) {
    forall x: real :: x >= 0.0 ==> sqrt(x) >= 0.0 && sqrt(x) * sqrt(x) == x
  }

  // ----- weights

  /** Sample counts of prefixes grow by at least two, which is all the weights need to be defined. */
  predicate Spaced(ps: seq<Prefix>) {
    |ps| >= 2 && ps[0].m == 0 && forall j, i :: 0 <= j < i < |ps| ==> ps[j].m + 2 <= ps[i].m
  }

  /** Variance of the mean over the samples between two boundaries. */
  function RangeVar(ps: seq<Prefix>, j: nat, i: nat): real
    requires Spaced(ps) && j < i < |ps|
  {
    if j == 0 then ps[i].variance
    else RemoveVar(ps[i].m, ps[i].mu, ps[i].variance, ps[j].m, ps[j].mu, ps[j].variance)
  }

  /** Deviation of the samples between two boundaries, scaled by their share of all samples. */
  function RangeWeight(sqrt: real -> real, ps: seq<Prefix>, j: nat, i: nat): real
    requires Spaced(ps) && j < i < |ps|
  {
    var n := (ps[i].m - ps[j].m) as real;
    sqrt(RangeVar(ps, j, i) * n) * (n / ps[|ps| - 1].m as real)
  }

  function WeightOf(sqrt: real -> real, ps: seq<Prefix>): Weight
    requires Spaced(ps)
  {
    (j: nat, i: nat) => if j < i < |ps| then RangeWeight(sqrt, ps, j, i) else 0.0
  }

  lemma {:induction false} SpacedFrom(kv: seq<Sample>, rank: int -> int, ps: seq<Prefix>, j: nat, i: nat)
    requires IntervalsOf(kv, rank, ps) && j < i < |ps|
    ensures ps[j].m + 2 <= ps[i].m <= |kv|
    decreases i
  {
    hide PrefixExact, Vals;
    if i < |ps| - 1 { assert Closed(kv, rank, ps[i - 1], ps[i]); }
    if j < i - 1 { SpacedFrom(kv, rank, ps, j, i - 1); }
  }

  lemma IntervalsAreSpaced(kv: seq<Sample>, rank: int -> int, ps: seq<Prefix>)
    requires IntervalsOf(kv, rank, ps)
    ensures Spaced(ps)
  {
    forall j, i | 0 <= j < i < |ps| ensures ps[j].m + 2 <= ps[i].m { SpacedFrom(kv, rank, ps, j, i); }
  }

  lemma PrefixIsExact(kv: seq<Sample>, rank: int -> int, ps: seq<Prefix>, i: nat)
    requires IntervalsOf(kv, rank, ps) && 1 <= i < |ps|
    ensures 2 <= ps[i].m <= |kv| && PrefixExact(Vals(kv)[..ps[i].m], ps[i].mu, ps[i].variance)
  {
    hide PrefixExact, Vals;
    SpacedFrom(kv, rank, ps, 0, i);
    if i < |ps| - 1 {
      assert Closed(kv, rank, ps[i - 1], ps[i]);
    } else {
      assert Vals(kv)[..|kv|] == Vals(kv);
    }
  }

  /** The variance behind every weight is that of the samples between the two boundaries. */
  lemma RangeVarExact(kv: seq<Sample>, rank: int -> int, ps: seq<Prefix>, j: nat, i: nat)
    requires IntervalsOf(kv, rank, ps) && j < i < |ps|
    ensures Spaced(ps) && ps[i].m <= |kv|
    ensures RangeVar(ps, j, i) == VarOfMean(Vals(kv)[ps[j].m..ps[i].m])
    ensures RangeVar(ps, j, i) >= 0.0
  {
    hide VarOfMean, Mean, RemoveVar, Vals;
    IntervalsAreSpaced(kv, rank, ps);
    PrefixIsExact(kv, rank, ps, i);
    var xs := Vals(kv);
    VarOfMeanNonNegative(xs[ps[j].m..ps[i].m]);
    if j == 0 {
      assert xs[0..ps[i].m] == xs[..ps[i].m];
    } else {
      PrefixIsExact(kv, rank, ps, j);
      RemoveVarExact(xs, ps[j].m, ps[i].m);
    }
  }

  /** Every weight the dynamic program asks for is the square root of a variance that cannot be negative. */
  lemma WeightsAreDeviations(kv: seq<Sample>, rank: int -> int, ps: seq<Prefix>, sqrt: real -> real, j: nat, i: nat)
    requires IntervalsOf(kv, rank, ps) && IsSqrt(sqrt) && j < i < |ps|
    ensures Spaced(ps) && ps[i].m <= |kv|
    ensures var n, w := (ps[i].m - ps[j].m) as real, WeightOf(sqrt, ps)(j, i);
            && w >= 0.0
            && w * w == VarOfMean(Vals(kv)[ps[j].m..ps[i].m]) * n * Sq(n / |kv| as real)
  {
    hide VarOfMean, RangeVar, Vals, IsSqrt, RangeWeight, Sq, Closed;
    RangeVarExact(kv, rank, ps, j, i);
    RangeWeightSquared(sqrt, ps, j, i);
  }

  lemma RangeWeightSquared(sqrt: real -> real, ps: seq<Prefix>, j: nat, i: nat)
    requires Spaced(ps) && j < i < |ps| && IsSqrt(sqrt) && RangeVar(ps, j, i) >= 0.0
    ensures var n, w := (ps[i].m - ps[j].m) as real, RangeWeight(sqrt, ps, j, i);
            w >= 0.0 && w * w == RangeVar(ps, j, i) * n * Sq(n / ps[|ps| - 1].m as real)
  {
    hide RangeVar, IsSqrt, Sq;
    var n := (ps[i].m - ps[j].m) as real;
    var v, f := RangeVar(ps, j, i), n / ps[|ps| - 1].m as real;
    assert v * n == Mul(v, n);
    SquareOfWeight(sqrt, v * n, f);
  }

  lemma SquareOfWeight(sqrt: real -> real, x: real, f: real)
    requires IsSqrt(sqrt) && x >= 0.0 && f >= 0.0
    ensures sqrt(x) * f >= 0.0 && (sqrt(x) * f) * (sqrt(x) * f) == x * Sq(f)
  {
    var r := sqrt(x);
    assert r * f == Mul(r, f);
    assert (r * f) * (r * f) == (r * r) * (f * f);
  }

  // ----- the optimiser

  /** What the optimiser decides: no further phase, one stratum, several strata, or a division of zero weights by their
      zero total. */
  datatype Metainfo = NoPhase | OneStratum(size: nat) | ManyStrata(k: nat, size: nat) | ZeroWeights

  ghost predicate IsBestSplit(w: Weight, split: seq<nat>, k: nat, n: nat) {
    && IsSplit(split, k, n)
    && forall s: seq<nat> :: IsSplit(s, k, n) ==> SplitCost(w, split) <= SplitCost(w, s)
  }

  function Keys(ps: seq<Prefix>): (ks: seq<int>)
    ensures |ks| == |ps|
  {
    seq(|ps|, i requires 0 <= i < |ps| => ps[i].key)
  }

  /** The phase size for strata of total deviation `s`. */
  function PhaseSize(scale: real, v: real, s: real, n0: nat, sqrt: real -> real): Solved {
    Solve(Sq(scale), v, Sq(s), n0 as real, sqrt)
  }

  function SolvedSize(r: Solved): int {
    if r.Stop? then 0 else r.n
  }

  /** One stratum for the whole sample has the sample's own deviation. */
  lemma OneStratumCost(kv: seq<Sample>, rank: int -> int, ps: seq<Prefix>, sqrt: real -> real)
    requires IntervalsOf(kv, rank, ps) && IsSqrt(sqrt)
    ensures Spaced(ps) && |kv| >= 2
    ensures Sq(Opt(WeightOf(sqrt, ps), 1, |ps| - 1)) == VarOfMean(Vals(kv)) * |kv| as real
  {
    hide VarOfMean, Vals, PrefixExact, IsSqrt, ClosedUpTo, Sq, WeightOf;
    WeightsAreDeviations(kv, rank, ps, sqrt, 0, |ps| - 1);
    assert Vals(kv)[0..|kv|] == Vals(kv);
    WholeShare(WeightOf(sqrt, ps)(0, |ps| - 1), VarOfMean(Vals(kv)), |kv| as real);
  }

  lemma WholeShare(w: real, v: real, n: real)
    requires n > 0.0 && w * w == v * n * Sq(n / n)
    ensures Sq(w) == v * n
  {
    assert n / n == 1.0;
  }

  /** The strata chosen cost no more than one stratum. */
  lemma ChosenWithinOne(w: Weight, n: nat, scale: real, charge: real, k: nat)
    requires FirstStop(w, n, scale, charge, k) && charge >= 0.0
    ensures Sq(scale) * Sq(Opt(w, k, n)) <= Sq(scale) * Sq(Opt(w, 1, n))
  {
    hide Opt, Total, Sq;
    SquareOfTotal(scale, charge, 1, Opt(w, 1, n));
    SquareOfTotal(scale, charge, k, Opt(w, k, n));
    if k > 1 {
      LessCharged(Sq(scale) * Sq(Opt(w, k, n)), Sq(scale) * Sq(Opt(w, 1, n)), charge, k as real);
    }
  }

  lemma LessCharged(a: real, b: real, charge: real, k: real)
    requires charge >= 0.0 && k >= 1.0 && a + charge * k < b + charge * 1.0
    ensures a < b
  {
    assert Mul(charge, k - 1.0) >= 0.0;
  }

  lemma SquareOfTotal(scale: real, charge: real, k: nat, cost: real)
    ensures Total(scale, charge, k, cost) == Sq(scale) * Sq(cost) + charge * k as real
  {
    assert (scale * cost) * (scale * cost) == scale * scale * (cost * cost);
  }

  /** On a phase 0 without rejections the missing guard does no harm: the smaller root is out of reach, no phase is
      asked for if the target is met already, and otherwise the size is the least that meets it. */
  lemma SizedRightWithoutRejections(kv: seq<Sample>, rank: int -> int, ps: seq<Prefix>, sqrt: real -> real, scale: real,
                                    charge: real, k: nat)
    requires IntervalsOf(kv, rank, ps) && IsSqrt(sqrt) && Spaced(ps) && charge >= 0.0 && |Vals(kv)| >= 2
    requires FirstStop(WeightOf(sqrt, ps), |ps| - 1, scale, charge, k)
    ensures var c, v, best := Sq(scale), VarOfMean(Vals(kv)), Opt(WeightOf(sqrt, ps), k, |ps| - 1);
            var r := PhaseSize(scale, v, best, |kv|, sqrt);
            && !r.SmallerRoot? && (Mul(c, v) < 1.0 ==> r.Stop?)
            && (Mul(c, v) >= 1.0 && r.LargerRoot? ==> LeastMeeting(c, v, Sq(best), |kv| as real, r.n))
  {
    hide Vals, LeastMeeting, WeightOf, IntervalsOf, FirstStop, Opt, Solve, VarOfMean, Sq, IsSqrt, Mul;
    FirstStopInRange(WeightOf(sqrt, ps), |ps| - 1, scale, charge, k);
    OneStratumCost(kv, rank, ps, sqrt);
    ChosenWithinOne(WeightOf(sqrt, ps), |ps| - 1, scale, charge, k);
    SizedRight(Sq(scale), VarOfMean(Vals(kv)), Sq(Opt(WeightOf(sqrt, ps), k, |ps| - 1)),
               Sq(Opt(WeightOf(sqrt, ps), 1, |ps| - 1)), |kv| as real, sqrt);
  }

  lemma SizedRight(c: real, v: real, s2: real, one: real, n0: real, sqrt: real -> real)
    requires n0 > 0.0 && c * s2 <= c * one && one == v * n0 && IsSqrt(sqrt)
    ensures var r := Solve(c, v, s2, n0, sqrt);
            && !r.SmallerRoot? && (Mul(c, v) < 1.0 ==> r.Stop?)
            && (Mul(c, v) >= 1.0 && r.LargerRoot? ==> LeastMeeting(c, v, s2, n0, r.n))
  {
    hide LeastMeeting, Solve, Radicand, IsSqrt;
    assert c * one == c * v * n0;
    RootOf(sqrt, Radicand(c, v, s2, n0));
    SolveWithoutGuard(c, v, s2, n0, sqrt);
  }

  lemma FirstStopInRange(w: Weight, n: nat, scale: real, charge: real, k: nat)
    requires FirstStop(w, n, scale, charge, k)
    ensures 1 <= k <= n
  {
  }

  lemma RootOf(sqrt: real -> real, x: real)
    requires IsSqrt(sqrt)
    ensures RootAt(sqrt, x)
  {
  }

  lemma SolvedSizePositive(scale: real, v: real, s: real, n0: nat, sqrt: real -> real)
    ensures var r := PhaseSize(scale, v, s, n0, sqrt); !r.Stop? ==> r.n >= 1
  {
    hide HalfSlope, Radicand;
  }

  /** What the optimiser decides for `n` intervals of weights `w`: the number of strata is where the search stops, no
      phase follows exactly when the equation for their deviation has no positive solution, and the strata are
      divided by zero exactly when there are several without any deviation. */
  ghost predicate Decided(w: Weight, n: nat, scale: real, charge: real, v: real, n0: nat, sqrt: real -> real,
                          info: Metainfo, strata: nat)
  {
    && FirstStop(w, n, scale, charge, strata)
    && var best := Opt(w, strata, n);
       var solved := PhaseSize(scale, v, best, n0, sqrt);
       && (info.NoPhase? <==> solved.Stop?)
       && (info.OneStratum? <==> !solved.Stop? && strata == 1)
       && (info.ZeroWeights? <==> !solved.Stop? && strata > 1 && best == 0.0)
       && (info.OneStratum? ==> info.size == SolvedSize(solved) >= 1)
       && (info.ManyStrata? ==> info.k == strata >= 2)
  }

  /** Chooses strata for the sample behind `ps`, `scale` being the ratio of quantile to target. The strata form the
      cheapest split of their number, and that number is where the search over growing numbers stops. */
  method ComputeMetainfo(sqrt: real -> real, ps: seq<Prefix>, scale: real, charge: real, v: real, n0: nat,
                         cost: array<real>, prev: array<int>, out: array<StratumPlan>)
    returns (info: Metainfo, ghost strata: nat, ghost split: seq<nat>)
    requires IsSqrt(sqrt) && Spaced(ps)
    requires forall j, i :: 0 <= j < i < |ps| ==> WeightOf(sqrt, ps)(j, i) >= 0.0
    requires |ps| - 1 <= cost.Length && |ps| - 1 <= out.Length && prev.Length >= (|ps| - 2) * (|ps| - 1)
    modifies cost, prev, out
    ensures Decided(WeightOf(sqrt, ps), |ps| - 1, scale, charge, v, n0, sqrt, info, strata)
    ensures info.ManyStrata? ==>
              var n, w := |ps| - 1, WeightOf(sqrt, ps);
              var best := Opt(w, strata, n);
              var size := SolvedSize(PhaseSize(scale, v, best, n0, sqrt));
              && size >= 1 && best > 0.0
              && SplitCost(w, split) == best && IsBestSplit(w, split, info.k, n)
              && Written(w, Keys(ps), split, 0, size, best, out[..info.k])
              && info.size == SumN(Sizes(out[..info.k]))
  {
    hide Opt, SplitCost, PhaseSize, Written, WeightOf, Total;
    var n, w := |ps| - 1, WeightOf(sqrt, ps);
    split := [];
    var k := Optimise(w, n, scale, charge, cost, prev);
    strata := k;
    var s := cost[n - 1];
    var solved := PhaseSize(scale, v, s, n0, sqrt);
    SolvedSizePositive(scale, v, s, n0, sqrt);
    if solved.Stop? {
      info := NoPhase;
    } else if k == 1 {
      info := OneStratum(solved.n);
    } else if s == 0.0 {
      info := ZeroWeights;
    } else {
      OptNonNegative(w, k, n);
      var total, s2;
      total, s2, split := EmitStrata(w, Keys(ps), n, k, prev, solved.n, s, out);
      info := ManyStrata(k, total);
      forall other: seq<nat> | IsSplit(other, k, n) ensures SplitCost(w, split) <= SplitCost(w, other) {
        OptIsLowerBound(w, other, k, n);
      }
    }
  }

  // ----- zero weights

  /** Values of the samples between two boundaries. */
  function Group(kv: seq<Sample>, ps: seq<Prefix>, j: nat, i: nat): seq<real>
    requires j < i < |ps| && ps[j].m <= ps[i].m <= |kv|
  {
    Vals(kv)[ps[j].m..ps[i].m]
  }

  ghost predicate ConstantGroups(kv: seq<Sample>, ps: seq<Prefix>, split: seq<nat>, k: nat) {
    && ps != [] && IsSplit(split, k, |ps| - 1)
    && forall t :: 0 <= t < k ==> ConstantGroup(kv, ps, split[t], split[t + 1])
  }

  predicate ConstantGroup(kv: seq<Sample>, ps: seq<Prefix>, j: nat, i: nat) {
    j < i < |ps| && ps[j].m <= ps[i].m <= |kv| && Constant(Group(kv, ps, j, i))
  }

  lemma ZeroWeightIff(kv: seq<Sample>, rank: int -> int, ps: seq<Prefix>, sqrt: real -> real, j: nat, i: nat)
    requires IntervalsOf(kv, rank, ps) && IsSqrt(sqrt) && j < i < |ps|
    ensures Spaced(ps) && WeightOf(sqrt, ps)(j, i) >= 0.0
    ensures WeightOf(sqrt, ps)(j, i) == 0.0 <==> ConstantGroup(kv, ps, j, i)
  {
    hide VarOfMean, Vals, IsSqrt, IntervalsOf, Constant, Sq, WeightOf;
    WeightsAreDeviations(kv, rank, ps, sqrt, j, i);
    VarOfMeanZeroIff(Group(kv, ps, j, i));
    ZeroProduct(WeightOf(sqrt, ps)(j, i), VarOfMean(Group(kv, ps, j, i)), (ps[i].m - ps[j].m) as real, |kv| as real);
  }

  lemma ZeroProduct(w: real, v: real, n: real, all: real)
    requires n > 0.0 && all > 0.0 && w * w == v * n * Sq(n / all)
    ensures w == 0.0 <==> v == 0.0
  {
    QuotientTimes(n, all);
    assert Mul(-(n / all), all) == -n;
    var d := Mul(n, Sq(n / all));
    assert d > 0.0 && w * w == v * d;
    if v != 0.0 { assert v > 0.0 ==> Mul(v, d) > 0.0; assert v < 0.0 ==> Mul(v, d) < 0.0; }
    if w != 0.0 { assert w > 0.0 ==> Mul(w, w) > 0.0; assert w < 0.0 ==> Mul(-w, -w) > 0.0; }
  }

  lemma {:induction false} SplitInRange(split: seq<nat>, k: nat, n: nat, t: nat)
    requires IsSplit(split, k, n) && t <= k
    ensures split[t] <= n
    decreases k - t
  {
    if t < k { SplitInRange(split, k, n, t + 1); }
  }

  lemma ZeroSplitIff(kv: seq<Sample>, rank: int -> int, ps: seq<Prefix>, sqrt: real -> real, split: seq<nat>, k: nat)
    requires IntervalsOf(kv, rank, ps) && IsSqrt(sqrt) && Spaced(ps) && IsSplit(split, k, |ps| - 1)
    ensures SplitCost(WeightOf(sqrt, ps), split) >= 0.0
    ensures SplitCost(WeightOf(sqrt, ps), split) == 0.0 <==> ConstantGroups(kv, ps, split, k)
  {
    hide IntervalsOf, IsSqrt, Spaced, WeightOf, ConstantGroup, SplitCost;
    var w := WeightOf(sqrt, ps);
    forall t | 0 <= t < k
      ensures w(split[t], split[t + 1]) >= 0.0
      ensures w(split[t], split[t + 1]) == 0.0 <==> ConstantGroup(kv, ps, split[t], split[t + 1])
    {
      SplitInRange(split, k, |ps| - 1, t + 1);
      ZeroWeightIff(kv, rank, ps, sqrt, split[t], split[t + 1]);
    }
    ZeroCostIff(w, split);
  }

  /** The cheapest split into `k` strata costs nothing, so that fractions would be zero over zero, exactly when some
      split into `k` groups of intervals has equal values in each. */
  lemma ZeroCostOfSample(kv: seq<Sample>, rank: int -> int, ps: seq<Prefix>, sqrt: real -> real, k: nat)
    requires IntervalsOf(kv, rank, ps) && IsSqrt(sqrt) && Spaced(ps) && 1 <= k <= |ps| - 1
    ensures Opt(WeightOf(sqrt, ps), k, |ps| - 1) == 0.0 <==> exists split :: ConstantGroups(kv, ps, split, k)
  {
    hide IntervalsOf, IsSqrt, Spaced, WeightOf, Opt, SplitCost;
    var w, n := WeightOf(sqrt, ps), |ps| - 1;
    var best := OptAttained(w, k, n);
    ZeroSplitIff(kv, rank, ps, sqrt, best, k);
    if split :| ConstantGroups(kv, ps, split, k) {
      ZeroSplitIff(kv, rank, ps, sqrt, split, k);
      OptIsLowerBound(w, split, k, n);
    }
  }

  lemma {:induction false} OptNonNegative(w: Weight, k: nat, i: nat)
    requires 1 <= k <= i && forall j, x :: 0 <= j < x <= i ==> w(j, x) >= 0.0
    ensures Opt(w, k, i) >= 0.0
    decreases k, 1, 0
  {
    if k > 1 { LeastNonNegative(w, k, i, i); }
  }

  lemma {:induction false} LeastNonNegative(w: Weight, k: nat, i: nat, hi: nat)
    requires 2 <= k <= hi <= i && forall j, x :: 0 <= j < x <= i ==> w(j, x) >= 0.0
    ensures LeastBelow(w, k, i, hi) >= 0.0
    decreases k, 0, hi
  {
    OptNonNegative(w, k - 1, hi - 1);
    assert w(hi - 1, i) >= 0.0;
    if hi > k { LeastNonNegative(w, k, i, hi - 1); }
  }
}
