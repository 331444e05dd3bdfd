/** Samples on which the optimiser does not do what one would expect: strata without any deviation, more strata than the
    cheapest number, a size that misses a target that was met, and a minimum that costs the target. */
module SampleCases {
  import opened Reals
  import opened Moments
  import opened PrefixStats
  import opened Streaming
  import opened Intervals
  import opened SampleSize
  import opened StrataDP
  import opened Allocation
  import opened BudgetCap
  import opened StrataPlan
  import opened ClosedForm
  import opened PhaseEnd
  import opened EmittedPhase

  function Id(key: int): int {
    key
  }

  // ----- statistics of short samples

  lemma PrefixOfTwo(x: real, y: real)
    ensures PrefixExact([x, y], (x + y) / 2.0, Sq(y - x) / 4.0)
  {
    hide Mean, VarOfMean;
    MeanOfOne(x);
    ExtendExact([x], x, 0.0, y);
    assert [x] + [y] == [x, y];
  }

  lemma PrefixGrows(xs: seq<real>, mu: real, v: real, x: real, mu': real, v': real)
    requires PrefixExact(xs, mu, v) && mu' == ExtendMean(|xs|, mu, x) && v' == ExtendVar(|xs|, mu, v, x)
    ensures PrefixExact(xs + [x], mu', v')
  {
    hide Mean, VarOfMean, ExtendMean, ExtendVar;
    ExtendExact(xs, mu, v, x);
  }

  // ----- equal values in each interval

  const STEP := [Sample(1, 0.0), Sample(1, 0.0), Sample(2, 1.0), Sample(2, 1.0)]
  const STEP_PREFIXES := [Prefix(0, 0, 0.0, 0.0), Prefix(2, 2, 0.0, 0.0), Prefix(2, 4, 0.5, 1.0 / 12.0)]

  lemma StepStats()
    ensures Vals(STEP) == [0.0, 0.0, 1.0, 1.0] && Vals(STEP)[..2] == [0.0, 0.0]
    ensures PrefixExact([0.0, 0.0], 0.0, 0.0) && PrefixExact([0.0, 0.0, 1.0, 1.0], 0.5, 1.0 / 12.0)
  {
    hide Mean, VarOfMean, PrefixExact;
    PrefixOfTwo(0.0, 0.0);
    PrefixGrows([0.0, 0.0], 0.0, 0.0, 1.0, 1.0 / 3.0, 1.0 / 9.0);
    assert [0.0, 0.0] + [1.0] == [0.0, 0.0, 1.0];
    PrefixGrows([0.0, 0.0, 1.0], 1.0 / 3.0, 1.0 / 9.0, 1.0, 0.5, 1.0 / 12.0);
    assert [0.0, 0.0, 1.0] + [1.0] == [0.0, 0.0, 1.0, 1.0];
  }

  lemma StepIntervals()
    ensures IntervalsOf(STEP, Id, STEP_PREFIXES) && Spaced(STEP_PREFIXES)
    ensures VarOfMean(Vals(STEP)) == 1.0 / 12.0
  {
    hide Mean, VarOfMean, Vals;
    StepStats();
  }

  /** Its cheapest split into two strata costs nothing, and two strata is where the search stops. */
  lemma StepStrata(sqrt: real -> real)
    requires IsSqrt(sqrt) && Spaced(STEP_PREFIXES)
    ensures Opt(WeightOf(sqrt, STEP_PREFIXES), 2, 2) == 0.0
    ensures FirstStop(WeightOf(sqrt, STEP_PREFIXES), 2, 6.0, 1.0, 2)
  {
    hide IntervalsOf, IsSqrt, Spaced, WeightOf, Opt, VarOfMean, Sq;
    StepIntervals();
    assert ConstantGroups(STEP, STEP_PREFIXES, [0, 1, 2], 2) by { StepStats(); }
    ZeroCostOfSample(STEP, Id, STEP_PREFIXES, sqrt, 2);
    OneStratumCost(STEP, Id, STEP_PREFIXES, sqrt);
    SquareOfTotal(6.0, 1.0, 1, Opt(WeightOf(sqrt, STEP_PREFIXES), 1, 2));
    assert Sq(6.0) == 36.0 by { SixSquared(); }
  }

  lemma SixSquared()
    ensures Sq(6.0) == 36.0 && Sq(2.0) == 4.0 && Sq(0.0) == 0.0 && Sq(1.0) == 1.0
  {
  }

  /** So with a target that needs more draws, the optimiser is left with fractions of zero over zero. */
  method ZeroWeightsReached(sqrt: real -> real, cost: array<real>, prev: array<int>, out: array<StratumPlan>)
    returns (info: Metainfo)
    requires IsSqrt(sqrt) && cost.Length >= 2 && out.Length >= 2 && prev.Length >= 2
    modifies cost, prev, out
    ensures IntervalsOf(STEP, Id, STEP_PREFIXES) && VarOfMean(Vals(STEP)) == 1.0 / 12.0 && info.ZeroWeights?
  {
    hide IntervalsOf, IsSqrt, Spaced, WeightOf, Opt, VarOfMean, FirstStop, Solve, Written, IsBestSplit, SplitCost;
    StepIntervals();
    StepStrata(sqrt);
    forall j, i | 0 <= j < i < |STEP_PREFIXES| ensures WeightOf(sqrt, STEP_PREFIXES)(j, i) >= 0.0 {
      ZeroWeightIff(STEP, Id, STEP_PREFIXES, sqrt, j, i);
    }
    ghost var strata, split;
    info, strata, split := ComputeMetainfo(sqrt, STEP_PREFIXES, 6.0, 1.0, 1.0 / 12.0, 4, cost, prev, out);
    FirstStopUnique(WeightOf(sqrt, STEP_PREFIXES), 2, 6.0, 1.0, 2, strata);
    SixSquared();
    AllRoots(sqrt);
    UnmetIsSolved(Sq(6.0), 1.0 / 12.0, 3.0, Sq(0.0), 4.0, sqrt);
  }

  lemma AllRoots(sqrt: real -> real)
    requires IsSqrt(sqrt)
    ensures forall x :: RootAt(sqrt, x)
  {
  }

  // ----- the last two of three intervals alike

  const PAIRS := [Sample(1, 0.0), Sample(1, 1.0), Sample(2, 10.0), Sample(2, 11.0), Sample(3, 10.0), Sample(3, 11.0)]
  const PAIR_PREFIXES := [Prefix(0, 0, 0.0, 0.0), Prefix(2, 2, 0.5, 0.25), Prefix(3, 4, 5.5, 101.0 / 12.0),
                          Prefix(3, 6, 43.0 / 6.0, 809.0 / 180.0)]

  lemma PairVals()
    ensures Vals(PAIRS) == [0.0, 1.0, 10.0, 11.0, 10.0, 11.0]
    ensures Vals(PAIRS)[..2] == [0.0, 1.0] && Vals(PAIRS)[..4] == [0.0, 1.0, 10.0, 11.0]
    ensures Vals(PAIRS)[2..4] == [10.0, 11.0] && Vals(PAIRS)[4..6] == [10.0, 11.0]
    ensures Vals(PAIRS)[2..6] == [10.0, 11.0, 10.0, 11.0] && Vals(PAIRS)[0..2] == [0.0, 1.0]
  {
  }

  lemma PairStats()
    ensures PrefixExact([0.0, 1.0], 0.5, 0.25) && PrefixExact([0.0, 1.0, 10.0, 11.0], 5.5, 101.0 / 12.0)
    ensures PrefixExact([0.0, 1.0, 10.0, 11.0, 10.0, 11.0], 43.0 / 6.0, 809.0 / 180.0)
  {
    hide Mean, VarOfMean, PrefixExact;
    PrefixOfTwo(0.0, 1.0);
    PrefixGrows([0.0, 1.0], 0.5, 0.25, 10.0, 11.0 / 3.0, 91.0 / 9.0);
    assert [0.0, 1.0] + [10.0] == [0.0, 1.0, 10.0];
    PrefixGrows([0.0, 1.0, 10.0], 11.0 / 3.0, 91.0 / 9.0, 11.0, 5.5, 101.0 / 12.0);
    assert [0.0, 1.0, 10.0] + [11.0] == [0.0, 1.0, 10.0, 11.0];
    PrefixGrows([0.0, 1.0, 10.0, 11.0], 5.5, 101.0 / 12.0, 10.0, 6.4, 5.86);
    assert [0.0, 1.0, 10.0, 11.0] + [10.0] == [0.0, 1.0, 10.0, 11.0, 10.0];
    PrefixGrows([0.0, 1.0, 10.0, 11.0, 10.0], 6.4, 5.86, 11.0, 43.0 / 6.0, 809.0 / 180.0);
    assert [0.0, 1.0, 10.0, 11.0, 10.0] + [11.0] == [0.0, 1.0, 10.0, 11.0, 10.0, 11.0];
  }

  lemma PairIntervals()
    ensures IntervalsOf(PAIRS, Id, PAIR_PREFIXES) && Spaced(PAIR_PREFIXES)
    ensures VarOfMean(Vals(PAIRS)) == 809.0 / 180.0
  {
    hide Mean, VarOfMean, Vals;
    PairVals();
    PairStats();
  }

  lemma TailStats()
    ensures VarOfMean([0.0, 1.0]) == 0.25 && VarOfMean([10.0, 11.0]) == 0.25
    ensures VarOfMean([10.0, 11.0, 10.0, 11.0]) == 1.0 / 12.0
  {
    hide Mean, VarOfMean;
    PrefixOfTwo(0.0, 1.0);
    PrefixOfTwo(10.0, 11.0);
    PrefixGrows([10.0, 11.0], 10.5, 0.25, 10.0, 31.0 / 3.0, 1.0 / 9.0);
    assert [10.0, 11.0] + [10.0] == [10.0, 11.0, 10.0];
    PrefixGrows([10.0, 11.0, 10.0], 31.0 / 3.0, 1.0 / 9.0, 11.0, 10.5, 1.0 / 12.0);
    assert [10.0, 11.0, 10.0] + [11.0] == [10.0, 11.0, 10.0, 11.0];
  }

  lemma PairWeights(sqrt: real -> real)
    requires IsSqrt(sqrt) && Spaced(PAIR_PREFIXES)
    ensures var w := WeightOf(sqrt, PAIR_PREFIXES);
            && w(0, 1) >= 0.0 && Sq(w(0, 1)) == 1.0 / 18.0 && w(1, 2) == w(0, 1) && w(2, 3) == w(0, 1)
            && w(0, 2) >= 0.0 && w(1, 3) >= 0.0 && Sq(w(1, 3)) == 4.0 / 27.0
  {
    hide IntervalsOf, IsSqrt, Spaced, WeightOf, VarOfMean, Vals;
    PairIntervals();
    PairVals();
    TailStats();
    var w := WeightOf(sqrt, PAIR_PREFIXES);
    WeightsAreDeviations(PAIRS, Id, PAIR_PREFIXES, sqrt, 0, 1);
    WeightsAreDeviations(PAIRS, Id, PAIR_PREFIXES, sqrt, 1, 2);
    WeightsAreDeviations(PAIRS, Id, PAIR_PREFIXES, sqrt, 2, 3);
    WeightsAreDeviations(PAIRS, Id, PAIR_PREFIXES, sqrt, 1, 3);
    WeightsAreDeviations(PAIRS, Id, PAIR_PREFIXES, sqrt, 0, 2);
    assert Sq(w(0, 1)) == 1.0 / 18.0 && Sq(w(1, 2)) == 1.0 / 18.0 && Sq(w(2, 3)) == 1.0 / 18.0;
    SameRoot(w(1, 2), w(0, 1));
    SameRoot(w(2, 3), w(0, 1));
  }

  /** Two strata cost less than three here, but the search goes on to three, which still cost less than one. */
  lemma MoreStrataThanBest(sqrt: real -> real)
    requires IsSqrt(sqrt)
    ensures IntervalsOf(PAIRS, Id, PAIR_PREFIXES) && Spaced(PAIR_PREFIXES)
    ensures FirstStop(WeightOf(sqrt, PAIR_PREFIXES), 3, 1.0, 1.0, 3)
    ensures DescentStop(WeightOf(sqrt, PAIR_PREFIXES), 3, 1.0, 1.0, 2)
  {
    PairIntervals();
    hide IntervalsOf, IsSqrt, Spaced, WeightOf, VarOfMean, Vals, Sq, Total;
    var w := WeightOf(sqrt, PAIR_PREFIXES);
    PairWeights(sqrt);
    OneStratumCost(PAIRS, Id, PAIR_PREFIXES, sqrt);
    SixSquared();
    PairTotals(w);
  }

  lemma PairTotals(w: Weight)
    requires w(0, 1) >= 0.0 && Sq(w(0, 1)) == 1.0 / 18.0 && w(1, 2) == w(0, 1) && w(2, 3) == w(0, 1)
    requires w(0, 2) >= 0.0 && w(1, 3) >= 0.0 && Sq(w(1, 3)) == 4.0 / 27.0 && Sq(Opt(w, 1, 3)) > 26.0
    ensures FirstStop(w, 3, 1.0, 1.0, 3) && DescentStop(w, 3, 1.0, 1.0, 2)
  {
    ThreeApart(w);
    TwoWithin(w);
    hide Opt, Total, Sq;
    SquareOfTotal(1.0, 1.0, 1, Opt(w, 1, 3));
    SquareOfTotal(1.0, 1.0, 2, Opt(w, 2, 3));
    SquareOfTotal(1.0, 1.0, 3, Opt(w, 3, 3));
    SixSquared();
  }

  lemma ThreeApart(w: Weight)
    requires Sq(w(0, 1)) == 1.0 / 18.0 && w(1, 2) == w(0, 1) && w(2, 3) == w(0, 1)
    ensures Sq(Opt(w, 3, 3)) == 0.5
  {
    assert Opt(w, 2, 2) == w(0, 1) + w(1, 2);
    assert Opt(w, 3, 3) == Opt(w, 2, 2) + w(2, 3);
    var a := w(0, 1);
    assert Sq(3.0 * a) == 9.0 * Sq(a);
  }

  lemma TwoWithin(w: Weight)
    requires w(0, 1) >= 0.0 && Sq(w(0, 1)) == 1.0 / 18.0 && w(1, 2) == w(0, 1) && w(2, 3) == w(0, 1)
    requires w(0, 2) >= 0.0 && w(1, 3) >= 0.0 && Sq(w(1, 3)) == 4.0 / 27.0
    ensures Sq(Opt(w, 2, 3)) < 1.0
  {
    var a, b, o := w(0, 1), w(1, 3), Opt(w, 2, 3);
    RootBelow(a, 0.3);
    RootBelow(b, 0.5);
    LeastBelowIsLeast(w, 2, 3, 3, 1);
    assert o >= 0.0 by {
      var j := LeastBelowAttained(w, 2, 3, 3);
    }
    if o > 0.0 { SquaresOrdered(o, 1.0); }
  }

  lemma RootBelow(x: real, y: real)
    requires x >= 0.0 && y > 0.0 && Sq(x) < Sq(y)
    ensures x < y
  {
    if y < x { SquaresOrdered(y, x); }
  }

  // ----- rejections

  /** One key, 20 values of -1 and 20 of 3, drawn first of 160 draws, the other 120 of which are rejected. */
  const SPARSE := seq(40, i => Sample(1, if i < 20 then -1.0 else 3.0))
  const SPARSE_PREFIXES := [Prefix(0, 0, 0.0, 0.0), Prefix(1, 40, 1.0, 4.0 / 39.0)]
  const SPARSE_DRAWS := seq(160, i => if i < 20 then Value(-1.0) else if i < 40 then Value(3.0) else Rejected)
  const SPARSE_VARIANCE := 19.0 / 2544.0

  lemma SparseValues()
    ensures |SPARSE| == 40 && |SPARSE_DRAWS| == 160 && Vals(SPARSE) == Copies(-1.0, 20) + Copies(3.0, 20)
    ensures Values(SPARSE_DRAWS) == Copies(-1.0, 20) + Copies(3.0, 20) + Zeros(120)
    ensures Accepted(SPARSE_DRAWS) == Vals(SPARSE)
  {
    AcceptedFirst(SPARSE_DRAWS, 40);
  }

  lemma {:induction false} AcceptedFirst(ds: seq<Draw>, m: nat)
    requires m <= |ds|
    requires (forall i :: 0 <= i < m ==> !ds[i].Rejected?) && forall i :: m <= i < |ds| ==> ds[i].Rejected?
    ensures Accepted(ds) == Values(ds)[..m]
  {
    if ds != [] {
      var front := ds[..|ds| - 1];
      AcceptedFirst(front, if m == |ds| then m - 1 else m);
      assert Values(front) == Values(ds)[..|front|];
    }
  }

  lemma SparseIntervals()
    ensures |SPARSE| == 40 && VarOfMean(Vals(SPARSE)) == 4.0 / 39.0
    ensures IntervalsOf(SPARSE, Id, SPARSE_PREFIXES) && Spaced(SPARSE_PREFIXES)
  {
    hide Mean, Sxx, Vals, Values, Accepted;
    SparseValues();
    HalfAndHalf(-1.0, 3.0, 20);
  }

  /** Phase 0 has an estimate of 1/4. */
  lemma SparseEstimate()
    ensures Scan(EMPTY, SPARSE_DRAWS).mu == 0.25 && Scan(EMPTY, SPARSE_DRAWS).variance == SPARSE_VARIANCE
  {
    hide Mean, Sxx, Vals, Values, Accepted, Scan, Describes;
    SparseValues();
    ScanMoments(SPARSE_DRAWS);
    HalfAndHalf(-1.0, 3.0, 20);
    SxxOfZeros(120);
    MeanConcat(Copies(-1.0, 20) + Copies(3.0, 20), Zeros(120));
    SxxConcat(Copies(-1.0, 20) + Copies(3.0, 20), Zeros(120));
  }

  /** The target is met, the smaller root lies between 33 and 34, and the size asked for misses the target. */
  lemma SparseSize(sqrt: real -> real, best: real)
    requires IsSqrt(sqrt) && Sq(best) == 160.0 / 39.0
    ensures var c, v := 114.0, SPARSE_VARIANCE;
            && Sq(sqrt(c)) == c && Mul(c, v) < 1.0 && PhaseSize(sqrt(c), v, best, 160, sqrt) == SmallerRoot(34)
            && MeetsWith(c, v, Sq(best), 160.0, 0) && !MeetsWith(c, v, Sq(best), 160.0, 34)
  {
    RootOf(sqrt, 114.0);
    assert Sq(sqrt(114.0)) == 114.0;
    assert HalfSlope(114.0, 160.0 / 39.0, 160.0) == 960.0 / 13.0;
    assert Radicand(114.0, SPARSE_VARIANCE, 160.0 / 39.0, 160.0) == 14774400.0 / 8957.0;
    var t2 := sqrt(14774400.0 / 8957.0);
    RootOf(sqrt, 14774400.0 / 8957.0);
    hide IsSqrt, Sq;
    assert 40.0 < t2 < 40.8 by {
      if t2 <= 40.0 { ProductMonotone(t2, 40.0, t2); ProductMonotone(t2, 40.0, 40.0); }
      if t2 >= 40.8 { ProductMonotone(40.8, t2, t2); ProductMonotone(40.8, t2, 40.8); }
    }
    SolveUnguarded(114.0, SPARSE_VARIANCE, 160.0 / 39.0, 160.0, sqrt);
    assert Ceil(960.0 / 13.0 - t2) == 34;
  }

  /** So with rejections in phase 0 the optimiser asks for a phase although the target is met, which the cap leaves
      as it is, and so large a one that the target is not met afterwards. */
  method UnguardedMissesTarget(sqrt: real -> real, charge: real, cost: array<real>, prev: array<int>,
                               out: array<StratumPlan>, ghost remaining: nat)
    returns (info: Metainfo)
    requires IsSqrt(sqrt) && cost.Length >= 1 && out.Length >= 1 && remaining >= 34
    modifies cost, prev, out
    ensures IntervalsOf(SPARSE, Id, SPARSE_PREFIXES) && Spaced(SPARSE_PREFIXES)
    ensures Vals(SPARSE) == Accepted(SPARSE_DRAWS) && Scan(EMPTY, SPARSE_DRAWS).mu == 0.25
    ensures var c, v := Sq(sqrt(114.0)), Scan(EMPTY, SPARSE_DRAWS).variance;
            var s2 := Sq(Opt(WeightOf(sqrt, SPARSE_PREFIXES), 1, 1));
            && |SPARSE_DRAWS| == 160 && MeetsWith(c, v, s2, 160.0, 0)
            && info == OneStratum(34) && CappedSize(1, info.size, remaining) == 34
            && !MeetsWith(c, v, s2, 160.0, CappedSize(1, info.size, remaining))
  {
    hide IntervalsOf, IsSqrt, Spaced, WeightOf, Opt, VarOfMean, Solve, Written, IsBestSplit, SplitCost, Vals, Accepted;
    hide Scan, MeetsWith, Sq, Values;
    SparseValues();
    SparseIntervals();
    SparseEstimate();
    OneStratumCost(SPARSE, Id, SPARSE_PREFIXES, sqrt);
    forall j, i | 0 <= j < i < |SPARSE_PREFIXES| ensures WeightOf(sqrt, SPARSE_PREFIXES)(j, i) >= 0.0 {
      ZeroWeightIff(SPARSE, Id, SPARSE_PREFIXES, sqrt, j, i);
    }
    ghost var strata, split;
    info, strata, split := ComputeMetainfo(sqrt, SPARSE_PREFIXES, sqrt(114.0), charge, SPARSE_VARIANCE, 160, cost, prev,
                                           out);
    SparseSize(sqrt, Opt(WeightOf(sqrt, SPARSE_PREFIXES), 1, 1));
  }

  // ----- a stratum without deviation

  /** 49 values of 0 and 49 of 2 at one key, two values of 1 at the next, all accepted. */
  const RAISED :=
    seq(100, i => if i < 49 then Sample(1, 0.0) else if i < 98 then Sample(1, 2.0) else Sample(2, 1.0))
  const RAISED_PREFIXES := [Prefix(0, 0, 0.0, 0.0), Prefix(2, 98, 1.0, 1.0 / 97.0), Prefix(2, 100, 1.0, 49.0 / 4950.0)]
  const RAISED_VARIANCE := 49.0 / 4950.0
  const RAISED_SQUARE := 117649.0 / 121250.0
  const RAISED_SCALE := 4801500000.0 / 23529751.0

  lemma RaisedValues()
    ensures |RAISED| == 100 && Vals(RAISED) == Copies(0.0, 49) + Copies(2.0, 49) + Copies(1.0, 2)
    ensures Vals(RAISED)[..98] == Vals(RAISED)[0..98] == Copies(0.0, 49) + Copies(2.0, 49)
    ensures Vals(RAISED)[98..100] == Copies(1.0, 2)
  {
  }

  lemma RaisedIntervals()
    ensures |RAISED| == 100 && |Vals(RAISED)| == 100 && IntervalsOf(RAISED, Id, RAISED_PREFIXES)
    ensures Spaced(RAISED_PREFIXES)
    ensures VarOfMean(Vals(RAISED)[0..98]) == 1.0 / 97.0 && VarOfMean(Vals(RAISED)) == RAISED_VARIANCE
  {
    hide Mean, Sxx, Vals;
    RaisedValues();
    HalfAndHalf(0.0, 2.0, 49);
    CopiesStats(1.0, 2);
    MeanConcat(Copies(0.0, 49) + Copies(2.0, 49), Copies(1.0, 2));
    SxxConcat(Copies(0.0, 49) + Copies(2.0, 49), Copies(1.0, 2));
  }

  lemma RaisedWeights(sqrt: real -> real)
    requires IsSqrt(sqrt) && Spaced(RAISED_PREFIXES)
    ensures var w := WeightOf(sqrt, RAISED_PREFIXES);
            && w(0, 1) > 0.0 && Sq(w(0, 1)) == RAISED_SQUARE && w(1, 2) == 0.0 && w(0, 2) >= 0.0
            && Opt(w, 2, 2) == w(0, 1) && Sq(Opt(w, 1, 2)) == RAISED_VARIANCE * 100.0
  {
    hide IntervalsOf, IsSqrt, Spaced, WeightOf, VarOfMean, Vals, Sq;
    RaisedValues();
    RaisedIntervals();
    var w := WeightOf(sqrt, RAISED_PREFIXES);
    WeightsAreDeviations(RAISED, Id, RAISED_PREFIXES, sqrt, 0, 1);
    ZeroWeightIff(RAISED, Id, RAISED_PREFIXES, sqrt, 1, 2);
    ZeroWeightIff(RAISED, Id, RAISED_PREFIXES, sqrt, 0, 2);
    OneStratumCost(RAISED, Id, RAISED_PREFIXES, sqrt);
    ShareSquared(w(0, 1));
  }

  lemma ShareSquared(x: real)
    requires x >= 0.0 && x * x == 1.0 / 97.0 * 98.0 * Sq(98.0 / 100.0)
    ensures x > 0.0 && Sq(x) == RAISED_SQUARE
  {
  }

  /** The search stops at two strata, and the equation for their deviation is solved by 100 draws without rounding. */
  lemma RaisedSize(sqrt: real -> real, charge: real)
    requires IsSqrt(sqrt) && Spaced(RAISED_PREFIXES) && charge <= 3.0
    ensures var w, scale := WeightOf(sqrt, RAISED_PREFIXES), sqrt(RAISED_SCALE);
            && Sq(scale) == RAISED_SCALE && FirstStop(w, 2, scale, charge, 2)
            && PhaseSize(scale, RAISED_VARIANCE, Opt(w, 2, 2), 100, sqrt) == LargerRoot(100)
  {
    RootOf(sqrt, RAISED_SCALE);
    assert Sq(sqrt(RAISED_SCALE)) == RAISED_SCALE;
    hide Spaced, WeightOf, Opt, Sq, Total, IsSqrt;
    RaisedWeights(sqrt);
    var w, scale := WeightOf(sqrt, RAISED_PREFIXES), sqrt(RAISED_SCALE);
    SquareOfTotal(scale, charge, 1, Opt(w, 1, 2));
    SquareOfTotal(scale, charge, 2, Opt(w, 2, 2));
    RaisedRoot(sqrt);
  }

  lemma RaisedRoot(sqrt: real -> real)
    requires IsSqrt(sqrt)
    ensures Solve(RAISED_SCALE, RAISED_VARIANCE, RAISED_SQUARE, 100.0, sqrt) == LargerRoot(100)
    ensures Slack(RAISED_SCALE, RAISED_VARIANCE, RAISED_SQUARE, 100.0, 100.0) == 0.0
    ensures !WithinMeans(RAISED_SCALE, RAISED_SQUARE, 100.0, 100.0, 130.0)
  {
    var t1 := HalfSlope(RAISED_SCALE, RAISED_SQUARE, 100.0);
    assert Radicand(RAISED_SCALE, RAISED_VARIANCE, RAISED_SQUARE, 100.0) == (100.0 - t1) * (100.0 - t1);
    RootOf(sqrt, (100.0 - t1) * (100.0 - t1));
    SameRoot(sqrt((100.0 - t1) * (100.0 - t1)), 100.0 - t1);
    assert Ceil(t1 + (100.0 - t1)) == 100;
  }

  /** All of the variance is in the first stratum, and its size is not raised. */
  lemma RaisedMeans(x: real)
    requires x > 0.0 && Sq(x) == RAISED_SQUARE
    ensures SumR([x, 0.0]) == x && SumN([100, 30]) == 130 && AsReals([100, 30]) == [100.0, 30.0]
    ensures Mul(StratifiedVariance([x, 0.0], [100.0, 30.0]), 100.0) == RAISED_SQUARE
  {
    var none: seq<real> := [];
    assert [x, 0.0][..1] == [x] && [x][..0] == none && [100.0, 30.0][..1] == [100.0] && [100.0][..0] == none;
    assert SumR([x]) == SumR(none) + x;
    assert [100, 30][..1] == [100] && [100][..0] == [];
    assert StratifiedVariance([x], [100.0]) == StratifiedVariance(none, none) + SquareOver(x, 100.0);
    assert StratifiedVariance([x, 0.0], [100.0, 30.0]) == StratifiedVariance([x], [100.0]) + SquareOver(0.0, 30.0);
  }

  lemma RaisedMisses(sqrt: real -> real, x: real)
    requires IsSqrt(sqrt) && x > 0.0 && Sq(x) == RAISED_SQUARE
    ensures AsReals([100, 30]) == [100.0, 30.0]
    ensures Mul(RAISED_SCALE, MixedVariance(RAISED_VARIANCE, 100, [x, 0.0], [100, 30])) > 1.0
  {
    hide SumR, SumN, StratifiedVariance, Sq, Mul, Slack, WithinMeans, MixedVariance;
    RaisedMeans(x);
    RaisedRoot(sqrt);
    SlackMeets(RAISED_SCALE, RAISED_VARIANCE, RAISED_SQUARE, 100.0, 100);
    EmittedMeetsWithin(RAISED_SCALE, RAISED_VARIANCE, 100, [x, 0.0], [100, 30], 100);
  }

  lemma SlackMeets(c: real, v: real, s2: real, n0: real, n: nat)
    requires Slack(c, v, s2, n0, n as real) >= 0.0
    ensures MeetsWith(c, v, s2, n0, n)
  {
  }

  /** The cap deals the sizes out as they were. */
  lemma RaisedDealt(remaining: nat)
    requires remaining >= 130
    ensures CappedSize(2, 130, remaining) == 130 && DealFrom(130, true, [100, 30], [1.0, 0.0], 0) == [100, 30]
  {
    var ns, fs := [100, 30], [1.0, 0.0];
    assert DealFrom(130, true, ns, fs, 2) == [];
    assert Active(ns, 0) == 0 && Active(ns, 1) == 1;
    assert Ceil(130.0 * 0.0) == 0 && Ceil(130.0 * 1.0) == 130;
    assert ShareAt(130, 0, true, ns, fs, 1) == 30 && DealFrom(130, true, ns, fs, 1) == [30];
    assert [30][..0] == [] && SumN([30]) == 30 && ShareAt(130, 30, true, ns, fs, 0) == 100;
  }

  /** A minimum that is not needed can cost the target: 100 draws would meet a target that is not met yet, 100 and 30
      are emitted, the cap leaves them alone, and the target is missed. */
  method MinimumMissesTarget(sqrt: real -> real, charge: real, cost: array<real>, prev: array<int>,
                             out: array<StratumPlan>, ghost remaining: nat)
    returns (info: Metainfo)
    requires IsSqrt(sqrt) && charge <= 3.0 && cost.Length >= 2 && out.Length >= 2 && prev.Length >= 2
    requires remaining >= 130
    modifies cost, prev, out
    ensures IntervalsOf(RAISED, Id, RAISED_PREFIXES) && Spaced(RAISED_PREFIXES) && |Vals(RAISED)| == 100
    ensures var c, v, s := Sq(sqrt(RAISED_SCALE)), VarOfMean(Vals(RAISED)), Opt(WeightOf(sqrt, RAISED_PREFIXES), 2, 2);
            && Mul(c, v) > 1.0 && MeetsWith(c, v, Sq(s), 100.0, 100) && info == ManyStrata(2, 130)
            && Sizes(out[..2]) == [100, 30] && AsReals([100, 30]) == [100.0, 30.0]
            && out[0].fraction == 1.0 && out[1].fraction == 0.0
            && CappedSize(2, info.size, remaining) == 130
            && DealFrom(130, true, Sizes(out[..2]), [1.0, 0.0], 0) == [100, 30]
            && Mul(c, MixedVariance(v, 100, Sigmas(WeightOf(sqrt, RAISED_PREFIXES), [0, 1, 2]), [100, 30])) > 1.0
  {
    hide IntervalsOf, IsSqrt, Spaced, WeightOf, Opt, VarOfMean, Solve, SplitCost, Vals, FirstStop, Sq, MeetsWith, Mul;
    hide MixedVariance, DealFrom, PhaseSize, StratumSize, CappedSize, Written, SumN;
    RaisedIntervals();
    RaisedSize(sqrt, charge);
    RaisedWeights(sqrt);
    forall j, i | 0 <= j < i < |RAISED_PREFIXES| ensures WeightOf(sqrt, RAISED_PREFIXES)(j, i) >= 0.0 {
      ZeroWeightIff(RAISED, Id, RAISED_PREFIXES, sqrt, j, i);
    }
    ghost var w := WeightOf(sqrt, RAISED_PREFIXES);
    ghost var strata, split;
    info, strata, split := ComputeMetainfo(sqrt, RAISED_PREFIXES, sqrt(RAISED_SCALE), charge, RAISED_VARIANCE, 100,
                                           cost, prev, out);
    FirstStopUnique(w, 2, sqrt(RAISED_SCALE), charge, 2, strata);
    assert split == [0, 1, 2];
    RaisedWritten(w, Opt(w, 2, 2), out[..2]);
    RaisedTarget(sqrt, Opt(w, 2, 2));
    RaisedMisses(sqrt, w(0, 1));
    assert Sigmas(w, [0, 1, 2]) == [w(0, 1), 0.0];
    RaisedDealt(remaining);
  }

  lemma RaisedTarget(sqrt: real -> real, s: real)
    requires IsSqrt(sqrt) && Sq(s) == RAISED_SQUARE
    ensures Mul(RAISED_SCALE, RAISED_VARIANCE) > 1.0
    ensures MeetsWith(RAISED_SCALE, RAISED_VARIANCE, Sq(s), 100.0, 100)
  {
    hide Slack, MeetsWith, Sq;
    RaisedRoot(sqrt);
    SlackMeets(RAISED_SCALE, RAISED_VARIANCE, RAISED_SQUARE, 100.0, 100);
  }

  lemma RaisedWritten(w: Weight, s: real, out: seq<StratumPlan>)
    requires |out| == 2 && Written(w, Keys(RAISED_PREFIXES), [0, 1, 2], 0, 100, s, out)
    requires w(0, 1) == s && w(1, 2) == 0.0
    ensures out[0].fraction == 1.0 && out[1].fraction == 0.0
    ensures Sizes(out) == [100, 30] && SumN(Sizes(out)) == 130
  {
    assert WrittenFor(w, Keys(RAISED_PREFIXES), 0, 1, 100, s, out[0]);
    assert WrittenFor(w, Keys(RAISED_PREFIXES), 1, 2, 100, s, out[1]);
    QuotientIs(1.0, s, s);
    QuotientIs(0.0, 0.0, s);
    assert Ceil(100.0 * 1.0) == 100 && Ceil(100.0 * 0.0) == 0;
    assert [100, 30][..1] == [100] && [100][..0] == [];
  }

  // ----- these are the groups that the samples are put in

  /** The key stays the same from one sample to the next. */
  predicate SameKey(kv: seq<Sample>, i: int) {
    1 <= i < |kv| && kv[i - 1].key == kv[i].key
  }

  ghost predicate SameKeys(kv: seq<Sample>, from: nat, to: int) {
    forall i :: from <= i < to ==> SameKey(kv, i)
  }

  lemma {:induction false} FewChanges(kv: seq<Sample>, i: nat)
    requires 1 <= i <= |kv|
    ensures KeyChanges(kv, i) < i
  {
    if i > 1 { FewChanges(kv, i - 1); }
  }

  /** With no more keys than intervals, an interval may end where the key changes. */
  lemma MayEndAtChange(kv: seq<Sample>, p: nat, i: nat)
    requires p + 2 <= i < |kv|
    ensures MayEnd(kv, Id, p, 1, i) <==> kv[i - 1].key != kv[i].key
  {
    if kv[i - 1].key != kv[i].key {
      var ks := kv[p..i + 1];
      assert ks[i - 1 - p] == kv[i - 1] && ks[i - p] == kv[i];
      TwoKeys(RanksOf(ks, Id), kv[i - 1].key, kv[i].key);
    }
  }

  lemma TwoKeys(s: set<int>, x: int, y: int)
    requires x in s && y in s && x != y
    ensures |s| > 1
  {
    assert |s - {x}| == |s| - 1 && y in s - {x};
  }

  lemma OpenWhileSame(kv: seq<Sample>, p: nat, i: int)
    requires SameKeys(kv, p + 2, i)
    ensures OpenTo(kv, Id, p, 1, i)
  {
    forall x: nat | x < i ensures !MayEnd(kv, Id, p, 1, x) {
      if p + 2 <= x < |kv| {
        assert SameKey(kv, x);
        MayEndAtChange(kv, p, x);
      }
    }
  }

  /** Prefixes that end where the key changes are what a sample is grouped into if there is room for all its keys. */
  lemma GroupedByKey(kv: seq<Sample>, ps: seq<Prefix>, count: nat)
    requires 2 <= |kv| <= count && |ps| >= 2
    requires forall t :: 1 <= t < |ps| - 1 ==> EndsAtChange(kv, ps[t - 1].m, ps[t].m)
    requires SameKeys(kv, ps[|ps| - 2].m + 2, |kv| - 1)
    ensures Grouped(kv, Id, ps, count)
  {
    hide MayEnd, OpenTo, SameKeys;
    FewChanges(kv, |kv|);
    forall t | 1 <= t < |ps| - 1 ensures EndsEarly(kv, Id, ps[t - 1].m, 1, ps[t].m) {
      assert EndsAtChange(kv, ps[t - 1].m, ps[t].m);
      OpenWhileSame(kv, ps[t - 1].m, ps[t].m);
      MayEndAtChange(kv, ps[t - 1].m, ps[t].m);
    }
    OpenWhileSame(kv, ps[|ps| - 2].m, |kv| - 1);
  }

  ghost predicate EndsAtChange(kv: seq<Sample>, p: nat, i: nat) {
    p + 2 <= i < |kv| && kv[i - 1].key != kv[i].key && SameKeys(kv, p + 2, i)
  }

  /** All four samples are grouped as above. */
  lemma SamplesAreGrouped(count: nat)
    requires count >= 100
    ensures Grouped(STEP, Id, STEP_PREFIXES, count) && Grouped(PAIRS, Id, PAIR_PREFIXES, count)
    ensures Grouped(SPARSE, Id, SPARSE_PREFIXES, count) && Grouped(RAISED, Id, RAISED_PREFIXES, count)
  {
    hide Grouped;
    GroupedByKey(STEP, STEP_PREFIXES, count);
    GroupedByKey(PAIRS, PAIR_PREFIXES, count);
    GroupedByKey(SPARSE, SPARSE_PREFIXES, count);
    GroupedByKey(RAISED, RAISED_PREFIXES, count);
  }
}
