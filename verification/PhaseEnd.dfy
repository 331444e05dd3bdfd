/** The size of the next phase at the end of a phase. The solver is given the sum of the roots of the variances of means
    of all strata but the last. The deviations that draws have are the roots of those variances times the numbers of
    draws they are means of, over all strata. */
module PhaseEnd {
  import opened Reals
  import opened Moments
  import opened Streaming
  import opened SampleSize
  import opened Allocation
  import opened BudgetCap
  import opened Estimator

  /** Deviation of one draw in a stratum. */
  function Deviation(p: Stratum, sqrt: real -> real): real {
    sqrt(Mul(p.n as real, p.variance))
  }

  /** Deviations of the first `k` strata, in entries 1 to k. */
  function Deviations(part: seq<Stratum>, sqrt: real -> real, k: nat): real
    requires k < |part|
  {
    if k == 0 then 0.0 else Deviations(part, sqrt, k - 1) + Deviation(part[k], sqrt)
  }

  /** Variances are not negative, and zero without draws. */
  ghost predicate Plausible(part: seq<Stratum>) {
    forall i :: 1 <= i < |part| ==> part[i].variance >= 0.0 && (part[i].n == 0 ==> part[i].variance == 0.0)
  }

  lemma DescribedIsPlausible(part: seq<Stratum>, hist: seq<seq<real>>)
    requires |part| == |hist| && forall i :: 1 <= i < |part| ==> Describes(part[i], hist[i])
    ensures Plausible(part)
  {
    forall i | 1 <= i < |part| ensures part[i].variance >= 0.0 && (part[i].n == 0 ==> part[i].variance == 0.0) {
      DescribedVarianceNonNegative(part[i], hist[i]);
    }
  }

  // ----- the two sums

  lemma RootsOrdered(sqrt: real -> real, x: real, y: real)
    requires 0.0 <= x <= y && RootAt(sqrt, x) && RootAt(sqrt, y)
    ensures 0.0 <= sqrt(x) <= sqrt(y) && (sqrt(x) == sqrt(y) <==> x == y)
  {
    if sqrt(y) < sqrt(x) { SquaresOrdered(sqrt(y), sqrt(x)); }
  }

  lemma RootVersusDeviation(p: Stratum, sqrt: real -> real)
    requires p.variance >= 0.0 && (p.n == 0 ==> p.variance == 0.0) && forall x :: RootAt(sqrt, x)
    ensures 0.0 <= sqrt(p.variance) <= Deviation(p, sqrt)
    ensures sqrt(p.variance) == Deviation(p, sqrt) <==> p.n <= 1 || p.variance == 0.0
    ensures Deviation(p, sqrt) == 0.0 <==> p.variance == 0.0
  {
    hide Mul;
    TimesCount(p.n, p.variance);
    RootsOrdered(sqrt, p.variance, Mul(p.n as real, p.variance));
    RootsOrdered(sqrt, 0.0, Mul(p.n as real, p.variance));
    RootOfZero(sqrt);
  }

  lemma TimesCount(n: nat, v: real)
    requires v >= 0.0 && (n == 0 ==> v == 0.0)
    ensures Mul(n as real, v) >= v && (Mul(n as real, v) == v <==> n <= 1 || v == 0.0)
  {
    assert n >= 1 ==> Mul(n as real - 1.0, v) >= 0.0;
    assert n >= 2 && v > 0.0 ==> Mul(n as real - 1.0, v) > 0.0;
  }

  lemma RootOfZero(sqrt: real -> real)
    requires RootAt(sqrt, 0.0)
    ensures sqrt(0.0) == 0.0
  {
    if sqrt(0.0) > 0.0 { SquaresOrdered(0.0, sqrt(0.0)); }
  }

  /** Nothing is missing from the code's sum: no stratum but the last has both a variance and more than one draw, and
      the last has no variance. */
  ghost predicate NothingMissing(part: seq<Stratum>, k: nat)
    requires 1 <= k < |part|
  {
    && (forall i :: 1 <= i < k ==> part[i].n <= 1 || part[i].variance == 0.0)
    && part[k].variance == 0.0
  }

  lemma {:induction false} SumsCompared(part: seq<Stratum>, sqrt: real -> real, k: nat)
    requires 1 <= k < |part| && Plausible(part) && forall x :: RootAt(sqrt, x)
    ensures var code := SumOfRoots(Variances(part), sqrt, k);
            && 0.0 <= code <= Deviations(part, sqrt, k - 1)
            && (code == Deviations(part, sqrt, k - 1)
                <==> forall i :: 1 <= i < k ==> part[i].n <= 1 || part[i].variance == 0.0)
  {
    if k > 1 {
      SumsCompared(part, sqrt, k - 1);
      RootVersusDeviation(part[k - 1], sqrt);
    }
  }

  /** The code's sum is at most the sum of the deviations, and equal to it exactly when nothing is missing. */
  lemma SumsAgreeIff(part: seq<Stratum>, sqrt: real -> real, k: nat)
    requires 1 <= k < |part| && Plausible(part) && forall x :: RootAt(sqrt, x)
    ensures var code := SumOfRoots(Variances(part), sqrt, k);
            && 0.0 <= code <= Deviations(part, sqrt, k)
            && (code == Deviations(part, sqrt, k) <==> NothingMissing(part, k))
  {
    hide SumOfRoots;
    SumsCompared(part, sqrt, k);
    RootVersusDeviation(part[k], sqrt);
  }

  // ----- the solver on the smaller sum

  /** The larger root, before rounding. */
  function Root(c: real, v: real, s2: real, n0: real, sqrt: real -> real): real {
    HalfSlope(c, s2, n0) + sqrt(Radicand(c, v, s2, n0))
  }

  /** What is left of the target with `n` draws. */
  function Slack(c: real, v: real, s2: real, n0: real, n: real): real {
    Sq(n0 + n) - c * (v * Sq(n0) + s2 * n)
  }

  lemma MeetsFromRoot(c: real, v: real, s2: real, n0: real, sqrt: real -> real)
    requires c * v > 1.0 && n0 > 0.0 && RootAt(sqrt, Radicand(c, v, s2, n0))
    ensures Root(c, v, s2, n0, sqrt) > 0.0
    ensures forall n: real :: n >= 0.0 ==> (Meets(c, v, s2, n0, n) <==> Root(c, v, s2, n0, sqrt) <= n)
  {
    hide HalfSlope, Radicand, Meets;
    RadicandNonNegative(c, v, s2, n0);
    RootsStraddleZero(c, v, s2, n0, sqrt(Radicand(c, v, s2, n0)));
    NotMetYet(c, v, s2, n0);
    forall n: real
      ensures Meets(c, v, s2, n0, n) <==>
                n <= HalfSlope(c, s2, n0) - sqrt(Radicand(c, v, s2, n0)) || Root(c, v, s2, n0, sqrt) <= n
    {
      MeetsAtRoots(c, v, s2, n0, sqrt(Radicand(c, v, s2, n0)), n);
    }
    assert !Meets(c, v, s2, n0, 0.0);
  }

  lemma NoSlackAtRoot(c: real, v: real, s2: real, n0: real, sqrt: real -> real)
    requires RootAt(sqrt, Radicand(c, v, s2, n0)) && Radicand(c, v, s2, n0) >= 0.0
    ensures Slack(c, v, s2, n0, Root(c, v, s2, n0, sqrt)) == 0.0
  {
    hide HalfSlope, Radicand, Sq;
    SlackFactors(c, v, s2, n0, sqrt(Radicand(c, v, s2, n0)), Root(c, v, s2, n0, sqrt));
  }

  /** With the target not met, the solver rounds the larger root up. */
  lemma SolvedByRoot(c: real, v: real, s2: real, n0: real, sqrt: real -> real)
    requires c * v > 1.0 && n0 > 0.0 && RootAt(sqrt, Radicand(c, v, s2, n0))
    ensures Solve(c, v, s2, n0, sqrt) == LargerRoot(Ceil(Root(c, v, s2, n0, sqrt)))
  {
    hide HalfSlope, Radicand, Meets;
    RadicandNonNegative(c, v, s2, n0);
    RootsStraddleZero(c, v, s2, n0, sqrt(Radicand(c, v, s2, n0)));
    MeetsFromRoot(c, v, s2, n0, sqrt);
  }

  /** Another sum of deviations has its target met at the root exactly when it is no larger. */
  lemma MeetsAtRootIff(c: real, v: real, s2: real, other: real, n0: real, sqrt: real -> real)
    requires c > 0.0 && c * v > 1.0 && n0 > 0.0 && RootAt(sqrt, Radicand(c, v, s2, n0))
    ensures Meets(c, v, other, n0, Root(c, v, s2, n0, sqrt)) <==> other <= s2
  {
    hide HalfSlope, Radicand, Sq, Root;
    RadicandNonNegative(c, v, s2, n0);
    NoSlackAtRoot(c, v, s2, n0, sqrt);
    MeetsFromRoot(c, v, s2, n0, sqrt);
    SlackOfOther(c, v, s2, other, n0, Root(c, v, s2, n0, sqrt));
    SignOfMissing(c, Root(c, v, s2, n0, sqrt), other - s2);
  }

  /** More deviation costs slack in proportion. */
  lemma SlackOfOther(c: real, v: real, s2: real, other: real, n0: real, n: real)
    ensures Slack(c, v, other, n0, n) == Slack(c, v, s2, n0, n) - Missing(c, n, other - s2)
    ensures Meets(c, v, other, n0, n) <==> Missing(c, n, other - s2) <= Slack(c, v, s2, n0, n)
  {
    hide Sq;
    assert c * (v * Sq(n0) + other * n) == c * (v * Sq(n0) + s2 * n) + c * n * (other - s2);
  }

  function Missing(c: real, n: real, d: real): real {
    c * n * d
  }

  lemma SignOfMissing(c: real, n: real, d: real)
    requires c > 0.0 && n > 0.0
    ensures Missing(c, n, d) <= 0.0 <==> d <= 0.0
  {
    assert c * n * d == Mul(Mul(c, n), d) && -(c * n * d) == Mul(Mul(c, n), -d);
  }

  /** Rounding up gains less slack than the distance between the roots and one draw. */
  lemma SlackOfRounding(c: real, v: real, s2: real, n0: real, sqrt: real -> real)
    requires c * v > 1.0 && n0 > 0.0 && RootAt(sqrt, Radicand(c, v, s2, n0))
    ensures Slack(c, v, s2, n0, Ceil(Root(c, v, s2, n0, sqrt)) as real) < 2.0 * sqrt(Radicand(c, v, s2, n0)) + 1.0
  {
    hide HalfSlope, Radicand, Sq;
    RadicandNonNegative(c, v, s2, n0);
    var t1, t2 := HalfSlope(c, s2, n0), sqrt(Radicand(c, v, s2, n0));
    var n := Ceil(Root(c, v, s2, n0, sqrt)) as real;
    SlackFactors(c, v, s2, n0, t2, n);
    ShortProduct(n - (t1 - t2), n - (t1 + t2), 2.0 * t2);
  }

  lemma ShortProduct(a: real, b: real, d: real)
    requires d >= 0.0 && 0.0 <= b < 1.0 && a == b + d
    ensures a * b < d + 1.0
  {
    assert Mul(a, 1.0 - b) >= 0.0 && a < d + 1.0;
  }

  /** At the end of a phase over `k` strata, with the target not met: the size asked for is at most the size that the
      deviations of all strata need. Before rounding it meets the target exactly when nothing is missing from the sum;
      after rounding, exactly when the missing part takes up no more than the slack gained, which is less than the
      distance between the roots and one draw. */
  lemma EndOfPhaseMeetsIff(part: seq<Stratum>, hist: seq<seq<real>>, k: nat, c: real, v: real, n0: real,
                           sqrt: real -> real)
    requires 1 <= k < |part| == |hist| && forall i :: 1 <= i < |part| ==> Describes(part[i], hist[i])
    requires c > 0.0 && c * v > 1.0 && n0 > 0.0 && forall x :: RootAt(sqrt, x)
    ensures var code, all := Sq(SumOfRoots(Variances(part), sqrt, k)), Sq(Deviations(part, sqrt, k));
            var r, full := Solve(c, v, code, n0, sqrt), Solve(c, v, all, n0, sqrt);
            && r.LargerRoot? && full.LargerRoot? && r.n <= full.n
            && (Meets(c, v, all, n0, Root(c, v, code, n0, sqrt)) <==> NothingMissing(part, k))
            && (MeetsWith(c, v, all, n0, r.n)
                <==> Missing(c, r.n as real, all - code) <= Slack(c, v, code, n0, r.n as real))
            && Slack(c, v, code, n0, r.n as real) < 2.0 * sqrt(Radicand(c, v, code, n0)) + 1.0
  {
    hide SumOfRoots, Deviations, RootAt, Radicand, HalfSlope, Sq, Solve, Root, NothingMissing, Slack, Missing, Meets;
    hide Describes, Plausible;
    DescribedIsPlausible(part, hist);
    var code, all := Sq(SumOfRoots(Variances(part), sqrt, k)), Sq(Deviations(part, sqrt, k));
    SumsAgreeIff(part, sqrt, k);
    SquaresCompared(SumOfRoots(Variances(part), sqrt, k), Deviations(part, sqrt, k));
    SolvedByRoot(c, v, code, n0, sqrt);
    SolvedByRoot(c, v, all, n0, sqrt);
    MeetsAtRootIff(c, v, code, all, n0, sqrt);
    MeetsAtRootIff(c, v, all, code, n0, sqrt);
    MeetsFromRoot(c, v, code, n0, sqrt);
    MeetsFromRoot(c, v, all, n0, sqrt);
    CeilOrdered(Root(c, v, code, n0, sqrt), Root(c, v, all, n0, sqrt));
    SlackOfOther(c, v, code, all, n0, Ceil(Root(c, v, code, n0, sqrt)) as real);
    SlackOfRounding(c, v, code, n0, sqrt);
  }

  /** What is drawn is the solved size after the cap, which lowers it to the budget and raises it to the minimum of the
      strata. It meets the target exactly when the budget holds the size that the deviations of all strata need, and
      that size is asked for or within the minimum. */
  lemma CappedPhaseMeetsIff(part: seq<Stratum>, hist: seq<seq<real>>, k: nat, c: real, v: real, n0: real,
                            sqrt: real -> real, remaining: nat)
    requires 1 <= k < |part| == |hist| && forall i :: 1 <= i < |part| ==> Describes(part[i], hist[i])
    requires c > 0.0 && c * v > 1.0 && n0 > 0.0 && forall x :: RootAt(sqrt, x)
    ensures var code, all := Sq(SumOfRoots(Variances(part), sqrt, k)), Sq(Deviations(part, sqrt, k));
            var r, full := Solve(c, v, code, n0, sqrt), Solve(c, v, all, n0, sqrt);
            && r.LargerRoot? && full.LargerRoot? && 1 <= r.n <= full.n
            && (MeetsWith(c, v, all, n0, CappedSize(k, r.n, remaining))
                <==> full.n <= remaining && (full.n <= r.n || full.n <= MIN_STRATUM * k))
  {
    hide SumOfRoots, Deviations, RootAt, Sq, Solve, NothingMissing, Slack, Missing, Meets, MeetsWith, CappedSize;
    hide Describes, Root, Radicand;
    EndOfPhaseMeetsIff(part, hist, k, c, v, n0, sqrt);
    var code, all := Sq(SumOfRoots(Variances(part), sqrt, k)), Sq(Deviations(part, sqrt, k));
    SolvedIsPositive(c, v, code, n0, sqrt);
    MeetsFromFull(c, v, all, n0, CappedSize(k, Solve(c, v, code, n0, sqrt).n, remaining), sqrt);
    CapReaches(k, Solve(c, v, code, n0, sqrt).n, remaining, Solve(c, v, all, n0, sqrt).n);
  }

  lemma MeetsFromFull(c: real, v: real, s2: real, n0: real, m: nat, sqrt: real -> real)
    requires c * v > 1.0 && n0 > 0.0 && RootAt(sqrt, Radicand(c, v, s2, n0))
    ensures var full := Solve(c, v, s2, n0, sqrt);
            full.LargerRoot? && full.n >= 1 && (MeetsWith(c, v, s2, n0, m) <==> m >= full.n)
  {
    hide Meets, Radicand, Solve;
    NotMetYet(c, v, s2, n0);
    SolvedIsPositive(c, v, s2, n0, sqrt);
    MeetsIff(c, v, s2, n0, if m == 0 then 1 else m, sqrt);
  }

  lemma CapReaches(k: nat, request: nat, remaining: nat, full: nat)
    ensures CappedSize(k, request, remaining) >= full
            <==> full <= remaining && (full <= request || full <= MIN_STRATUM * k)
  {
  }

  lemma SquaresCompared(x: real, y: real)
    requires 0.0 <= x <= y
    ensures Sq(x) <= Sq(y) && (Sq(y) <= Sq(x) <==> x == y)
  {
    if x < y { SquaresOrdered(x, y); }
  }

  lemma CeilOrdered(x: real, y: real)
    requires x <= y
    ensures Ceil(x) <= Ceil(y)
  {
  }

  // ----- a phase that falls short

  /** Phase 0 drew 600 values, half of them 0 and half 1; a phase over two strata then drew 300 zeros in the first and
      150 zeros and 150 ones in the second. */
  const DRAWN := [Copies(0.0, 300) + Copies(1.0, 300), Copies(0.0, 300), Copies(0.0, 150) + Copies(1.0, 150)]
  const ENTRIES := [Stratum(600, 0.5, 1.0 / 2396.0), Stratum(300, 0.0, 0.0), Stratum(300, 0.5, 1.0 / 1196.0)]
  const TOTAL_VARIANCE := MixVar(0.5, 1.0 / 2396.0, 1.0 / 1196.0)
  const SQUARED_SCALE := 49.0 / 36.0 / TOTAL_VARIANCE

  lemma EntriesDescribed()
    ensures forall i :: 0 <= i < 3 ==> Describes(ENTRIES[i], DRAWN[i])
  {
    hide Mean, Sxx;
    HalfAndHalf(0.0, 1.0, 300);
    HalfAndHalf(0.0, 1.0, 150);
    CopiesStats(0.0, 300);
  }

  /** The variance of the total is that of the mix, over 600 uniform draws and 1200 in all. With a half width 7/6 of the
      target, 200 more draws are asked for, more than the minimum of two strata, so that the cap leaves them alone. The
      deviation of the second stratum has been left out, and with it 200 draws do not meet the target. */
  lemma EndOfPhaseFallsShort(sqrt: real -> real, remaining: nat)
    requires remaining >= 200 && forall x :: RootAt(sqrt, x)
    ensures forall i :: 0 <= i < 3 ==> Describes(ENTRIES[i], DRAWN[i])
    ensures TOTAL_VARIANCE == MixVar(Alpha(600, 1200), ENTRIES[0].variance, VarSum(ENTRIES, 2)) > 0.0
    ensures var c, v := SQUARED_SCALE, TOTAL_VARIANCE;
            && c > 0.0 && c * v > 1.0
            && Solve(c, v, Sq(SumOfRoots(Variances(ENTRIES), sqrt, 2)), 1200.0, sqrt) == LargerRoot(200)
            && CappedSize(2, 200, remaining) == 200
            && !MeetsWith(c, v, Sq(Deviations(ENTRIES, sqrt, 2)), 1200.0, CappedSize(2, 200, remaining))
  {
    EntriesDescribed();
    assert VarSum(ENTRIES, 2) == 1.0 / 1196.0;
    assert TOTAL_VARIANCE > 0.0 && SQUARED_SCALE > 0.0 && SQUARED_SCALE * TOTAL_VARIANCE == 49.0 / 36.0;
    RootOfZero(sqrt);
    assert SumOfRoots(Variances(ENTRIES), sqrt, 2) == 0.0;
    assert Deviations(ENTRIES, sqrt, 2) == Deviation(ENTRIES[1], sqrt) + Deviation(ENTRIES[2], sqrt);
    RootVersusDeviation(ENTRIES[1], sqrt);
    RootVersusDeviation(ENTRIES[2], sqrt);
    ShortByAll(SQUARED_SCALE, TOTAL_VARIANCE, Sq(Deviations(ENTRIES, sqrt, 2)), sqrt);
  }

  lemma ShortByAll(c: real, v: real, s2: real, sqrt: real -> real)
    requires c > 0.0 && c * v == 49.0 / 36.0 && s2 > 0.0 && RootAt(sqrt, 1960000.0)
    ensures Solve(c, v, 0.0, 1200.0, sqrt) == LargerRoot(200) && !MeetsWith(c, v, s2, 1200.0, 200)
  {
    assert HalfSlope(c, 0.0, 1200.0) == -1200.0;
    assert Radicand(c, v, 0.0, 1200.0) == 1960000.0;
    SameRoot(sqrt(1960000.0), 1400.0);
    assert Ceil(200.0) == 200;
    hide Radicand, HalfSlope;
    assert c * (v * Sq(1200.0) + s2 * 200.0) == c * v * Sq(1200.0) + 200.0 * Mul(c, s2);
  }
}
