/** Whether a phase meets the target when it is drawn as emitted: the equation is solved for a number of draws in exact
    proportion to the deviations, while the sizes emitted are rounded up and raised to a minimum, and the mix with the
    uniform draws weighs the phase by all of them. */
module EmittedPhase {
  import opened Reals
  import opened SampleSize
  import opened Allocation
  import opened StrataDP
  import opened BudgetCap
  import opened Estimator
  import opened PhaseEnd

  /** By how much the draws fall short of exact proportion: zero at best. */
  function Excess(sigma: seq<real>, sizes: seq<nat>): real
    requires |sigma| == |sizes| && forall t :: 0 <= t < |sizes| ==> AsReals(sizes)[t] > 0.0
  {
    ExcessOf(SumR(sigma), SumN(sizes) as real, StratifiedVariance(sigma, AsReals(sizes)))
  }

  function ExcessOf(s: real, m: real, w: real): real {
    Sq(m) * w - Sq(s) * m
  }

  lemma {:induction false} SumOfReals(sizes: seq<nat>)
    ensures SumR(AsReals(sizes)) == SumN(sizes) as real
  {
    if sizes != [] {
      var k := |sizes| - 1;
      SumOfReals(sizes[..k]);
      assert AsReals(sizes)[..k] == AsReals(sizes[..k]);
    }
  }

  /** No sizes do better than exact proportion. */
  lemma ExcessNonNegative(sigma: seq<real>, sizes: seq<nat>)
    requires |sigma| == |sizes| && sigma != [] && forall t :: 0 <= t < |sizes| ==> AsReals(sizes)[t] > 0.0
    ensures SumN(sizes) > 0 && Excess(sigma, sizes) >= 0.0
  {
    hide StratifiedVariance, SumR, SumN, Sq;
    NoSplitIsBetter(sigma, AsReals(sizes));
    SumOfReals(sizes);
    ExcessScalar(SumR(sigma), SumN(sizes) as real, StratifiedVariance(sigma, AsReals(sizes)));
  }

  lemma ExcessScalar(s: real, m: real, v: real)
    requires m > 0.0 && v >= SquareOver(s, m)
    ensures ExcessOf(s, m, v) >= 0.0
  {
    QuotientTimes(s * s, m);
    ProductMonotone(SquareOver(s, m), v, Sq(m));
    assert SquareOver(s, m) * (m * m) == (SquareOver(s, m) * m) * m;
  }

  /** The mixed variance after the phase, over `n0` uniform draws of variance `v`. */
  function MixedVariance(v: real, n0: nat, sigma: seq<real>, sizes: seq<nat>): real
    requires |sigma| == |sizes| && n0 > 0 && forall t :: 0 <= t < |sizes| ==> AsReals(sizes)[t] > 0.0
  {
    MixVar(Alpha(n0, n0 + SumN(sizes)), v, StratifiedVariance(sigma, AsReals(sizes)))
  }

  /** A phase drawn as emitted meets the target exactly when its excess takes up no more than the slack that its number
      of draws leaves in the equation. */
  lemma EmittedMeetsIff(c: real, v: real, n0: nat, sigma: seq<real>, sizes: seq<nat>)
    requires |sigma| == |sizes| && n0 > 0 && forall t :: 0 <= t < |sizes| ==> AsReals(sizes)[t] > 0.0
    ensures Mul(c, MixedVariance(v, n0, sigma, sizes)) <= 1.0
            <==> Mul(c, Excess(sigma, sizes)) <= Slack(c, v, Sq(SumR(sigma)), n0 as real, SumN(sizes) as real)
  {
    hide StratifiedVariance, SumR, SumN, Sq, Mul, MixVar, Alpha, ExcessOf, Slack;
    MeetsScalar(c, v, n0, SumN(sizes), SumR(sigma), StratifiedVariance(sigma, AsReals(sizes)));
  }

  lemma MeetsScalar(c: real, v: real, n0: nat, m: nat, s: real, w: real)
    requires n0 > 0
    ensures Mul(c, MixVar(Alpha(n0, n0 + m), v, w)) <= 1.0
            <==> Mul(c, ExcessOf(s, m as real, w)) <= Slack(c, v, Sq(s), n0 as real, m as real)
  {
    hide MixVar, Alpha, Sq;
    MixScalar(v, w, n0, m);
    TargetScalar(c, Sq(n0 as real) * v + Sq(m as real) * w, MixVar(Alpha(n0, n0 + m), v, w), Sq((n0 + m) as real));
    SlackScalar(c, v, w, Sq(s), Sq(n0 as real), m as real, Sq(m as real), Sq((n0 + m) as real));
  }

  lemma MixScalar(v: real, w: real, n0: nat, m: nat)
    requires n0 > 0
    ensures MixVar(Alpha(n0, n0 + m), v, w) * Sq((n0 + m) as real) == Sq(n0 as real) * v + Sq(m as real) * w
    ensures Sq(n0 as real + m as real) == Sq((n0 + m) as real) > 0.0
  {
    var a, t := Alpha(n0, n0 + m), (n0 + m) as real;
    QuotientTimes(n0 as real, t);
    calc {
      (a * a * v + (1.0 - a) * (1.0 - a) * w) * (t * t);
      (a * t) * (a * t) * v + (t - a * t) * (t - a * t) * w;
      n0 as real * n0 as real * v + m as real * m as real * w;
    }
  }

  lemma SlackScalar(c: real, v: real, w: real, s2: real, a2: real, m: real, m2: real, t2: real)
    ensures c * (a2 * v + m2 * w) <= t2 <==> c * (m2 * w - s2 * m) <= t2 - c * (v * a2 + s2 * m)
  {
    assert c * (a2 * v + m2 * w) == c * (m2 * w - s2 * m) + c * (v * a2 + s2 * m);
  }

  // ----- when the sizes emitted are few enough

  /** The `m` draws emitted weigh no more against the uniform draws than the `n` solved for can pay for. */
  predicate WithinMeans(c: real, s2: real, n0: real, n: real, m: real) {
    Mul(Mul(c, s2), m + n) <= Mul(n, 2.0 * n0 + m + n)
  }

  /** How far a phase of `m` draws with variance `w` is from the target, against one of `n` draws in exact
      proportion. */
  lemma SlackOfEmitted(c: real, v: real, s: real, n0: real, n: real, m: real, w: real)
    ensures n * (Slack(c, v, Sq(s), n0, m) - Mul(c, ExcessOf(s, m, w)))
            == (m - n) * (Mul(n, 2.0 * n0 + m + n) - Mul(Mul(c, Sq(s)), m + n))
               + n * Slack(c, v, Sq(s), n0, n) + Mul(c, Sq(m)) * (Sq(s) - Mul(w, n))
  {
    SquaresApart(n0, n, m);
    SquaresApart(0.0, n, m);
    SquareIs(n);
    hide Sq, Slack, ExcessOf, Mul;
    SlackTerms(c, v, s, n0, n, m, w);
    MeansTerms(Mul(c, Sq(s)), n, m, n0, Sq(n0 + n), Sq(n0 + m), Sq(m));
  }

  lemma SlackTerms(c: real, v: real, s: real, n0: real, n: real, m: real, w: real)
    ensures n * (Slack(c, v, Sq(s), n0, m) - Mul(c, ExcessOf(s, m, w)))
            == n * (Sq(n0 + m) - Sq(n0 + n)) - Mul(c, Sq(s)) * (Sq(m) - n * n)
               + n * Slack(c, v, Sq(s), n0, n) + Mul(c, Sq(m)) * (Sq(s) - Mul(w, n))
  {
    hide Sq, Mul;
    TermsOf(c, v * Sq(n0), Sq(s), n, m, w, Sq(n0 + n), Sq(n0 + m), Sq(m),
            Slack(c, v, Sq(s), n0, m), Slack(c, v, Sq(s), n0, n), ExcessOf(s, m, w));
  }

  lemma MeansTerms(cs: real, n: real, m: real, n0: real, tn: real, tm: real, m2: real)
    requires tm - tn == (m - n) * (2.0 * n0 + m + n) && m2 - n * n == (m - n) * (m + n)
    ensures (m - n) * (Mul(n, 2.0 * n0 + m + n) - Mul(cs, m + n)) == n * (tm - tn) - cs * (m2 - n * n)
  {
    assert (m - n) * Mul(n, 2.0 * n0 + m + n) == n * ((m - n) * (2.0 * n0 + m + n));
    assert (m - n) * Mul(cs, m + n) == cs * ((m - n) * (m + n));
  }

  lemma SquaresApart(a: real, n: real, m: real)
    ensures Sq(a + m) - Sq(a + n) == (m - n) * (2.0 * a + m + n)
  {
  }

  lemma TermsOf(c: real, base: real, s2: real, n: real, m: real, w: real, tn: real, tm: real, m2: real, after: real,
                before: real, excess: real)
    requires after == tm - c * (base + s2 * m) && before == tn - c * (base + s2 * n) && excess == m2 * w - s2 * m
    ensures n * (after - Mul(c, excess))
            == n * (tm - tn) - Mul(c, s2) * (m2 - n * n) + n * before + Mul(c, m2) * (s2 - Mul(w, n))
  {
    Terms(c, base, s2, n, m, w, tn, tm, m2);
  }

  lemma Terms(c: real, base: real, s2: real, n: real, m: real, w: real, tn: real, tm: real, m2: real)
    ensures n * ((tm - c * (base + s2 * m)) - Mul(c, m2 * w - s2 * m))
            == n * (tm - tn) - Mul(c, s2) * (m2 - n * n) + n * (tn - c * (base + s2 * n))
               + Mul(c, m2) * (s2 - Mul(w, n))
  {
    assert c * (base + s2 * m) + c * (m2 * w - s2 * m) == c * base + c * (m2 * w);
    calc {
      n * (tm - tn) - c * s2 * (m2 - n * n) + n * (tn - c * (base + s2 * n)) + c * m2 * (s2 - w * n);
      { assert n * (tn - c * (base + s2 * n)) == n * tn - n * (c * base) - c * s2 * (n * n); }
      { assert c * s2 * (m2 - n * n) == c * s2 * m2 - c * s2 * (n * n); }
      { assert c * m2 * (s2 - w * n) == c * s2 * m2 - n * (c * (m2 * w)); }
      n * tm - n * (c * base) - n * (c * (m2 * w));
    }
  }

  /** Sizes whose variance is within that of `n` draws in exact proportion are at least `n` draws. */
  lemma NoFewerDraws(sigma: seq<real>, sizes: seq<nat>, n: nat)
    requires |sigma| == |sizes| && sigma != [] && forall t :: 0 <= t < |sizes| ==> AsReals(sizes)[t] > 0.0
    requires n >= 1 && SumR(sigma) > 0.0
    requires Mul(StratifiedVariance(sigma, AsReals(sizes)), n as real) <= Sq(SumR(sigma))
    ensures SumN(sizes) >= n
  {
    hide StratifiedVariance, SumR, SumN, Sq, Mul, ExcessOf;
    ExcessNonNegative(sigma, sizes);
    CountScalar(SumR(sigma), SumN(sizes) as real, n as real, StratifiedVariance(sigma, AsReals(sizes)));
  }

  lemma CountScalar(s: real, m: real, n: real, w: real)
    requires s > 0.0 && m > 0.0 && n > 0.0 && ExcessOf(s, m, w) >= 0.0 && Mul(w, n) <= Sq(s)
    ensures m >= n
  {
    var s2 := Sq(s);
    assert s2 > 0.0;
    hide Sq;
    assert Sq(m) == m * m by { SquareIs(m); }
    assert -ExcessOf(s, m, w) == Mul(m, s2 - m * w);
    assert m * w >= s2;
    assert w > 0.0 by { assert w <= 0.0 ==> Mul(m, -w) >= 0.0; }
    assert m < n ==> Mul(n - m, w) > 0.0;
  }

  lemma SquareIs(x: real)
    ensures Sq(x) == x * x
  {
  }

  /** A phase that is solved for `n` draws and emitted with sizes at least as good meets the target if the draws emitted
      are within its means. Where nothing is to spare, neither in the equation nor in the sizes, and more draws are
      emitted than solved for, it meets the target only then. */
  lemma EmittedMeetsWithin(c: real, v: real, n0: nat, sigma: seq<real>, sizes: seq<nat>, n: nat)
    requires |sigma| == |sizes| && sigma != [] && n0 > 0 && forall t :: 0 <= t < |sizes| ==> AsReals(sizes)[t] > 0.0
    requires c > 0.0 && n >= 1 && SumR(sigma) > 0.0 && MeetsWith(c, v, Sq(SumR(sigma)), n0 as real, n)
    requires Mul(StratifiedVariance(sigma, AsReals(sizes)), n as real) <= Sq(SumR(sigma))
    ensures SumN(sizes) >= n
    ensures WithinMeans(c, Sq(SumR(sigma)), n0 as real, n as real, SumN(sizes) as real)
            ==> Mul(c, MixedVariance(v, n0, sigma, sizes)) <= 1.0
    ensures Slack(c, v, Sq(SumR(sigma)), n0 as real, n as real) == 0.0 && SumN(sizes) > n
            && Mul(StratifiedVariance(sigma, AsReals(sizes)), n as real) == Sq(SumR(sigma))
            ==> (Mul(c, MixedVariance(v, n0, sigma, sizes)) <= 1.0
                 <==> WithinMeans(c, Sq(SumR(sigma)), n0 as real, n as real, SumN(sizes) as real))
  {
    hide StratifiedVariance, SumR, SumN, Sq, Mul, MixedVariance, ExcessOf, Slack, WithinMeans;
    NoFewerDraws(sigma, sizes, n);
    EmittedMeetsIff(c, v, n0, sigma, sizes);
    SlackOfSolved(c, v, Sq(SumR(sigma)), n0 as real, n);
    WithinScalar(c, v, SumR(sigma), n0 as real, n as real, SumN(sizes) as real,
                 StratifiedVariance(sigma, AsReals(sizes)));
  }

  lemma SlackOfSolved(c: real, v: real, s2: real, n0: real, n: nat)
    requires MeetsWith(c, v, s2, n0, n)
    ensures Slack(c, v, s2, n0, n as real) >= 0.0
  {
  }

  lemma WithinScalar(c: real, v: real, s: real, n0: real, n: real, m: real, w: real)
    requires c > 0.0 && 1.0 <= n <= m && Slack(c, v, Sq(s), n0, n) >= 0.0 && Mul(w, n) <= Sq(s)
    ensures WithinMeans(c, Sq(s), n0, n, m) ==> Mul(c, ExcessOf(s, m, w)) <= Slack(c, v, Sq(s), n0, m)
    ensures Slack(c, v, Sq(s), n0, n) == 0.0 && m > n && Mul(w, n) == Sq(s)
            ==> (Mul(c, ExcessOf(s, m, w)) <= Slack(c, v, Sq(s), n0, m) <==> WithinMeans(c, Sq(s), n0, n, m))
  {
    SlackOfEmitted(c, v, s, n0, n, m, w);
    hide Slack, ExcessOf, Sq;
    var means := Mul(n, 2.0 * n0 + m + n) - Mul(Mul(c, Sq(s)), m + n);
    hide Mul;
    SignScalar(n, m - n, Slack(c, v, Sq(s), n0, m) - Mul(c, ExcessOf(s, m, w)), means,
               Slack(c, v, Sq(s), n0, n), Mul(c, Sq(m)), Sq(s) - Mul(w, n));
  }

  lemma SignScalar(n: real, d: real, gap: real, means: real, slack: real, weight: real, spare: real)
    requires n > 0.0 && d >= 0.0 && slack >= 0.0 && weight >= 0.0 && spare >= 0.0
    requires n * gap == d * means + n * slack + weight * spare
    ensures means >= 0.0 ==> gap >= 0.0
    ensures slack == 0.0 && spare == 0.0 && d > 0.0 ==> (gap >= 0.0 <==> means >= 0.0)
  {
    assert Mul(n, slack) >= 0.0 && Mul(weight, spare) >= 0.0;
    assert means >= 0.0 ==> Mul(d, means) >= 0.0;
    assert d > 0.0 && means < 0.0 ==> Mul(d, -means) > 0.0;
    assert gap < 0.0 ==> Mul(n, -gap) > 0.0;
    assert gap >= 0.0 ==> Mul(n, gap) >= 0.0;
  }

  /** The same for strata as written for a solved phase: the condition is on the two numbers of draws alone. */
  lemma WrittenMeetsWithin(c: real, v: real, n0: nat, w: Weight, keys: seq<int>, split: seq<nat>, phase: nat, s: real,
                           out: seq<StratumPlan>)
    requires Written(w, keys, split, 0, phase, s, out) && s > 0.0 && SplitCost(w, split) == s && phase >= 1
    requires c > 0.0 && n0 > 0 && MeetsWith(c, v, Sq(s), n0 as real, phase)
    requires WithinMeans(c, Sq(s), n0 as real, phase as real, SumN(Sizes(out)) as real)
    ensures |split| == |out| + 1 && SumN(Sizes(out)) >= phase
    ensures forall t :: 0 <= t < |out| ==> AsReals(Sizes(out))[t] > 0.0
    ensures Mul(c, MixedVariance(v, n0, Sigmas(w, split), Sizes(out))) <= 1.0
  {
    hide StratifiedVariance, SumR, SumN, SplitCost, Written, Sq, Mul, MixedVariance, WithinMeans, MeetsWith;
    EmittedSizesAreEnough(w, keys, split, phase, s, out);
    SigmasSumToCost(w, split);
    SomeStratum(w, split);
    TimesPhase(s, phase as real, StratifiedVariance(Sigmas(w, split), AsReals(Sizes(out))));
    EmittedMeetsWithin(c, v, n0, Sigmas(w, split), Sizes(out), phase);
  }

  lemma SomeStratum(w: Weight, split: seq<nat>)
    requires |split| >= 1 && SplitCost(w, split) > 0.0
    ensures Sigmas(w, split) != []
  {
  }

  lemma TimesPhase(s: real, n: real, v: real)
    requires n > 0.0 && v <= s * (s / n)
    ensures Mul(v, n) <= Sq(s)
  {
    ProductMonotone(v, s * (s / n), n);
    QuotientTimes(s, n);
    assert s * (s / n) * n == s * (s / n * n);
  }

  // ----- one stratum

  /** What a phase over one stratum draws is the solved size after the cap. It meets the target exactly when it is
      outside of the two roots: with the target already met and the smaller root asked for, when no rounding was needed
      or the minimum or the budget moves it out. With the target not met, when the budget holds the size. */
  lemma OneStratumMeetsIff(c: real, v: real, s2: real, n0: real, sqrt: real -> real, remaining: nat)
    requires n0 > 0.0 && RootAt(sqrt, Radicand(c, v, s2, n0)) && !Solve(c, v, s2, n0, sqrt).Stop?
    ensures var r := Solve(c, v, s2, n0, sqrt);
            var t1, t2 := HalfSlope(c, s2, n0), sqrt(Radicand(c, v, s2, n0));
            && r.n >= 1
            && var drawn := CappedSize(1, r.n, remaining);
               && (MeetsWith(c, v, s2, n0, drawn) <==> drawn as real <= t1 - t2 || t1 + t2 <= drawn as real)
               && (c * v > 1.0 ==> (MeetsWith(c, v, s2, n0, drawn) <==> r.n <= remaining))
  {
    SolvedIsPositive(c, v, s2, n0, sqrt);
    var drawn := CappedSize(1, Solve(c, v, s2, n0, sqrt).n, remaining);
    MeetsAtRoots(c, v, s2, n0, sqrt(Radicand(c, v, s2, n0)), drawn as real);
    hide Meets, HalfSlope, Radicand;
    if c * v > 1.0 { MeetsFromFull(c, v, s2, n0, drawn, sqrt); }
  }
}
