/** How many further draws a phase needs: the quadratic that the optimiser, the end-of-phase check and the uniform
    fallback all solve, stated against the variance of the combined estimator. */
module SampleSize {
  import opened Reals

  /** The solver either stops the run or picks one of the two roots; picking the smaller one logs a warning. */
  datatype Solved = Stop | SmallerRoot(n: int) | LargerRoot(n: int)

  function Ceil(x: real): (n: int)
    ensures x <= n as real < x + 1.0
  {
    -((-x).Floor)
  }

  predicate RootAt(sqrt: real -> real, x: real) {
    x >= 0.0 ==> sqrt(x) >= 0.0 && sqrt(x) * sqrt(x) == x
  }

  // ----- what is being solved

  /** Variance of the estimator that weighs `n0` old draws of variance `v` against `n` new draws spread over the
      strata in proportion to their deviations, whose squared total is `s2`. */
  function CombinedVariance(v: real, s2: real, n0: real, n: real): real
    requires n0 + n > 0.0
  {
    (v * Sq(n0) + s2 * n) / Sq(n0 + n)
  }

  /** The confidence interval is within the target; `c` is the squared ratio of quantile to target. */
  predicate Meets(c: real, v: real, s2: real, n0: real, n: real) {
    c * (v * Sq(n0) + s2 * n) <= Sq(n0 + n)
  }

  predicate MeetsWith(c: real, v: real, s2: real, n0: real, draws: int) {
    Meets(c, v, s2, n0, draws as real)
  }

  /** The least positive number of draws that meets the target. */
  ghost predicate LeastMeeting(c: real, v: real, s2: real, n0: real, n: int) {
    n >= 1 && MeetsWith(c, v, s2, n0, n) && forall m :: 1 <= m < n ==> !MeetsWith(c, v, s2, n0, m)
  }

  lemma MeetsIsTarget(c: real, v: real, s2: real, n0: real, n: real)
    requires n0 + n > 0.0
    ensures Meets(c, v, s2, n0, n) <==> c * CombinedVariance(v, s2, n0, n) <= 1.0
  {
    hide Sq;
    var x := v * Sq(n0) + s2 * n;
    QuotientTimes(x, Sq(n0 + n));
    TargetScalar(c, x, CombinedVariance(v, s2, n0, n), Sq(n0 + n));
  }

  lemma TargetScalar(c: real, x: real, y: real, d: real)
    requires d > 0.0
    requires y * d == x
    ensures c * x <= d <==> c * y <= 1.0
  {
    assert c * x == (c * y) * d;
    if c * y <= 1.0 {
      ProductMonotone(c * y, 1.0, d);
    } else {
      assert Mul(c * y - 1.0, d) > 0.0;
    }
  }

  // ----- the solver

  function HalfSlope(c: real, s2: real, n0: real): real {
    s2 * c / 2.0 - n0
  }

  function Radicand(c: real, v: real, s2: real, n0: real): real {
    var t1 := HalfSlope(c, s2, n0);
    t1 * t1 + (v * c - 1.0) * n0 * n0
  }

  function Solve(c: real, v: real, s2: real, n0: real, sqrt: real -> real): Solved {
    var t1 := HalfSlope(c, s2, n0);
    var r := Radicand(c, v, s2, n0);
    if r < 0.0 then Stop
    else
      var t2 := sqrt(r);
      if t1 - t2 > 0.0 then SmallerRoot(Ceil(t1 - t2))
      else if t1 + t2 > 0.0 then LargerRoot(Ceil(t1 + t2))
      else Stop
  }

  /** The slack of the target is the monic quadratic whose roots are t1 - t2 and t1 + t2. */
  lemma SlackFactors(c: real, v: real, s2: real, n0: real, t2: real, n: real)
    requires t2 * t2 == Radicand(c, v, s2, n0)
    ensures var t1 := HalfSlope(c, s2, n0);
            Sq(n0 + n) - c * (v * Sq(n0) + s2 * n) == (n - (t1 - t2)) * (n - (t1 + t2))
  {
    var t1 := HalfSlope(c, s2, n0);
    calc {
      (n - (t1 - t2)) * (n - (t1 + t2));
      n * n - 2.0 * t1 * n + t1 * t1 - t2 * t2;
      n * n - 2.0 * t1 * n - (v * c - 1.0) * n0 * n0;
      { assert 2.0 * t1 * n == s2 * c * n - 2.0 * n0 * n; }
      n * n - s2 * c * n + 2.0 * n0 * n - (v * c - 1.0) * n0 * n0;
      { assert (v * c - 1.0) * n0 * n0 == v * c * n0 * n0 - n0 * n0; }
      (n0 + n) * (n0 + n) - (s2 * c * n + v * c * n0 * n0);
      { assert c * (v * n0 * n0 + s2 * n) == s2 * c * n + v * c * n0 * n0; }
      (n0 + n) * (n0 + n) - c * (v * n0 * n0 + s2 * n);
    }
  }

  lemma MeetsAtRoots(c: real, v: real, s2: real, n0: real, t2: real, n: real)
    requires t2 >= 0.0 && t2 * t2 == Radicand(c, v, s2, n0)
    ensures var t1 := HalfSlope(c, s2, n0);
            Meets(c, v, s2, n0, n) <==> n <= t1 - t2 || t1 + t2 <= n
  {
    hide HalfSlope, Radicand;
    SlackFactors(c, v, s2, n0, t2, n);
    var t1 := HalfSlope(c, s2, n0);
    SignOfProduct(n - (t1 - t2), n - (t1 + t2));
  }

  lemma SignOfProduct(a: real, b: real)
    requires b <= a
    ensures a * b >= 0.0 <==> a <= 0.0 || b >= 0.0
  {
  }

  /** With the target not yet met, both roots straddle zero. */
  lemma RootsStraddleZero(c: real, v: real, s2: real, n0: real, t2: real)
    requires c * v >= 1.0 && t2 >= 0.0 && t2 * t2 == Radicand(c, v, s2, n0)
    ensures var t1 := HalfSlope(c, s2, n0); t1 - t2 <= 0.0 <= t1 + t2
  {
    hide HalfSlope;
    var t1 := HalfSlope(c, s2, n0);
    assert (v * c - 1.0) * n0 * n0 >= 0.0 by {
      assert (v * c - 1.0) * n0 * n0 == (v * c - 1.0) * (n0 * n0);
      assert n0 * n0 >= 0.0;
    }
    CompareSquares(t1, t2);
  }

  lemma CompareSquares(a: real, b: real)
    requires b >= 0.0 && a * a <= b * b
    ensures -b <= a <= b
  {
    if a > b {
      SquaresOrdered(b, a);
    } else if a < -b {
      SquaresOrdered(b, -a);
    }
  }

  /** Past the guard that the target is not met, the radicand is not negative and the smaller root is never taken;
      the answer is the least positive number of draws that meets the target, and the solver stops only when
      no further draw is needed. */
  lemma SolveIsLeast(c: real, v: real, s2: real, n0: real, sqrt: real -> real)
    requires c * v >= 1.0 && n0 >= 0.0 && RootAt(sqrt, Radicand(c, v, s2, n0))
    ensures var r := Solve(c, v, s2, n0, sqrt);
            && Radicand(c, v, s2, n0) >= 0.0
            && !r.SmallerRoot?
            && (r.LargerRoot? ==> LeastMeeting(c, v, s2, n0, r.n))
            && (r.Stop? ==> forall m: real :: m >= 0.0 ==> Meets(c, v, s2, n0, m))
  {
    hide HalfSlope, Meets;
    var t1 := HalfSlope(c, s2, n0);
    RadicandNonNegative(c, v, s2, n0);
    var t2 := sqrt(Radicand(c, v, s2, n0));
    RootsStraddleZero(c, v, s2, n0, t2);
    hide Radicand;
    forall m: real ensures Meets(c, v, s2, n0, m) <==> m <= t1 - t2 || t1 + t2 <= m {
      MeetsAtRoots(c, v, s2, n0, t2, m);
    }
  }

  lemma RadicandNonNegative(c: real, v: real, s2: real, n0: real)
    requires c * v >= 1.0
    ensures Radicand(c, v, s2, n0) >= 0.0
  {
    hide HalfSlope;
    var t1 := HalfSlope(c, s2, n0);
    assert t1 * t1 >= 0.0;
    assert (v * c - 1.0) * n0 * n0 == (v * c - 1.0) * (n0 * n0);
    assert n0 * n0 >= 0.0;
  }

  /** The optimiser calls the solver without that guard. With the target already met the larger root is never taken,
      the smaller one exactly when it is positive, and then every smaller number of draws, none included, would
      have met the target too. The number asked for meets it exactly when no rounding was needed or rounding up passes
      the larger root. */
  lemma SolveUnguarded(c: real, v: real, s2: real, n0: real, sqrt: real -> real)
    requires c * v < 1.0 && n0 > 0.0 && RootAt(sqrt, Radicand(c, v, s2, n0))
    ensures var r := Solve(c, v, s2, n0, sqrt);
            && !r.LargerRoot?
            && (r.SmallerRoot? <==> HalfSlope(c, s2, n0) > 0.0 && Radicand(c, v, s2, n0) >= 0.0)
            && (r.SmallerRoot? ==> r.n >= 1 && forall m :: 0 <= m < r.n ==> MeetsWith(c, v, s2, n0, m))
            && (r.SmallerRoot? ==>
                  var t1, t2 := HalfSlope(c, s2, n0), sqrt(Radicand(c, v, s2, n0));
                  MeetsWith(c, v, s2, n0, r.n) <==> r.n as real == t1 - t2 || r.n as real >= t1 + t2)
  {
    hide HalfSlope, Meets;
    var t1, rad := HalfSlope(c, s2, n0), Radicand(c, v, s2, n0);
    assert rad == t1 * t1 + Mul(v * c - 1.0, Sq(n0));
    if rad >= 0.0 {
      var t2 := sqrt(rad);
      hide Radicand;
      CompareStrict(t1, t2);
      forall m: real ensures Meets(c, v, s2, n0, m) <==> m <= t1 - t2 || t1 + t2 <= m {
        MeetsAtRoots(c, v, s2, n0, t2, m);
      }
    }
  }

  lemma CompareStrict(a: real, b: real)
    requires b >= 0.0 && b * b < a * a
    ensures a > b || a < -b
  {
    if -b <= a <= b {
      SquaresWithin(a, b);
    }
  }

  /** The smaller root is out of reach if new draws are no worse than the old ones, draw for draw. */
  lemma NoSmallerRoot(c: real, v: real, s2: real, n0: real, sqrt: real -> real)
    requires c * v < 1.0 && n0 > 0.0 && c * s2 <= c * v * n0 && RootAt(sqrt, Radicand(c, v, s2, n0))
    ensures Solve(c, v, s2, n0, sqrt).Stop?
  {
    hide Solve, Radicand, Meets, HalfSlope;
    SolveUnguarded(c, v, s2, n0, sqrt);
    ProductStrict(c * v, 1.0, n0);
    HalfSlopeNegative(c, s2, n0, c * v * n0);
  }

  /** So then the solver is right without the guard: no draws if the target is met, the least number if it is not. */
  lemma SolveWithoutGuard(c: real, v: real, s2: real, n0: real, sqrt: real -> real)
    requires n0 > 0.0 && c * s2 <= c * v * n0 && RootAt(sqrt, Radicand(c, v, s2, n0))
    ensures var r := Solve(c, v, s2, n0, sqrt);
            && !r.SmallerRoot? && (c * v < 1.0 ==> r.Stop?)
            && (c * v >= 1.0 && r.LargerRoot? ==> LeastMeeting(c, v, s2, n0, r.n))
  {
    hide Solve, Radicand, LeastMeeting;
    if c * v < 1.0 {
      NoSmallerRoot(c, v, s2, n0, sqrt);
    } else {
      SolveIsLeast(c, v, s2, n0, sqrt);
    }
  }

  lemma HalfSlopeNegative(c: real, s2: real, n0: real, q: real)
    requires c * s2 <= q < n0 && n0 > 0.0
    ensures HalfSlope(c, s2, n0) < 0.0
  {
    assert s2 * c == c * s2;
  }

  // ----- the two callers with the guard

  /** End of a phase. The deviations summed are those of entries 1 to n_partitions - 1, although the strata occupy
      entries 1 to n_partitions. */
  function SumOfRoots(variance: seq<real>, sqrt: real -> real, n: nat): real
    requires n <= |variance|
  {
    if n <= 1 then 0.0 else SumOfRoots(variance, sqrt, n - 1) + sqrt(variance[n - 1])
  }

  /** The uniform fallback, called with the target not met: zero when nothing is known of the spread `s`, which here
      already is a squared deviation; never between 1 and 29. */
  function UniformSize(c: real, v: real, s: real, n0: real, sqrt: real -> real): nat {
    if s <= 0.0 then 0
    else
      match Solve(c, v, s, n0, sqrt)
      case Stop => 0
      case SmallerRoot(n) => if n < 30 then 30 else n
      case LargerRoot(n) => if n < 30 then 30 else n
  }

  /** With the target not met, the uniform size is the least number of draws from 30 on that meets it. */
  lemma UniformSizeIsLeast(c: real, v: real, s: real, n0: real, sqrt: real -> real)
    requires c * v > 1.0 && s > 0.0 && n0 > 0.0 && RootAt(sqrt, Radicand(c, v, s, n0))
    ensures var n := UniformSize(c, v, s, n0, sqrt);
            && n >= 30 && MeetsWith(c, v, s, n0, n)
            && forall m :: 30 <= m < n ==> !MeetsWith(c, v, s, n0, m)
  {
    hide Meets, Radicand, HalfSlope;
    SolveIsLeast(c, v, s, n0, sqrt);
    if Solve(c, v, s, n0, sqrt).Stop? {
      assert MeetsWith(c, v, s, n0, 0);
      NotMetYet(c, v, s, n0);
      assert false;
    }
    MeetsFrom(c, v, s, n0, Solve(c, v, s, n0, sqrt).n, sqrt);
  }

  lemma NotMetYet(c: real, v: real, s: real, n0: real)
    requires c * v > 1.0 && n0 > 0.0
    ensures !MeetsWith(c, v, s, n0, 0)
  {
    hide Sq;
    assert n0 + 0.0 == n0;
    assert Mul(c * v - 1.0, Sq(n0)) > 0.0;
    assert c * (v * Sq(n0) + s * 0.0) == c * v * Sq(n0);
  }

  /** Beyond the larger root every number of draws meets the target. */
  lemma MeetsFrom(c: real, v: real, s: real, n0: real, n: int, sqrt: real -> real)
    requires c * v >= 1.0 && RootAt(sqrt, Radicand(c, v, s, n0))
    requires Solve(c, v, s, n0, sqrt) == LargerRoot(n)
    ensures forall m :: n <= m ==> MeetsWith(c, v, s, n0, m)
  {
    hide Meets, HalfSlope, Radicand;
    RadicandNonNegative(c, v, s, n0);
    var t2 := sqrt(Radicand(c, v, s, n0));
    forall m | n <= m ensures MeetsWith(c, v, s, n0, m) {
      MeetsAtRoots(c, v, s, n0, t2, m as real);
    }
  }

  /** With the target not met, exactly the sizes from the solved one on meet it. */
  lemma MeetsIff(c: real, v: real, s2: real, n0: real, m: int, sqrt: real -> real)
    requires c * v > 1.0 && n0 > 0.0 && m >= 1 && RootAt(sqrt, Radicand(c, v, s2, n0))
    ensures var r := Solve(c, v, s2, n0, sqrt); r.LargerRoot? && (MeetsWith(c, v, s2, n0, m) <==> m >= r.n)
  {
    hide Meets, Radicand, Solve;
    SolveIsLeast(c, v, s2, n0, sqrt);
    NotMetYet(c, v, s2, n0);
    var r := Solve(c, v, s2, n0, sqrt);
    assert r.Stop? ==> Meets(c, v, s2, n0, 0.0);
    if r.LargerRoot? { MeetsFrom(c, v, s2, n0, r.n, sqrt); }
  }

  /** Whatever is solved for, a size that is not a stop is at least one. */
  lemma SolvedIsPositive(c: real, v: real, s2: real, n0: real, sqrt: real -> real)
    ensures !Solve(c, v, s2, n0, sqrt).Stop? ==> Solve(c, v, s2, n0, sqrt).n >= 1
  {
    hide HalfSlope, Radicand;
  }

  /** Ratio of quantile to target, and its square. */
  function ScaleOf(z: real, err0: real, sqrt: real -> real): real
    requires err0 != 0.0
  {
    sqrt(2.0) * z / err0
  }

  function SquaredScale(z: real, err0: real, sqrt: real -> real): real
    requires err0 != 0.0
  {
    ScaleOf(z, err0, sqrt) * ScaleOf(z, err0, sqrt)
  }

  function HalfWidthOf(z: real, v: real, sqrt: real -> real): real {
    z * sqrt(2.0 * v)
  }

  function ScaledVariance(scale: real, v: real): real {
    scale * scale * v
  }

  /** The guard on the half width is the guard that the solver needs: it exceeds the target exactly when c * v > 1. */
  lemma GuardIsTarget(z: real, err0: real, v: real, sqrt: real -> real)
    requires z >= 0.0 && err0 > 0.0 && v >= 0.0 && RootAt(sqrt, 2.0) && RootAt(sqrt, 2.0 * v)
    ensures var w, q := HalfWidthOf(z, v, sqrt), ScaledVariance(ScaleOf(z, err0, sqrt), v);
            (w > err0 <==> q > 1.0) && (w < err0 <==> q < 1.0)
  {
    var w, q := HalfWidthOf(z, v, sqrt), ScaledVariance(ScaleOf(z, err0, sqrt), v);
    SquaredGuard(z, sqrt(2.0 * v), sqrt(2.0), err0, v);
    assert w >= 0.0 by { assert w == Mul(z, sqrt(2.0 * v)); }
    hide HalfWidthOf, ScaledVariance, ScaleOf, Sq;
    RatioGuard(q, err0, w);
  }

  /** With the half width not below the target, what the solver asks for is the least number of draws that meets it. */
  lemma UnmetSolvedLeast(z: real, err0: real, v: real, s2: real, n0: real, sqrt: real -> real)
    requires z >= 0.0 && err0 > 0.0 && v >= 0.0 && n0 > 0.0 && forall x :: RootAt(sqrt, x)
    requires HalfWidthOf(z, v, sqrt) >= err0
    ensures var r := Solve(SquaredScale(z, err0, sqrt), v, s2, n0, sqrt);
            !r.Stop? ==> LeastMeeting(SquaredScale(z, err0, sqrt), v, s2, n0, r.n)
  {
    hide ScaleOf, HalfWidthOf, ScaledVariance, Solve, RootAt, SquaredScale, LeastMeeting, Radicand;
    GuardIsTarget(z, err0, v, sqrt);
    ScaledIsProduct(z, err0, v, sqrt);
    SolveIsLeast(SquaredScale(z, err0, sqrt), v, s2, n0, sqrt);
  }

  /** With the half width above the target, the uniform size is the least number of draws from 30 on that meets it. */
  lemma UnmetUniformLeast(z: real, err0: real, v: real, s: real, n0: real, sqrt: real -> real)
    requires z >= 0.0 && err0 > 0.0 && v >= 0.0 && s > 0.0 && n0 > 0.0 && forall x :: RootAt(sqrt, x)
    requires HalfWidthOf(z, v, sqrt) > err0
    ensures var c := SquaredScale(z, err0, sqrt);
            var n := UniformSize(c, v, s, n0, sqrt);
            && n >= 30 && MeetsWith(c, v, s, n0, n)
            && forall m :: 30 <= m < n ==> !MeetsWith(c, v, s, n0, m)
  {
    hide ScaleOf, HalfWidthOf, ScaledVariance, UniformSize, RootAt, SquaredScale, MeetsWith, Radicand;
    GuardIsTarget(z, err0, v, sqrt);
    ScaledIsProduct(z, err0, v, sqrt);
    UniformLeast(SquaredScale(z, err0, sqrt), v, ScaledVariance(ScaleOf(z, err0, sqrt), v), s, n0, sqrt);
  }

  lemma UniformLeast(c: real, v: real, q: real, s: real, n0: real, sqrt: real -> real)
    requires q > 1.0 && c * v == q && s > 0.0 && n0 > 0.0 && RootAt(sqrt, Radicand(c, v, s, n0))
    ensures var n := UniformSize(c, v, s, n0, sqrt);
            && n >= 30 && MeetsWith(c, v, s, n0, n)
            && forall m :: 30 <= m < n ==> !MeetsWith(c, v, s, n0, m)
  {
    hide UniformSize, MeetsWith, Radicand, RootAt;
    UniformSizeIsLeast(c, v, s, n0, sqrt);
  }

  /** At the end of a phase the solver gives up only when the target is met. */
  lemma StopMeansMet(z: real, err0: real, v: real, s2: real, n0: real, sqrt: real -> real)
    requires z >= 0.0 && err0 > 0.0 && v >= 0.0 && n0 > 0.0 && forall x :: RootAt(sqrt, x)
    ensures Solve(SquaredScale(z, err0, sqrt), v, s2, n0, sqrt).Stop? ==> HalfWidthOf(z, v, sqrt) <= err0
  {
    hide ScaleOf, HalfWidthOf, ScaledVariance, Solve, RootAt, SquaredScale;
    GuardIsTarget(z, err0, v, sqrt);
    if HalfWidthOf(z, v, sqrt) > err0 {
      ScaledIsProduct(z, err0, v, sqrt);
      UnmetIsSolved(SquaredScale(z, err0, sqrt), v, ScaledVariance(ScaleOf(z, err0, sqrt), v), s2, n0, sqrt);
    }
  }

  lemma ScaledIsProduct(z: real, err0: real, v: real, sqrt: real -> real)
    requires err0 != 0.0
    ensures SquaredScale(z, err0, sqrt) * v == ScaledVariance(ScaleOf(z, err0, sqrt), v)
  {
    hide ScaleOf;
  }

  lemma UnmetIsSolved(c: real, v: real, cv: real, s2: real, n0: real, sqrt: real -> real)
    requires c * v == cv && cv > 1.0 && n0 > 0.0 && forall x :: RootAt(sqrt, x)
    ensures Solve(c, v, s2, n0, sqrt).LargerRoot?
  {
    hide Radicand, Solve, Meets;
    SolveIsLeast(c, v, s2, n0, sqrt);
    NotMetYet(c, v, s2, n0);
    assert !MeetsWith(c, v, s2, n0, 0);
  }

  lemma SquaredGuard(z: real, r: real, r2: real, err0: real, v: real)
    requires err0 > 0.0 && r * r == 2.0 * v && r2 * r2 == 2.0
    ensures ScaledVariance(r2 * z / err0, v) * Sq(err0) == Sq(z * r)
  {
    var scale := r2 * z / err0;
    QuotientTimes(r2 * z, err0);
    calc {
      (scale * scale * v) * (err0 * err0);
      (scale * err0) * (scale * err0) * v;
      (r2 * z) * (r2 * z) * v;
      (r2 * r2) * v * (z * z);
      (r * r) * (z * z);
      (z * r) * (z * r);
    }
  }

  lemma RatioGuard(q: real, e: real, w: real)
    requires e > 0.0 && w >= 0.0 && q * Sq(e) == Sq(w)
    ensures (w > e <==> q > 1.0) && (w < e <==> q < 1.0)
  {
    assert w > e ==> Sq(w) > Sq(e) by { if w > e { SquaresOrdered(e, w); } }
    assert w < e ==> Sq(w) < Sq(e) by { if w < e { SquaresOrdered(w, e); } }
    hide Sq;
    RatioOrder(q, Sq(e), Sq(w));
  }

  lemma RatioOrder(q: real, d: real, y: real)
    requires d > 0.0 && q * d == y
    ensures (y > d <==> q > 1.0) && (y < d <==> q < 1.0)
  {
    if q > 1.0 {
      ProductStrict(1.0, q, d);
    } else if q < 1.0 {
      ProductStrict(q, 1.0, d);
    }
  }
}
