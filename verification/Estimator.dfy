/** The transition state of one approximate aggregate over a whole run: per-stratum statistics in entries 1 and up, the
    combined statistics of phase 0 and of uniform draws in entry 0, and the estimates of the phase and of the run. */
module Estimator {
  import opened Reals
  import opened Moments
  import opened Streaming

  // ----- mixing of the uniform and the stratified estimate

  function Alpha(uniform: nat, total: nat): real
    requires total > 0
  {
    uniform as real / total as real
  }

  function MixMean(a: real, mu0: real, muPhase: real): real {
    a * mu0 + (1.0 - a) * muPhase
  }

  function MixVar(a: real, v0: real, varPhase: real): real {
    a * a * v0 + (1.0 - a) * (1.0 - a) * varPhase
  }

  /** Totals over `total` draws, of which the `uniform` ones gave entry 0: the estimate is the average of the two
      estimates weighted by their draws, and the variance is that of such an average. */
  predicate Averages(uniform: nat, total: nat, p0: Stratum, muPhase: real, varPhase: real, mu: real, v: real) {
    var u, t := uniform as real, total as real;
    && Mul(mu, t) == Mul(u, p0.mu) + Mul(t - u, muPhase)
    && Mul(v, Sq(t)) == Mul(Sq(u), p0.variance) + Mul(Sq(t - u), varPhase)
  }

  /** Mixing computes these averages and nothing else does. */
  lemma AveragesIff(uniform: nat, total: nat, p0: Stratum, muPhase: real, varPhase: real, mu: real, v: real)
    requires total > 0
    ensures Averages(uniform, total, p0, muPhase, varPhase, mu, v)
            <==> mu == MixMean(Alpha(uniform, total), p0.mu, muPhase)
                 && v == MixVar(Alpha(uniform, total), p0.variance, varPhase)
  {
    var a, u, t := Alpha(uniform, total), uniform as real, total as real;
    QuotientTimes(u, t);
    hide Sq, Mul, MixMean, MixVar, Alpha;
    MeanTimes(a, u, t, p0.mu, muPhase);
    VarTimes(a, u, t, p0.variance, varPhase);
    SameFactor(mu, MixMean(a, p0.mu, muPhase), t);
    SameFactor(v, MixVar(a, p0.variance, varPhase), Sq(t));
  }

  lemma SameFactor(x: real, y: real, d: real)
    requires d > 0.0
    ensures Mul(x, d) == Mul(y, d) <==> x == y
  {
    assert x < y ==> Mul(y - x, d) > 0.0;
    assert y < x ==> Mul(x - y, d) > 0.0;
  }

  lemma MeanTimes(a: real, u: real, t: real, mu0: real, mu: real)
    requires a * t == u
    ensures Mul(MixMean(a, mu0, mu), t) == Mul(u, mu0) + Mul(t - u, mu)
  {
    assert (a * mu0 + (1.0 - a) * mu) * t == a * t * mu0 + (t - a * t) * mu;
  }

  lemma VarTimes(a: real, u: real, t: real, v0: real, v: real)
    requires a * t == u
    ensures Mul(MixVar(a, v0, v), Sq(t)) == Mul(Sq(u), v0) + Mul(Sq(t - u), v)
  {
    RestTimes(a, u, t);
    hide Sq, Mul;
    PartsTimes(MixVar(a, v0, v), a, 1.0 - a, u, t - u, t, v0, v);
  }

  lemma RestTimes(a: real, u: real, t: real)
    requires a * t == u
    ensures (1.0 - a) * t == t - u
  {
  }

  lemma PartsTimes(mix: real, a: real, b: real, u: real, r: real, t: real, v0: real, v: real)
    requires a * t == u && b * t == r && mix == a * a * v0 + b * b * v
    ensures Mul(mix, Sq(t)) == Mul(Sq(u), v0) + Mul(Sq(r), v)
  {
    hide Sq, Mul;
    PartTimes(a, u, t, v0);
    PartTimes(b, r, t, v);
    SumTimes(a * a * v0, b * b * v, Sq(t));
  }

  lemma SumTimes(x: real, y: real, d: real)
    ensures Mul(x + y, d) == Mul(x, d) + Mul(y, d)
  {
  }

  lemma PartTimes(x: real, w: real, t: real, v: real)
    requires x * t == w
    ensures Mul(x * x * v, Sq(t)) == Mul(Sq(w), v)
  {
    assert (x * x * v) * (t * t) == (x * t) * (x * t) * v;
  }

  /** The phase estimate that the stored totals imply. */
  function UnmixMean(a: real, mu0: real, muTotal: real): real
    requires a != 1.0
  {
    (muTotal - a * mu0) / (1.0 - a)
  }

  function UnmixVar(a: real, v0: real, varTotal: real): real
    requires a < 1.0
  {
    (varTotal - a * a * v0) / Sq(1.0 - a)
  }

  /** Unmixing undoes mixing, whatever the totals. */
  lemma MixUnmix(a: real, mu0: real, v0: real, muTotal: real, varTotal: real)
    requires a < 1.0
    ensures MixMean(a, mu0, UnmixMean(a, mu0, muTotal)) == muTotal
    ensures MixVar(a, v0, UnmixVar(a, v0, varTotal)) == varTotal
  {
    var b := 1.0 - a;
    QuotientTimes(muTotal - a * mu0, b);
    QuotientTimes(varTotal - a * a * v0, Sq(b));
  }

  /** A mix determines what was mixed in. */
  lemma MixInjective(a: real, mu0: real, v0: real, mu: real, v: real, mu': real, v': real)
    requires a < 1.0 && MixMean(a, mu0, mu) == MixMean(a, mu0, mu') && MixVar(a, v0, v) == MixVar(a, v0, v')
    ensures mu == mu' && v == v'
  {
    var b := 1.0 - a;
    assert Mul(b, mu - mu') == 0.0 && Mul(b, mu' - mu) == 0.0;
    assert (1.0 - a) * (1.0 - a) == Sq(b);
    assert Mul(Sq(b), v - v') == 0.0 && Mul(Sq(b), v' - v) == 0.0;
  }

  lemma UnmixVarNonNegative(a: real, v0: real, varTotal: real)
    requires a < 1.0 && varTotal >= a * a * v0
    ensures UnmixVar(a, v0, varTotal) >= 0.0
  {
    hide Sq;
    var y, d := varTotal - a * a * v0, Sq(1.0 - a);
    assert y / d >= 0.0;
  }

  lemma MixVarNonNegative(a: real, v0: real, varPhase: real)
    requires varPhase >= 0.0
    ensures v0 >= 0.0 ==> MixVar(a, v0, varPhase) >= 0.0
  {
    assert Mul(Sq(1.0 - a), varPhase) >= 0.0;
    assert v0 >= 0.0 ==> Mul(Sq(a), v0) >= 0.0;
  }

  lemma MixVarAtLeast(a: real, v0: real, varPhase: real)
    requires varPhase >= 0.0
    ensures MixVar(a, v0, varPhase) >= a * a * v0
  {
    assert Mul(Sq(1.0 - a), varPhase) >= 0.0;
  }

  // ----- sums over strata

  function MuSum(part: seq<Stratum>, n: nat): real
    requires n < |part|
  {
    if n == 0 then 0.0 else MuSum(part, n - 1) + part[n].mu
  }

  function VarSum(part: seq<Stratum>, n: nat): real
    requires n < |part|
  {
    if n == 0 then 0.0 else VarSum(part, n - 1) + part[n].variance
  }

  lemma DescribedVarianceNonNegative(p: Stratum, xs: seq<real>)
    requires Describes(p, xs)
    ensures p.variance >= 0.0
  {
    if |xs| >= 2 {
      VarOfMeanNonNegative(xs);
    } else if |xs| == 1 {
      assert Sq(xs[0]) >= 0.0;
    }
  }

  lemma {:induction false} VarSumNonNegative(part: seq<Stratum>, hist: seq<seq<real>>, n: nat)
    requires n < |part| == |hist| && forall i :: 1 <= i <= n ==> Describes(part[i], hist[i])
    ensures VarSum(part, n) >= 0.0
  {
    hide Describes;
    if n > 0 {
      VarSumNonNegative(part, hist, n - 1);
      DescribedVarianceNonNegative(part[n], hist[n]);
    }
  }

  lemma {:induction false} SumsOfEmpty(part: seq<Stratum>, n: nat)
    requires n < |part| && forall i :: 1 <= i <= n ==> part[i] == EMPTY
    ensures MuSum(part, n) == 0.0 && VarSum(part, n) == 0.0
  {
    if n > 0 { SumsOfEmpty(part, n - 1); }
  }

  lemma {:induction false} SumsIgnoreLater(part: seq<Stratum>, n: nat, i: nat, p: Stratum)
    requires n < i < |part|
    ensures MuSum(part[i := p], n) == MuSum(part, n) && VarSum(part[i := p], n) == VarSum(part, n)
  {
    if n > 0 { SumsIgnoreLater(part, n - 1, i, p); }
  }

  function Variances(part: seq<Stratum>): (vs: seq<real>)
    ensures |vs| == |part|
  {
    seq(|part|, i requires 0 <= i < |part| => part[i].variance)
  }

  lemma AcceptedNext(ds: seq<Draw>, k: nat)
    requires k < |ds|
    ensures ds[k].Rejected? ==> Accepted(ds[..k + 1]) == Accepted(ds[..k])
    ensures ds[k].Value? ==> Accepted(ds[..k + 1]) == Accepted(ds[..k]) + [ds[k].x]
  {
    assert ds[..k + 1][..k] == ds[..k];
  }

  lemma NothingAccepted(p: Stratum)
    ensures AcceptAll(p, []) == p
  {
  }

  lemma AcceptOneMore(p: Stratum, xs: seq<real>, x: real)
    ensures AcceptAll(p, xs + [x]) == Accept(AcceptAll(p, xs), x)
  {
    assert (xs + [x])[..|xs|] == xs;
  }

  // ----- the state

  class TransState {
    var part: seq<Stratum>
    var muPhase: real
    var varPhase: real
    var muTotal: real
    var varTotal: real

    /** Every value ever drawn in each stratum, a rejection as zero. */
    ghost var hist: seq<seq<real>>

    /** Entries from 1 on describe all draws ever made in their stratum. */
    ghost predicate Valid()
      reads this
    {
      && |part| == |hist| && |part| >= 1
      && forall i :: 1 <= i < |part| ==> Describes(part[i], hist[i])
    }

    constructor ()
      ensures Valid() && part == [EMPTY] && muTotal == 0.0 && varTotal == 0.0
    {
      part, hist := [EMPTY], [[]];
      muPhase, varPhase, muTotal, varTotal := 0.0, 0.0, 0.0, 0.0;
    }

    /** Phase 0: entry 0 takes the estimate of a fresh scan; for fewer than two accepted values nothing is known. */
    method PhaseZero(p0: Stratum)
      requires Valid()
      modifies this`part, this`hist, this`muTotal, this`varTotal
      ensures Valid() && part == [p0] && hist == [[]] && muTotal == p0.mu && varTotal == p0.variance
    {
      part, hist := [p0], [[]];
      muTotal, varTotal := p0.mu, p0.variance;
    }

    /** Makes room for `k` strata; entry 0 keeps the estimate of phase 0 under the counter of accepted draws. */
    method AllocateStrata(k: nat, accepted: nat)
      requires Valid()
      modifies this`part, this`hist
      ensures Valid() && |part| == k + 1 && part[0] == Stratum(accepted, muTotal, varTotal)
      ensures forall i :: 1 <= i <= k ==> part[i] == EMPTY && hist[i] == []
    {
      part := [Stratum(accepted, muTotal, varTotal)] + seq(k, _ => EMPTY);
      hist := [[]] + seq(k, _ => []);
    }

    method ResetPhase()
      modifies this`muPhase, this`varPhase
      ensures muPhase == 0.0 && varPhase == 0.0
    {
      muPhase, varPhase := 0.0, 0.0;
    }

    /** Takes in the accepted values of a scan of entry `i` as they arrive, and counts them. */
    method Accumulate(i: nat, ds: seq<Draw>) returns (n: nat)
      requires i < |part|
      modifies this`part
      ensures part == old(part)[i := AcceptAll(old(part)[i], Accepted(ds))] && n == |Accepted(ds)|
    {
      hide Accept, AcceptAll;
      n := 0;
      assert AcceptAll(part[i], []) == part[i] by { NothingAccepted(part[i]); }
      for k := 0 to |ds|
        invariant part == old(part)[i := AcceptAll(old(part)[i], Accepted(ds[..k]))] && n == |Accepted(ds[..k])|
      {
        AcceptedNext(ds, k);
        if ds[k].Value? {
          AcceptOneMore(old(part)[i], Accepted(ds[..k]), ds[k].x);
          part := part[i := Accept(part[i], ds[k].x)];
          n := n + 1;
        }
      }
      assert ds[..|ds|] == ds;
    }

    /** Pads entry `i` for the draws that were rejected. */
    method PadRejected(i: nat, missing: nat)
      requires i < |part|
      modifies this`part
      ensures part == old(part)[i := PadAll(old(part)[i], missing)]
    {
      hide Pad;
      for k := 0 to missing
        invariant part == old(part)[i := PadAll(old(part)[i], k)]
      {
        part := part[i := Pad(part[i])];
      }
    }

    /** One scan of stratum `i`, finalised: the draws join the stratum, and its estimates join those of the phase. */
    method ScanStratum(i: nat, ds: seq<Draw>)
      requires Valid() && 1 <= i < |part|
      modifies this`part, this`hist, this`muPhase, this`varPhase
      ensures Valid() && part == old(part)[i := Scan(old(part)[i], ds)]
      ensures hist == old(hist)[i := old(hist)[i] + Values(ds)]
      ensures muPhase == old(muPhase) + part[i].mu && varPhase == old(varPhase) + part[i].variance
    {
      hide Describes, AcceptAll, PadAll;
      ScanDescribes(part[i], hist[i], ds);
      AcceptedAndRejected(ds);
      var n := Accumulate(i, ds);
      PadRejected(i, |ds| - n);
      hist := hist[i := hist[i] + Values(ds)];
      muPhase := muPhase + part[i].mu;
      varPhase := varPhase + part[i].variance;
    }

    /** One uniform scan: the draws join entry 0; the stratified estimates stay as they are. */
    method ScanUniform(ds: seq<Draw>)
      requires Valid()
      modifies this`part
      ensures Valid() && part == old(part)[0 := Scan(old(part)[0], ds)]
    {
      hide Describes, AcceptAll, PadAll;
      AcceptedAndRejected(ds);
      var n := Accumulate(0, ds);
      PadRejected(0, |ds| - n);
    }

    /** End of a round: mixes the estimate of entry 0 with that of the phase. */
    method Mix(uniform: nat, total: nat)
      requires Valid() && total > 0
      modifies this`muTotal, this`varTotal
      ensures Averages(uniform, total, part[0], muPhase, varPhase, muTotal, varTotal)
    {
      hide Describes, Averages, MixMean, MixVar, Alpha;
      var a := Alpha(uniform, total);
      muTotal := MixMean(a, part[0].mu, muPhase);
      varTotal := MixVar(a, part[0].variance, varPhase);
      AveragesIff(uniform, total, part[0], muPhase, varPhase, muTotal, varTotal);
    }

    /** Rollback: restores the totals and rebuilds the phase estimates that they imply. */
    method Restore(mu: real, v: real, uniform: nat, total: nat)
      requires Valid() && uniform <= total && total > 0
      modifies this`muTotal, this`varTotal, this`muPhase, this`varPhase
      ensures muTotal == mu && varTotal == v
      ensures uniform == total ==> muPhase == 0.0 && varPhase == 0.0
      ensures uniform < total && v >= Alpha(uniform, total) * Alpha(uniform, total) * part[0].variance ==>
                && Averages(uniform, total, part[0], muPhase, varPhase, mu, v)
                && varPhase == UnmixVar(Alpha(uniform, total), part[0].variance, v)
    {
      hide Describes, Averages, UnmixMean, UnmixVar;
      muTotal, varTotal := mu, v;
      if total > uniform {
        AlphaBelowOne(uniform, total);
        var a := Alpha(uniform, total);
        muPhase := UnmixMean(a, part[0].mu, mu);
        varPhase := UnmixVar(a, part[0].variance, v);
        UnmixedAverages(uniform, total, part[0], mu, v);
        if varPhase < 0.0 {
          varPhase := 0.0;
        }
      } else {
        muPhase, varPhase := 0.0, 0.0;
      }
    }
  }

  /** What unmixing gives averages to the totals, and its variance is not negative unless theirs is too small. */
  lemma UnmixedAverages(uniform: nat, total: nat, p0: Stratum, mu: real, v: real)
    requires uniform < total
    ensures var a := Alpha(uniform, total);
            && a < 1.0
            && Averages(uniform, total, p0, UnmixMean(a, p0.mu, mu), UnmixVar(a, p0.variance, v), mu, v)
            && (v >= a * a * p0.variance ==> UnmixVar(a, p0.variance, v) >= 0.0)
  {
    AlphaBelowOne(uniform, total);
    hide Alpha, Averages, MixMean, MixVar, UnmixMean, UnmixVar;
    MixUnmix(Alpha(uniform, total), p0.mu, p0.variance, mu, v);
    AveragesIff(uniform, total, p0, UnmixMean(Alpha(uniform, total), p0.mu, mu),
                UnmixVar(Alpha(uniform, total), p0.variance, v), mu, v);
    UnmixVarSign(Alpha(uniform, total), p0.variance, v);
  }

  lemma UnmixVarSign(a: real, v0: real, varTotal: real)
    requires a < 1.0
    ensures varTotal >= a * a * v0 ==> UnmixVar(a, v0, varTotal) >= 0.0
  {
    hide UnmixVar;
    if varTotal >= a * a * v0 { UnmixVarNonNegative(a, v0, varTotal); }
  }

  lemma AlphaBelowOne(uniform: nat, total: nat)
    requires uniform < total
    ensures 0.0 <= Alpha(uniform, total) < 1.0
  {
    var a := Alpha(uniform, total);
    QuotientTimes(uniform as real, total as real);
    if a >= 1.0 { ProductMonotone(1.0, a, total as real); }
  }

  lemma AlphaOfAll(total: nat)
    requires total > 0
    ensures Alpha(total, total) == 1.0
  {
  }
}
