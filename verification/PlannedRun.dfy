/** What ties a run of the controller to the sampling statistics: phase 0 as it comes out of the intervals, and the
    strata that come out of the optimiser. */
module PlannedRun {
  import opened Reals
  import opened Moments
  import opened Streaming
  import opened Intervals
  import opened SampleSize
  import opened StrataDP
  import opened Allocation
  import opened StrataPlan
  import opened StrataCover
  import opened IndexBounds
  import opened ScanKeys
  import opened Trace
  import opened PhaseLog
  import opened Controller

  /** Entry 0 after phase 0 comes from the statistics of the whole sorted sample, padded for the rejections. It is what
      scanning the same draws in the order they came would give, and so is the squared deviation kept beside it. */
  lemma PhaseZeroFromIntervals(kv: seq<Sample>, rank: int -> int, ps: seq<Prefix>, ds: seq<Draw>)
    requires IntervalsOf(kv, rank, ps) && multiset(Vals(kv)) == multiset(Accepted(ds))
    ensures PadAll(SampleSlot(ps), Rejections(ds)) == PhaseZeroEstimate(ds)
    ensures SampleSlot(ps).variance * SampleSlot(ps).n as real == PhaseZeroSpread(ds)
  {
    hide Accepted, Rejections, Describes, PadAll, AcceptAll, IntervalsOf;
    var acc := Accepted(ds);
    WholeSample(kv, rank, ps);
    SameLength(Vals(kv), acc);
    DescribesPermutation(SampleSlot(ps), Vals(kv), acc);
    ScanOfAccepted(acc);
    DescribedIsUnique(SampleSlot(ps), AcceptAll(EMPTY, acc), acc);
  }

  function SampleSlot(ps: seq<Prefix>): Stratum
    requires ps != []
  {
    var all := ps[|ps| - 1];
    Stratum(all.m, all.mu, all.variance)
  }

  lemma WholeSample(kv: seq<Sample>, rank: int -> int, ps: seq<Prefix>)
    requires IntervalsOf(kv, rank, ps)
    ensures |ps| >= 2 && |Vals(kv)| >= 2 && Describes(SampleSlot(ps), Vals(kv))
  {
    hide Mean, VarOfMean, ClosedUpTo;
  }

  lemma SameLength(xs: seq<real>, ys: seq<real>)
    requires multiset(xs) == multiset(ys)
    ensures |xs| == |ys|
  {
    assert |multiset(xs)| == |xs| && |multiset(ys)| == |ys|;
  }

  lemma ScanOfAccepted(acc: seq<real>)
    ensures Describes(AcceptAll(EMPTY, acc), acc)
  {
    assert Describes(EMPTY, []) && [] + acc == acc;
    hide Describes, AcceptAll;
    AcceptAllDescribes(EMPTY, [], acc);
  }

  lemma DescribedIsUnique(p: Stratum, q: Stratum, xs: seq<real>)
    requires Describes(p, xs) && Describes(q, xs)
    ensures p == q && p.n == |xs|
  {
  }

  /** The squared deviation kept beside entry 0 is the sample variance of the accepted draws of phase 0. */
  lemma PhaseZeroSpreadIs(ds: seq<Draw>)
    requires |Accepted(ds)| >= 2
    ensures PhaseZeroSpread(ds) * (|Accepted(ds)| as real - 1.0) == Sxx(Accepted(ds))
  {
    hide Accepted, Describes, AcceptAll, Sxx;
    var acc := Accepted(ds);
    ScanOfAccepted(acc);
    SampleVariance(AcceptAll(EMPTY, acc), acc);
  }

  /** A described variance of a mean, times the number of draws, is the sample variance. */
  lemma SampleVariance(p: Stratum, xs: seq<real>)
    requires Describes(p, xs) && |xs| >= 2
    ensures p.variance * |xs| as real * (|xs| as real - 1.0) == Sxx(xs)
  {
    hide Mean, Sxx;
    var n, d := |xs| as real, |xs| as real * (|xs| as real - 1.0);
    assert d == Mul(n, n - 1.0) > 0.0;
    QuotientTimes(Sxx(xs), d);
    assert p.variance * n * (n - 1.0) == p.variance * d;
  }

  /** Once the run has switched, the demand of the uniform fallback is solved with the sample variance of all uniform
      draws, if entry 0 describes them. */
  lemma UniformSpreadIs(control: Control, xs: seq<real>)
    requires control.uniform && control.est.part != [] && |xs| == control.uniformDraws >= 2
    requires Describes(control.est.part[0], xs) && control.est.part[0].variance > 0.0
    ensures control.UniformSpread() * (|xs| as real - 1.0) == Sxx(xs)
  {
    hide Describes, Sxx;
    SampleVariance(control.est.part[0], xs);
  }

  // ----- plans

  /** The controller's plan for what the optimiser decided. */
  function PlanOf(info: Metainfo, out: seq<StratumPlan>): Plan
    requires !info.ZeroWeights?
  {
    match info
    case NoPhase => Plan(0, 0, [], [])
    case OneStratum(size) => Plan(1, size, [size], [1.0])
    case ManyStrata(k, size) => Plan(k, size, Sizes(out), Fractions(out))
  }

  /** Sizes and fractions of several strata are as the controller needs them. */
  ghost predicate StrataOk(info: Metainfo, out: seq<StratumPlan>) {
    info.ManyStrata? ==>
      && info.k == |out| >= 2 && info.size == SumN(Sizes(out)) && SumR(Fractions(out)) == 1.0
      && forall t :: 0 <= t < |out| ==> out[t].size >= MIN_STRATUM && out[t].fraction >= 0.0
  }

  /** The target for a phase 0 over draws `ds`. */
  function TargetOf(ds: seq<Draw>, relativeCi: real): real {
    Abs(PhaseZeroEstimate(ds).mu) * relativeCi
  }

  /** What was decided, and strata as the controller needs them, for some grouping of the accepted draws. The
      estimate of phase 0 is the one that the statistics of the grouping give. */
  ghost predicate DecidedOn(kv: seq<Sample>, rank: int -> int, ps: seq<Prefix>, ds: seq<Draw>, relativeCi: real,
                            z: real, sqrt: real -> real, charge: real, info: Metainfo, strata: nat,
                            out: seq<StratumPlan>)
    requires TargetOf(ds, relativeCi) != 0.0
  {
    && IntervalsOf(kv, rank, ps) && Spaced(ps) && multiset(Vals(kv)) == multiset(Accepted(ds))
    && PadAll(SampleSlot(ps), Rejections(ds)) == PhaseZeroEstimate(ds)
    && Decided(WeightOf(sqrt, ps), |ps| - 1, ScaleOf(z, TargetOf(ds, relativeCi), sqrt), charge,
               PhaseZeroEstimate(ds).variance, |ds|, sqrt, info, strata)
    && StrataOk(info, out)
  }

  /** The plan is the optimiser's for a phase 0 over draws `ds`. */
  ghost predicate Optimised(plan: Plan, ds: seq<Draw>, relativeCi: real, z: real, sqrt: real -> real, charge: real)
    requires TargetOf(ds, relativeCi) != 0.0
  {
    exists kv, rank, ps, info, strata, out ::
      && DecidedOn(kv, rank, ps, ds, relativeCi, z, sqrt, charge, info, strata, out)
      && !info.ZeroWeights? && plan == PlanOf(info, out)
  }

  lemma SoundStrataAreOk(ord: Order, prefix: seq<Key>, lower: seq<Key>, upper: seq<Key>, pa: int, typ: int,
                         w: Weight, n: nat, split: seq<nat>, out: seq<StratumPlan>, info: Metainfo)
    requires info.ManyStrata? && 2 <= info.k == |out|
    requires SoundStrata(ord, prefix, lower, upper, pa, typ, w, n, split, out, info.size)
    ensures StrataOk(info, out)
  {
    hide SumN, SumR, Partitions, IsBestSplit;
  }

  /** Whatever the optimiser decides is a plan that the controller can take over. */
  lemma OptimisedIsPlan(plan: Plan, ds: seq<Draw>, relativeCi: real, z: real, sqrt: real -> real, charge: real)
    requires TargetOf(ds, relativeCi) != 0.0 && Optimised(plan, ds, relativeCi, z, sqrt, charge)
    ensures PlanOk(plan, plan.k)
  {
    hide IntervalsOf, WeightOf, FirstStop, PhaseSize, Opt, SumN, SumR, Spaced;
    var kv, rank, ps, info, strata, out :|
      && DecidedOn(kv, rank, ps, ds, relativeCi, z, sqrt, charge, info, strata, out)
      && !info.ZeroWeights? && plan == PlanOf(info, out);
    if info.ManyStrata? { SumAtLeast(Sizes(out), 0); }
  }

  lemma {:induction false} SumAtLeast(xs: seq<nat>, i: nat)
    requires i < |xs|
    ensures SumN(xs) >= xs[i]
  {
    if i < |xs| - 1 { SumAtLeast(xs[..|xs| - 1], i); }
  }

  /** The optimiser plans no phase only if phase 0 has met the target already. */
  lemma NoPhaseMeansMet(plan: Plan, ds: seq<Draw>, relativeCi: real, z: real, sqrt: real -> real, charge: real)
    requires TargetOf(ds, relativeCi) > 0.0 && Optimised(plan, ds, relativeCi, z, sqrt, charge) && plan.k == 0
    requires z >= 0.0 && |ds| > 0 && forall x :: RootAt(sqrt, x)
    ensures HalfWidthOf(z, PhaseZeroEstimate(ds).variance, sqrt) <= TargetOf(ds, relativeCi)
  {
    hide IntervalsOf, WeightOf, FirstStop, Opt, SumN, SumR, Solve, ScaleOf, HalfWidthOf, TargetOf, RootAt;
    hide PhaseZeroEstimate;
    var kv, rank, ps, info, strata, out :|
      && DecidedOn(kv, rank, ps, ds, relativeCi, z, sqrt, charge, info, strata, out)
      && !info.ZeroWeights? && plan == PlanOf(info, out);
    var err0, v := TargetOf(ds, relativeCi), PhaseZeroEstimate(ds).variance;
    FirstStopInRange(WeightOf(sqrt, ps), |ps| - 1, ScaleOf(z, err0, sqrt), charge, strata);
    PhaseZeroVariance(ds);
    var best := Opt(WeightOf(sqrt, ps), strata, |ps| - 1);
    assert PhaseSize(ScaleOf(z, err0, sqrt), v, best, |ds|, sqrt).Stop?;
    StopMeansMet(z, err0, v, Sq(best), |ds| as real, sqrt);
  }

  /** A plan of one stratum for a target not met draws the least number of draws that meets it, given the sample
      variance of the accepted draws. */
  lemma OneStratumIsLeast(plan: Plan, ds: seq<Draw>, relativeCi: real, z: real, sqrt: real -> real, charge: real)
    requires TargetOf(ds, relativeCi) > 0.0 && Optimised(plan, ds, relativeCi, z, sqrt, charge) && plan.k == 1
    requires z >= 0.0 && |ds| > 0 && IsSqrt(sqrt) && forall x :: RootAt(sqrt, x)
    requires HalfWidthOf(z, PhaseZeroEstimate(ds).variance, sqrt) >= TargetOf(ds, relativeCi)
    ensures LeastMeeting(SquaredScale(z, TargetOf(ds, relativeCi), sqrt), PhaseZeroEstimate(ds).variance,
                         PhaseZeroSpread(ds), |ds| as real, plan.size)
  {
    hide IntervalsOf, WeightOf, FirstStop, Opt, SumN, SumR, Solve, ScaleOf, HalfWidthOf, TargetOf, RootAt, LeastMeeting;
    hide PhaseZeroEstimate, PhaseZeroSpread, IsSqrt, VarOfMean, Vals;
    var kv, rank, ps, info, strata, out :|
      && DecidedOn(kv, rank, ps, ds, relativeCi, z, sqrt, charge, info, strata, out)
      && !info.ZeroWeights? && plan == PlanOf(info, out);
    var err0, v := TargetOf(ds, relativeCi), PhaseZeroEstimate(ds).variance;
    FirstStopInRange(WeightOf(sqrt, ps), |ps| - 1, ScaleOf(z, err0, sqrt), charge, strata);
    PhaseZeroVariance(ds);
    var best := Opt(WeightOf(sqrt, ps), 1, |ps| - 1);
    SpreadOfOne(kv, rank, ps, ds, sqrt);
    assert info.OneStratum? && strata == 1 && plan.size == info.size;
    assert PhaseSize(ScaleOf(z, err0, sqrt), v, best, |ds|, sqrt)
        == Solve(SquaredScale(z, err0, sqrt), v, Sq(best), |ds| as real, sqrt);
    UnmetSolvedLeast(z, err0, v, Sq(best), |ds| as real, sqrt);
  }

  /** The cost of one stratum is the squared deviation kept from phase 0. */
  lemma SpreadOfOne(kv: seq<Sample>, rank: int -> int, ps: seq<Prefix>, ds: seq<Draw>, sqrt: real -> real)
    requires IntervalsOf(kv, rank, ps) && multiset(Vals(kv)) == multiset(Accepted(ds)) && IsSqrt(sqrt)
    ensures Spaced(ps) && Sq(Opt(WeightOf(sqrt, ps), 1, |ps| - 1)) == PhaseZeroSpread(ds)
  {
    hide IsSqrt, WeightOf, Opt, VarOfMean, Vals, Accepted, PhaseZeroSpread, ClosedUpTo, PadAll, PhaseZeroEstimate, Sq;
    OneStratumCost(kv, rank, ps, sqrt);
    PhaseZeroFromIntervals(kv, rank, ps, ds);
  }

  /** Whatever is planned for a phase 0 with an estimate is the optimiser's, and fits the controller's arrays. */
  ghost predicate OptimisedFor(control: Control, plan: Plan, ds: seq<Draw>, charge: real) {
    TargetOf(ds, control.relativeCi) > 0.0 ==>
      && Optimised(plan, ds, control.relativeCi, control.z, control.sqrt, charge)
      && plan.k <= control.sizes.Length
  }

  /** The same for every phase 0 that a run may make. */
  ghost predicate PlansOptimised(control: Control, auto: bool, candidates: nat, chosen: nat, planner: Planner,
                                 charge: real)
  {
    if auto then
      forall c: nat :: c < candidates ==> OptimisedFor(control, planner(c, control.Probe(c)), control.Probe(c), charge)
    else
      OptimisedFor(control, planner(chosen, control.draw(0, control.initial)), control.draw(0, control.initial), charge)
  }

  lemma OptimisedPlanFits(control: Control, plan: Plan, ds: seq<Draw>, charge: real)
    requires OptimisedFor(control, plan, ds, charge) && control.relativeCi > 0.0
    ensures control.PlanFits(plan, ds)
  {
    hide Optimised, PhaseZeroEstimate;
    assert TargetOf(ds, control.relativeCi) == Mul(Abs(PhaseZeroEstimate(ds).mu), control.relativeCi);
    if PhaseZeroEstimate(ds).mu != 0.0 {
      OptimisedIsPlan(plan, ds, control.relativeCi, control.z, control.sqrt, charge);
    }
  }

  lemma OptimisedPlansFit(control: Control, auto: bool, candidates: nat, chosen: nat, planner: Planner, charge: real)
    requires PlansOptimised(control, auto, candidates, chosen, planner, charge) && control.relativeCi > 0.0
    ensures control.PlansFit(auto, candidates, chosen, planner)
  {
    hide OptimisedFor, Control.PlanFits, Control.Probe;
    if auto {
      forall c: nat | c < candidates ensures control.PlanFits(planner(c, control.Probe(c)), control.Probe(c)) {
        OptimisedPlanFits(control, planner(c, control.Probe(c)), control.Probe(c), charge);
      }
    } else {
      var ds := control.draw(0, control.initial);
      OptimisedPlanFits(control, planner(chosen, ds), ds, charge);
    }
  }

  lemma OptimisedAtHand(control: Control, auto: bool, candidates: nat, chosen: nat, planner: Planner, charge: real,
                        out: Outcome, index: nat, ds: seq<Draw>)
    requires PlansOptimised(control, auto, candidates, chosen, planner, charge) && out.NothingToDo?
    requires control.PhaseZeroWent(auto, candidates, chosen, planner, out, index, ds)
    ensures OptimisedFor(control, planner(index, ds), ds, charge)
  {
    hide OptimisedFor, Affordable, Usable;
  }

  /** A run with the optimiser's plans that does not end with an error has met its target or used up its budget. */
  method RunPlanned(control: Control, auto: bool, candidates: nat, chosen: nat, planner: Planner, charge: real)
    returns (out: Outcome, index: nat, ds: seq<Draw>, ghost phases: seq<Phase>)
    requires control.Sound() && control.Unused() && control.sizes.Length == control.fractions.Length
    requires control.relativeCi > 0.0 && (!auto ==> 0 < control.initial <= control.budget)
    requires PlansOptimised(control, auto, candidates, chosen, planner, charge)
    modifies control, control.est, control.sizes, control.fractions
    ensures out.Finished? || out.NothingToDo? ==> control.Done()
    ensures control.Spent() == control.draws <= control.budget && control.EntriesDescribeScans()
    ensures out.Finished? && control.PhaseZeroDraws(auto, candidates) < control.budget ==>
              && control.EstimateMixed() && control.EntryZeroGrown() && control.err0 != 0.0
              && Chain(control.TheRules(), control.trace, phases, !control.CutShort())
              && control.StartsAsPlanned(phases[0], planner(index, ds))
  {
    hide Optimised, PhaseZeroEstimate, RootAt, Affordable, Probed, PlansOptimised, Control.EstimateMixed;
    hide Control.EntryZeroGrown, Chain, Control.CutShort;
    OptimisedPlansFit(control, auto, candidates, chosen, planner, charge);
    out, index, ds, phases := control.Run(auto, candidates, chosen, planner);
    if out.NothingToDo? {
      OptimisedAtHand(control, auto, candidates, chosen, planner, charge, out, index, ds);
      assert TargetOf(ds, control.relativeCi) == Mul(Abs(PhaseZeroEstimate(ds).mu), control.relativeCi) > 0.0;
      NoPhaseMeansMet(planner(index, ds), ds, control.relativeCi, control.z, control.sqrt, charge);
    }
  }

  // ----- from conditions to strata

  /** Some row that the scan keys select has this key in the partition column. */
  ghost predicate FromRange(ord: Order, nkeys: nat, ks: KeySets, key: int) {
    exists row :: |row| == nkeys && 1 <= ks.attno <= nkeys && MatchesAll(ord, ks.scan, row) && row[ks.attno - 1] == key
  }

  /** A phase 0 over the scan keys: the sorted samples are the accepted draws, each from a row of the range. */
  ghost predicate SamplesRange(ord: Order, nkeys: nat, ks: KeySets, ds: seq<Draw>, kv: seq<Sample>) {
    && Sorted(kv, ColumnRank(ord, ks.attno)) && multiset(Vals(kv)) == multiset(Accepted(ds))
    && forall x :: x in kv ==> FromRange(ord, nkeys, ks, x.key)
  }

  /** A row matches the keys of a stratum exactly when it satisfies the conditions and falls into that stratum. */
  ghost predicate StrataOfConditions(ord: Order, nkeys: nat, quals: seq<Qual>, b: Bounds, types: int -> int,
                                     out: seq<StratumPlan>)
    requires Shaped(b) && b.rest == [] && EqualitySlots(b) <= nkeys
  {
    |out| >= 2 &&
    forall row: seq<int>, t: nat :: |row| == nkeys && t < |out| ==>
      (SomeStratum(ord, ExpectedSets(b, nkeys, types, []), Cuts(out), row, t)
       <==> SatisfiesAll(ord, quals, row)
            && t == StratumOf(ord, EqualitySlots(b), Cuts(out), row[EqualitySlots(b) - 1]))
  }

  lemma NothingPasted(b: Bounds, nkeys: nat, types: int -> int)
    requires Shaped(b) && b.rest == [] && EqualitySlots(b) <= nkeys
    ensures var e := EqualitySlots(b);
            && ExpectedSets(b, nkeys, types, []) == RangeSets(b.lb[1..e], Lower(b, e), Upper(b, e), e, types(e))
            && e >= 1
  {
  }

  /** The partition of the range by its own keys is a partition of the rows that satisfy the conditions. */
  lemma PartitionOfConditions(ord: Order, nkeys: nat, quals: seq<Qual>, b: Bounds, types: int -> int,
                              out: seq<StratumPlan>)
    requires Shaped(b) && b.rest == [] && EqualitySlots(b) <= nkeys && |b.lb| <= nkeys + 1 && |b.ub| <= nkeys + 1
    requires forall row :: BoundsMatch(ord, b, row) <==> SatisfiesAll(ord, quals, row)
    requires var e := EqualitySlots(b); Partitions(ord, b.lb[1..e], Lower(b, e), Upper(b, e), e, types(e), out)
    ensures StrataOfConditions(ord, nkeys, quals, b, types, out)
  {
    hide BoundsMatch, SatisfiesAll, MatchesAll, StratumOf, ExpectedSets, OneSided;
    NothingPasted(b, nkeys, types);
    forall row: seq<int>, t: nat | |row| == nkeys && t < |out|
      ensures SomeStratum(ord, ExpectedSets(b, nkeys, types, []), Cuts(out), row, t)
              <==> SatisfiesAll(ord, quals, row)
                   && t == StratumOf(ord, EqualitySlots(b), Cuts(out), row[EqualitySlots(b) - 1])
    {
      ScanMeansBounds(ord, b, nkeys, types, [], row);
    }
  }

  /** Sampled keys are within the range of the partition column. */
  lemma SampledInRange(ord: Order, nkeys: nat, b: Bounds, types: int -> int, key: int)
    requires Shaped(b) && b.rest == [] && EqualitySlots(b) <= nkeys
    requires FromRange(ord, nkeys, ExpectedSets(b, nkeys, types, []), key)
    ensures InRange(ord, Lower(b, EqualitySlots(b)), Upper(b, EqualitySlots(b)), key)
  {
    hide OneSided;
    var e, ks := EqualitySlots(b), ExpectedSets(b, nkeys, types, []);
    var row :| |row| == nkeys && 1 <= ks.attno <= nkeys && MatchesAll(ord, ks.scan, row) && row[ks.attno - 1] == key;
    NothingPasted(b, nkeys, types);
    ShapeOnColumn(b);
    forall k | k in Lower(b, e) || k in Upper(b, e) ensures CompareArgs(ord, k.attno, k.strategy, key, k.arg) {
      assert k in ks.scan && Matches(ord, k, row);
    }
  }

  lemma EnoughAccepted(kv: seq<Sample>, ds: seq<Draw>, relativeCi: real)
    requires multiset(Vals(kv)) == multiset(Accepted(ds)) && TargetOf(ds, relativeCi) != 0.0
    ensures |kv| >= 2
  {
    SameLength(Vals(kv), Accepted(ds));
    assert |Accepted(ds)| < 2 ==> Abs(0.0) * relativeCi == 0.0;
  }

  /** Several strata, written for the range of folded conditions: a cheapest split of their number that partitions the
      range, with sizes that are enough for the solved phase size. */
  ghost predicate SoundFor(ord: Order, b: Bounds, types: int -> int, ps: seq<Prefix>, ds: seq<Draw>, relativeCi: real,
                           z: real, sqrt: real -> real, info: Metainfo, split: seq<nat>, out: seq<StratumPlan>)
    requires Shaped(b) && b.rest == [] && b.lb != [] && TargetOf(ds, relativeCi) != 0.0 && Spaced(ps)
    requires info.ManyStrata?
  {
    var e, w, n := EqualitySlots(b), WeightOf(sqrt, ps), |ps| - 1;
    && 2 <= info.k == |out| <= n
    && SoundStrata(ord, b.lb[1..e], Lower(b, e), Upper(b, e), e, types(e), w, n, split, out, info.size)
    && VarianceWithin(w, split, out, Opt(w, info.k, n),
                      SolvedSize(PhaseSize(ScaleOf(z, TargetOf(ds, relativeCi), sqrt), PhaseZeroEstimate(ds).variance,
                                           Opt(w, info.k, n), |ds|, sqrt)))
  }

  /** Optimises a sample of the range of folded conditions, grouped into the first `n` of the intervals in `ps`. */
  method OptimiseRange(ord: Order, nkeys: nat, b: Bounds, types: int -> int, ds: seq<Draw>, kv: seq<Sample>, count: nat,
                       relativeCi: real, z: real, sqrt: real -> real, charge: real, ps: array<Prefix>,
                       cost: array<real>, prev: array<int>, out: array<StratumPlan>)
    returns (n: nat, info: Metainfo, ghost strata: nat, ghost split: seq<nat>)
    requires Shaped(b) && b.rest == [] && EqualitySlots(b) <= nkeys && TargetOf(ds, relativeCi) != 0.0
    requires SamplesRange(ord, nkeys, ExpectedSets(b, nkeys, types, []), ds, kv) && IsSqrt(sqrt)
    requires count >= 1 && ps.Length == count + 1 && cost.Length == count && out.Length == count
    requires prev.Length == (count - 1) * count
    modifies ps, cost, prev, out
    ensures 1 <= n <= count && Grouped(kv, ColumnRank(ord, EqualitySlots(b)), ps[..n + 1], count)
    ensures DecidedOn(kv, ColumnRank(ord, EqualitySlots(b)), ps[..n + 1], ds, relativeCi, z, sqrt, charge, info, strata,
                      StrataIn(info, out[..]))
    ensures info.ManyStrata? ==>
              && info.k <= n
              && SoundFor(ord, b, types, ps[..n + 1], ds, relativeCi, z, sqrt, info, split, out[..info.k])
  {
    hide Partitions, IsSqrt, ExpectedSets, Sorted, Vals, Accepted, InRange, FromRange, OnColumn, TargetOf;
    hide PhaseZeroEstimate, OneSided, ScaleOf, IntervalsOf, Spaced, WeightOf, Decided, SoundStrata, VarianceWithin, Opt;
    hide PhaseSize, Grouped;
    ghost var e := EqualitySlots(b);
    NothingPasted(b, nkeys, types);
    ShapeOnColumn(b);
    forall x | x in kv ensures InRange(ord, Lower(b, e), Upper(b, e), x.key) {
      SampledInRange(ord, nkeys, b, types, x.key);
    }
    EnoughAccepted(kv, ds, relativeCi);
    var scale := ScaleOf(z, TargetOf(ds, relativeCi), sqrt);
    n, info, strata, split := PlanStrata(ord, b.lb[1..e], Lower(b, e), Upper(b, e), EqualitySlots(b), types(e), kv,
                                         count, sqrt, scale, charge, PhaseZeroEstimate(ds).variance, |ds|, ps, cost,
                                         prev, out);
    if info.ManyStrata? {
      SoundStrataAreOk(ord, b.lb[1..e], Lower(b, e), Upper(b, e), e, types(e), WeightOf(sqrt, ps[..n + 1]), n, split,
                       out[..info.k], info);
    }
    PhaseZeroFromIntervals(kv, ColumnRank(ord, e), ps[..n + 1], ds);
  }

  /** The strata written for several of them. */
  function StrataIn(info: Metainfo, out: seq<StratumPlan>): seq<StratumPlan> {
    if info.ManyStrata? && info.k <= |out| then out[..info.k] else []
  }

  lemma SoundIsPartition(ord: Order, b: Bounds, types: int -> int, ps: seq<Prefix>, ds: seq<Draw>, relativeCi: real,
                         z: real, sqrt: real -> real, info: Metainfo, split: seq<nat>, out: seq<StratumPlan>)
    requires Shaped(b) && b.rest == [] && b.lb != [] && TargetOf(ds, relativeCi) != 0.0 && Spaced(ps)
    requires info.ManyStrata? && SoundFor(ord, b, types, ps, ds, relativeCi, z, sqrt, info, split, out)
    ensures var e := EqualitySlots(b); Partitions(ord, b.lb[1..e], Lower(b, e), Upper(b, e), e, types(e), out)
  {
    hide Partitions, IsBestSplit, SumN, SumR, Opt, PhaseSize, VarianceWithin, TargetOf;
  }

  lemma OptimisedBy(kv: seq<Sample>, rank: int -> int, ps: seq<Prefix>, ds: seq<Draw>, relativeCi: real, z: real,
                    sqrt: real -> real, charge: real, info: Metainfo, strata: nat, out: seq<StratumPlan>)
    requires TargetOf(ds, relativeCi) != 0.0
    requires DecidedOn(kv, rank, ps, ds, relativeCi, z, sqrt, charge, info, strata, out) && !info.ZeroWeights?
    ensures Optimised(PlanOf(info, out), ds, relativeCi, z, sqrt, charge)
  {
    hide IntervalsOf, Decided, StrataOk, TargetOf;
  }

  lemma DecidedIsSpaced(kv: seq<Sample>, rank: int -> int, ps: seq<Prefix>, ds: seq<Draw>, relativeCi: real, z: real,
                        sqrt: real -> real, charge: real, info: Metainfo, strata: nat, out: seq<StratumPlan>)
    requires TargetOf(ds, relativeCi) != 0.0
    requires DecidedOn(kv, rank, ps, ds, relativeCi, z, sqrt, charge, info, strata, out)
    ensures Spaced(ps)
  {
    hide IntervalsOf, Decided, StrataOk, TargetOf;
  }

  /** The whole way from conditions on an index to a plan: fold the conditions, build the key sets, sample the range
      they give, and optimise. With nothing left over, what is decided is what search and equation say of the first `n`
      intervals of that sample in `ps`; several strata are a cheapest split of their number, and the stratum keys
      partition the rows that satisfy the conditions. */
  method PlanConditions(ord: Order, can: Comparable, nkeys: nat, quals: seq<Qual>, types: int -> int,
                        sample: KeySets -> (seq<Draw>, seq<Sample>), count: nat, relativeCi: real, z: real,
                        sqrt: real -> real, charge: real, ps: array<Prefix>, cost: array<real>, prev: array<int>,
                        out: array<StratumPlan>)
    returns (f: Folded, ks: KeySets, ds: seq<Draw>, n: nat, info: Metainfo, ghost strata: nat, ghost split: seq<nat>)
    requires AllComparable(can) && Ordered(quals) && IsSqrt(sqrt) && relativeCi > 0.0
    requires count >= 1 && ps.Length == count + 1 && cost.Length == count && out.Length == count
    requires prev.Length == (count - 1) * count
    requires forall ks :: SamplesRange(ord, nkeys, ks, sample(ks).0, sample(ks).1)
    modifies ps, cost, prev, out
    ensures f == Fold(ord, can, nkeys, quals)
    ensures f.NoRows? ==> forall row :: !SatisfiesAll(ord, quals, row)
    ensures Planned(f, nkeys, ds, relativeCi) ==>
              && Shaped(f.b) && f.b.rest == [] && EqualitySlots(f.b) <= nkeys
              && ks == ExpectedSets(f.b, nkeys, types, []) && ds == sample(ks).0
              && 1 <= n <= count && Grouped(sample(ks).1, ColumnRank(ord, ks.attno), ps[..n + 1], count)
              && DecidedOn(sample(ks).1, ColumnRank(ord, ks.attno), ps[..n + 1], ds, relativeCi, z, sqrt, charge, info,
                           strata, StrataIn(info, out[..]))
              && (info.ManyStrata? ==>
                    && info.k <= n && StrataOfConditions(ord, nkeys, quals, f.b, types, out[..info.k])
                    && SoundFor(ord, f.b, types, ps[..n + 1], ds, relativeCi, z, sqrt, info, split, out[..info.k]))
              && (!info.ZeroWeights? ==>
                    Optimised(PlanOf(info, StrataIn(info, out[..])), ds, relativeCi, z, sqrt, charge))
  {
    hide AllComparable, SamplesRange, StrataOfConditions, Optimised, IsSqrt, Fold, SatisfiesAll, BoundsMatch, OneSided;
    hide TargetOf, Partitions, DecidedOn, SoundFor, Spaced, Grouped;
    n, info, ds, strata, split := 0, NoPhase, [], 0, [];
    ks := KeySets(true, 0, [], [], [], [], 0, 0, 0, 0);
    f := FoldQuals(ord, can, nkeys, quals);
    if !f.Folded? || f.b.rest != [] {
      return;
    }
    ks := BuildKeySets(f.b, nkeys, types, []);
    if ks.allEqual {
      return;
    }
    ds := sample(ks).0;
    if TargetOf(ds, relativeCi) != 0.0 {
      n, info, strata, split := OptimiseRange(ord, nkeys, f.b, types, ds, sample(ks).1, count, relativeCi, z, sqrt,
                                              charge, ps, cost, prev, out);
      DecidedIsSpaced(sample(ks).1, ColumnRank(ord, ks.attno), ps[..n + 1], ds, relativeCi, z, sqrt, charge, info,
                      strata, StrataIn(info, out[..]));
      if !info.ZeroWeights? {
        OptimisedBy(sample(ks).1, ColumnRank(ord, ks.attno), ps[..n + 1], ds, relativeCi, z, sqrt, charge, info, strata,
                    StrataIn(info, out[..]));
      }
      if info.ManyStrata? {
        SoundIsPartition(ord, f.b, types, ps[..n + 1], ds, relativeCi, z, sqrt, info, split, out[..info.k]);
        PartitionOfConditions(ord, nkeys, quals, f.b, types, out[..info.k]);
      }
    }
  }

  /** The conditions fold without left-over keys, the index has a column to partition on, and phase 0 has a target. */
  ghost predicate Planned(f: Folded, nkeys: nat, ds: seq<Draw>, relativeCi: real) {
    && f.Folded? && f.b.rest == [] && f.b.lb != [] && EqualitySlots(f.b) <= nkeys
    && TargetOf(ds, relativeCi) != 0.0
  }
}
