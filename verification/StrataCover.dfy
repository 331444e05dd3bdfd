/** From the recorded sample to the scan keys of the strata: the bounds that the optimiser emits cut the scanned range
    into strata that do not overlap and leave nothing out. */
module StrataCover {
  import opened Intervals
  import opened StrataDP
  import opened Allocation
  import opened StrataPlan
  import opened IndexBounds
  import opened ScanKeys

  /** The comparator of the partition column. */
  function ColumnRank(ord: Order, pa: int): int -> int {
    x => ord(pa, x)
  }

  /** The bounds between the strata; the bound of the last stratum is not used. */
  function Cuts(out: seq<StratumPlan>): (cuts: seq<int>)
    requires out != []
    ensures |cuts| == |out| - 1
  {
    seq(|out| - 1, t requires 0 <= t < |out| - 1 => out[t].ub)
  }

  /** The bound of an interval that is not the last is the first key of the next, which is greater than all before. */
  lemma BoundIsSampledKey(kv: seq<Sample>, rank: int -> int, ps: seq<Prefix>, i: nat)
    requires IntervalsOf(kv, rank, ps) && 1 <= i < |ps| - 1
    ensures 2 <= ps[i].m < |kv| && ps[i].key == kv[ps[i].m].key
    ensures rank(kv[ps[i].m - 1].key) < rank(ps[i].key)
  {
    hide PrefixStats.PrefixExact, Vals;
    assert Closed(kv, rank, ps[i - 1], ps[i]);
  }

  lemma BoundsIncrease(kv: seq<Sample>, rank: int -> int, ps: seq<Prefix>, i: nat, j: nat)
    requires IntervalsOf(kv, rank, ps) && Sorted(kv, rank) && 1 <= i < j < |ps| - 1
    ensures rank(ps[i].key) < rank(ps[j].key)
  {
    hide IntervalsOf;
    BoundIsSampledKey(kv, rank, ps, i);
    BoundIsSampledKey(kv, rank, ps, j);
    SpacedFrom(kv, rank, ps, i, j);
  }

  lemma {:induction false} SplitGrows(split: seq<nat>, k: nat, n: nat, i: nat, j: nat)
    requires IsSplit(split, k, n) && i < j <= k
    ensures split[i] < split[j]
    decreases j
  {
    if i < j - 1 { SplitGrows(split, k, n, i, j - 1); }
  }

  /** Boundary t + 1 of a split, for a stratum t that is not the last, ends an interval that is not the last. */
  lemma InnerBoundary(split: seq<nat>, k: nat, n: nat, t: nat)
    requires IsSplit(split, k, n) && t + 1 < k
    ensures 1 <= split[t + 1] < n
  {
    SplitGrows(split, k, n, 0, t + 1);
    SplitGrows(split, k, n, t + 1, k);
  }

  /** Emitted bounds increase strictly and are keys of the sample. */
  lemma CutsAreSampledKeys(kv: seq<Sample>, rank: int -> int, ps: seq<Prefix>, w: Weight, split: seq<nat>,
                           phase: nat, s: real, out: seq<StratumPlan>)
    requires IntervalsOf(kv, rank, ps) && Sorted(kv, rank) && |out| >= 2
    requires IsSplit(split, |out|, |ps| - 1) && Written(w, Keys(ps), split, 0, phase, s, out)
    ensures forall i, j :: 0 <= i < j < |out| - 1 ==> rank(Cuts(out)[i]) < rank(Cuts(out)[j])
    ensures forall c :: c in Cuts(out) ==> exists x :: x in kv && x.key == c
  {
    assert |ps| >= 2;
    hide IntervalsOf, Written, IsSplit, Sorted;
    var k, n := |out|, |ps| - 1;
    EmittedCount(w, Keys(ps), split, phase, s, out);
    forall t | 0 <= t < k - 1
      ensures 1 <= split[t + 1] < n && Cuts(out)[t] == ps[split[t + 1]].key
      ensures exists x :: x in kv && x.key == Cuts(out)[t]
    {
      InnerBoundary(split, k, n, t);
      EmittedStratum(w, Keys(ps), split, phase, s, out, t);
      BoundIsSampledKey(kv, rank, ps, split[t + 1]);
      assert kv[ps[split[t + 1]].m] in kv;
    }
    forall i, j | 0 <= i < j < k - 1 ensures rank(Cuts(out)[i]) < rank(Cuts(out)[j]) {
      InnerBoundary(split, k, n, i);
      InnerBoundary(split, k, n, j);
      SplitGrows(split, k, n, i + 1, j + 1);
      BoundsIncrease(kv, rank, ps, split[i + 1], split[j + 1]);
    }
  }

  /** If the sample was drawn from the range, the emitted strata partition it: a row of the range matches the keys of
      exactly one stratum, and a row outside the range those of none. */
  lemma EmittedStrataPartition(ord: Order, prefix: seq<Key>, lower: seq<Key>, upper: seq<Key>, pa: int, typ: int,
                               kv: seq<Sample>, ps: seq<Prefix>, w: Weight, split: seq<nat>, phase: nat, s: real,
                               out: seq<StratumPlan>, row: seq<int>, t: nat)
    requires 1 <= pa <= |row| && OnColumn(lower, upper, pa)
    requires forall x :: x in kv ==> InRange(ord, lower, upper, x.key)
    requires IntervalsOf(kv, ColumnRank(ord, pa), ps) && Sorted(kv, ColumnRank(ord, pa))
    requires |out| >= 2 && t < |out|
    requires IsSplit(split, |out|, |ps| - 1) && Written(w, Keys(ps), split, 0, phase, s, out)
    ensures var ks := RangeSets(prefix, lower, upper, pa, typ);
            SomeStratum(ord, ks, Cuts(out), row, t)
            <==> MatchesAll(ord, ks.scan, row) && t == StratumOf(ord, pa, Cuts(out), row[pa - 1])
  {
    hide IntervalsOf, Written, IsSplit, Sorted, InRange, SomeStratum, MatchesAll, OnColumn;
    var rank := ColumnRank(ord, pa);
    CutsAreSampledKeys(kv, rank, ps, w, split, phase, s, out);
    assert Increasing(ord, pa, Cuts(out)) by {
      forall i, j | 0 <= i < j < |Cuts(out)| ensures ord(pa, Cuts(out)[i]) < ord(pa, Cuts(out)[j]) {
        assert rank(Cuts(out)[i]) < rank(Cuts(out)[j]);
      }
    }
    StrataPartition(ord, prefix, lower, upper, pa, typ, Cuts(out), row, t);
  }

  /** The strata in `out` partition the range given by the equalities and the keys on the partition column. */
  ghost predicate Partitions(ord: Order, prefix: seq<Key>, lower: seq<Key>, upper: seq<Key>, pa: int, typ: int,
                             out: seq<StratumPlan>)
  {
    |out| >= 2 &&
    forall row: seq<int>, t: nat :: 1 <= pa <= |row| && t < |out| ==>
      var ks := RangeSets(prefix, lower, upper, pa, typ);
      (SomeStratum(ord, ks, Cuts(out), row, t)
       <==> MatchesAll(ord, ks.scan, row) && t == StratumOf(ord, pa, Cuts(out), row[pa - 1]))
  }

  lemma EmittedStrataPartitionAll(ord: Order, prefix: seq<Key>, lower: seq<Key>, upper: seq<Key>, pa: int, typ: int,
                                  kv: seq<Sample>, ps: seq<Prefix>, w: Weight, split: seq<nat>, phase: nat, s: real,
                                  out: seq<StratumPlan>)
    requires OnColumn(lower, upper, pa)
    requires forall x :: x in kv ==> InRange(ord, lower, upper, x.key)
    requires IntervalsOf(kv, ColumnRank(ord, pa), ps) && Sorted(kv, ColumnRank(ord, pa))
    requires |out| >= 2
    requires IsSplit(split, |out|, |ps| - 1) && Written(w, Keys(ps), split, 0, phase, s, out)
    ensures Partitions(ord, prefix, lower, upper, pa, typ, out)
  {
    forall row: seq<int>, t: nat | 1 <= pa <= |row| && t < |out|
      ensures var ks := RangeSets(prefix, lower, upper, pa, typ);
              SomeStratum(ord, ks, Cuts(out), row, t)
              <==> MatchesAll(ord, ks.scan, row) && t == StratumOf(ord, pa, Cuts(out), row[pa - 1])
    {
      EmittedStrataPartition(ord, prefix, lower, upper, pa, typ, kv, ps, w, split, phase, s, out, row, t);
    }
  }

  lemma NonNegativeWeights(kv: seq<Sample>, rank: int -> int, ps: seq<Prefix>, sqrt: real -> real)
    requires IntervalsOf(kv, rank, ps) && IsSqrt(sqrt)
    ensures Spaced(ps) && forall j, i :: 0 <= j < i < |ps| ==> WeightOf(sqrt, ps)(j, i) >= 0.0
  {
    IntervalsAreSpaced(kv, rank, ps);
    hide Spaced, WeightOf, IntervalsOf, IsSqrt, Vals;
    forall j: int, i: int | 0 <= j < i < |ps| ensures WeightOf(sqrt, ps)(j, i) >= 0.0 {
      WeightsAreDeviations(kv, rank, ps, sqrt, j, i);
    }
  }

  lemma TableLargeEnough(n: nat, count: nat)
    requires 1 <= n <= count
    ensures (n - 1) * n <= (count - 1) * count
  {
    assert (n - 1) * n <= (count - 1) * n <= (count - 1) * count;
  }

  /** Several strata: the best split of their number, a partition of the range, sizes that add up to the phase size
      with at least the minimum in each, and fractions that add up to one. */
  ghost predicate SoundStrata(ord: Order, prefix: seq<Key>, lower: seq<Key>, upper: seq<Key>, pa: int, typ: int,
                              w: Weight, n: nat, split: seq<nat>, out: seq<StratumPlan>, size: nat)
  {
    && IsBestSplit(w, split, |out|, n)
    && Partitions(ord, prefix, lower, upper, pa, typ, out)
    && size == SumN(Sizes(out)) && SumR(Fractions(out)) == 1.0
    && forall t :: 0 <= t < |out| ==> out[t].size >= MIN_STRATUM && out[t].fraction >= 0.0
  }

  lemma EmittedStrataAreSound(ord: Order, prefix: seq<Key>, lower: seq<Key>, upper: seq<Key>, pa: int, typ: int,
                              kv: seq<Sample>, ps: seq<Prefix>, w: Weight, split: seq<nat>, phase: nat, s: real,
                              out: seq<StratumPlan>)
    requires OnColumn(lower, upper, pa)
    requires forall x :: x in kv ==> InRange(ord, lower, upper, x.key)
    requires IntervalsOf(kv, ColumnRank(ord, pa), ps) && Sorted(kv, ColumnRank(ord, pa))
    requires |out| >= 2 && s > 0.0 && SplitCost(w, split) == s && IsBestSplit(w, split, |out|, |ps| - 1)
    requires Written(w, Keys(ps), split, 0, phase, s, out)
    ensures SoundStrata(ord, prefix, lower, upper, pa, typ, w, |ps| - 1, split, out, SumN(Sizes(out)))
  {
    assert |ps| >= 2 && IsSplit(split, |out|, |ps| - 1);
    hide Partitions, IsBestSplit, IsSplit, IntervalsOf, Sorted, OnColumn, InRange, SplitCost, SumN, SumR, Written;
    EmittedStrataPartitionAll(ord, prefix, lower, upper, pa, typ, kv, ps, w, split, phase, s, out);
    FractionsSumToOne(w, Keys(ps), split, phase, s, out);
    forall t | 0 <= t < |out| ensures out[t].size >= MIN_STRATUM && out[t].fraction >= 0.0 {
      EmittedStratum(w, Keys(ps), split, phase, s, out, t);
    }
  }

  /** Drawing the sizes of the strata keeps the stratified variance within what a phase of `phase` draws was solved
      for. */
  ghost predicate VarianceWithin(w: Weight, split: seq<nat>, out: seq<StratumPlan>, s: real, phase: int) {
    && phase >= 1 && |split| == |out| + 1 && SplitCost(w, split) == s
    && (forall t :: 0 <= t < |out| ==> AsReals(Sizes(out))[t] > 0.0)
    && StratifiedVariance(Sigmas(w, split), AsReals(Sizes(out))) <= s * (s / phase as real)
  }

  /** From a sorted sample of the range to strata, within the arrays allocated for `count` intervals. What is decided is
      what search and equation say; several strata are a cheapest split of their number that partitions the range, and
      drawing their sizes is enough for the solved phase size. */
  method PlanStrata(ord: Order, ghost prefix: seq<Key>, ghost lower: seq<Key>, ghost upper: seq<Key>, pa: int,
                    ghost typ: int, kv: seq<Sample>, count: nat, sqrt: real -> real, scale: real, charge: real, v: real,
                    n0: nat, ps: array<Prefix>, cost: array<real>, prev: array<int>, out: array<StratumPlan>)
    returns (nintvls: nat, info: Metainfo, ghost strata: nat, ghost split: seq<nat>)
    requires count >= 1 && ps.Length == count + 1 && cost.Length == count && out.Length == count
    requires prev.Length == (count - 1) * count
    requires IsSqrt(sqrt) && Sorted(kv, ColumnRank(ord, pa)) && OnColumn(lower, upper, pa)
    requires forall x :: x in kv ==> InRange(ord, lower, upper, x.key)
    modifies ps, cost, prev, out
    ensures nintvls <= count && (nintvls == 0 <==> |kv| <= 1)
    ensures nintvls > 0 ==> IntervalsOf(kv, ColumnRank(ord, pa), ps[..nintvls + 1]) && Spaced(ps[..nintvls + 1])
    ensures nintvls > 0 ==> Grouped(kv, ColumnRank(ord, pa), ps[..nintvls + 1], count)
    ensures nintvls == 0 ==> info.NoPhase?
    ensures nintvls > 0 ==>
              Decided(WeightOf(sqrt, ps[..nintvls + 1]), nintvls, scale, charge, v, n0, sqrt, info, strata)
    ensures info.ManyStrata? ==>
              var w := WeightOf(sqrt, ps[..nintvls + 1]);
              && 2 <= info.k <= nintvls && info.k == strata
              && SoundStrata(ord, prefix, lower, upper, pa, typ, w, nintvls, split, out[..info.k], info.size)
              && VarianceWithin(w, split, out[..info.k], Opt(w, strata, nintvls),
                                SolvedSize(PhaseSize(scale, v, Opt(w, strata, nintvls), n0, sqrt)))
  {
    hide IsBestSplit, IntervalsOf, WeightOf, Spaced, IsSqrt, Sorted, OnColumn, InRange, SoundStrata, Written, SplitCost;
    hide Opt, PhaseSize, Decided, VarianceWithin, SumN, Grouped;
    info, split, strata := NoPhase, [], 0;
    nintvls := BuildIntervals(kv, ColumnRank(ord, pa), count, ps);
    if nintvls > 0 {
      var pre := ps[..nintvls + 1];
      NonNegativeWeights(kv, ColumnRank(ord, pa), pre, sqrt);
      TableLargeEnough(nintvls, count);
      info, strata, split := ComputeMetainfo(sqrt, pre, scale, charge, v, n0, cost, prev, out);
      DecidedStrata(WeightOf(sqrt, pre), nintvls, scale, charge, v, n0, sqrt, info, strata);
      if info.ManyStrata? {
        ghost var w := WeightOf(sqrt, pre);
        ghost var best := Opt(w, strata, nintvls);
        ghost var phase := SolvedSize(PhaseSize(scale, v, best, n0, sqrt));
        EmittedStrataAreSound(ord, prefix, lower, upper, pa, typ, kv, pre, w, split, phase, best, out[..info.k]);
        EmittedWithin(w, Keys(pre), split, phase, best, out[..info.k]);
      }
    }
  }

  lemma DecidedStrata(w: Weight, n: nat, scale: real, charge: real, v: real, n0: nat, sqrt: real -> real,
                      info: Metainfo, strata: nat)
    requires Decided(w, n, scale, charge, v, n0, sqrt, info, strata)
    ensures 1 <= strata <= n && (info.ManyStrata? ==> info.k == strata >= 2)
  {
    hide Opt, PhaseSize;
  }

  lemma EmittedWithin(w: Weight, keys: seq<int>, split: seq<nat>, phase: nat, s: real, out: seq<StratumPlan>)
    requires Written(w, keys, split, 0, phase, s, out) && s > 0.0 && SplitCost(w, split) == s && phase >= 1
    ensures VarianceWithin(w, split, out, s, phase)
  {
    hide Written, SplitCost, StratifiedVariance;
    EmittedSizesAreEnough(w, keys, split, phase, s, out);
  }
}
