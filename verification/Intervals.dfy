/** Grouping of the sorted phase-0 sample into initial intervals, each with the statistics of the prefix that ends
    with it. */
module Intervals {
  import opened Moments
  import opened PrefixStats

  /** A recorded key/value pair. Keys are datums; the comparator of the index orders them by `rank`. */
  datatype Sample = Sample(key: int, value: real)

  /** One entry of prefix_stats: the samples up to the end of an interval. The key is its right-open bound. */
  datatype Prefix = Prefix(key: int, m: nat, mu: real, variance: real)

  function Vals(kv: seq<Sample>): (xs: seq<real>)
    ensures |xs| == |kv|
  {
    seq(|kv|, i requires 0 <= i < |kv| => kv[i].value)
  }

  predicate Sorted(kv: seq<Sample>, rank: int -> int) {
    forall i, j :: 0 <= i < j < |kv| ==> rank(kv[i].key) <= rank(kv[j].key)
  }

  // ----- what the intervals are

  /** The interval between prefixes `p` and `q` holds at least two samples and all equal keys of those, and has the
      first key of the next interval as its bound. */
  ghost predicate Closed(kv: seq<Sample>, rank: int -> int, p: Prefix, q: Prefix) {
    && p.m + 2 <= q.m < |kv|
    && rank(kv[q.m - 1].key) < rank(kv[q.m].key)
    && q.key == kv[q.m].key
    && PrefixExact(Vals(kv)[..q.m], q.mu, q.variance)
  }

  ghost predicate ClosedUpTo(kv: seq<Sample>, rank: int -> int, ps: seq<Prefix>, j: nat)
    requires j <= |ps|
  {
    forall t :: 1 <= t < j ==> Closed(kv, rank, ps[t - 1], ps[t])
  }

  ghost predicate IntervalsOf(kv: seq<Sample>, rank: int -> int, ps: seq<Prefix>) {
    && |ps| >= 2
    && ps[0].m == 0
    && ClosedUpTo(kv, rank, ps, |ps| - 1)
    && var last := ps[|ps| - 1];
       && last.m == |kv| && kv != [] && last.key == kv[|kv| - 1].key
       && ps[|ps| - 2].m + 2 <= last.m
       && PrefixExact(Vals(kv), last.mu, last.variance)
  }

  // ----- counting distinct keys

  function KeyChanges(kv: seq<Sample>, i: nat): nat
    requires i <= |kv|
  {
    if i <= 1 then 0 else KeyChanges(kv, i - 1) + if kv[i - 2].key != kv[i - 1].key then 1 else 0
  }

  function RankChanges(kv: seq<Sample>, rank: int -> int, i: nat): nat
    requires i <= |kv|
  {
    if i <= 1 then 0
    else RankChanges(kv, rank, i - 1) + if rank(kv[i - 2].key) != rank(kv[i - 1].key) then 1 else 0
  }

  lemma {:induction false} ChangesBound(kv: seq<Sample>, rank: int -> int, i: nat)
    requires i <= |kv|
    ensures RankChanges(kv, rank, i) <= KeyChanges(kv, i) <= KeyChanges(kv, |kv|)
    decreases |kv| - i
  {
    RankBelowKey(kv, rank, i);
    if i < |kv| { ChangesBound(kv, rank, i + 1); }
  }

  lemma {:induction false} RankBelowKey(kv: seq<Sample>, rank: int -> int, i: nat)
    requires i <= |kv|
    ensures RankChanges(kv, rank, i) <= KeyChanges(kv, i)
  {
    if i > 1 { RankBelowKey(kv, rank, i - 1); }
  }

  // ----- how many keys the first j intervals take at least

  /** The first `r` intervals are owed one distinct key more than the others. */
  function Share(j: nat, d: nat, r: nat): nat {
    d + if j <= r then 1 else 0
  }

  function Shares(j: nat, d: nat, r: nat): nat {
    if j == 0 then 0 else Shares(j - 1, d, r) + Share(j, d, r)
  }

  lemma {:induction false} SharesTotal(j: nat, d: nat, r: nat)
    ensures Shares(j, d, r) == j * d + if j <= r then j else r
  {
    if j > 0 {
      SharesTotal(j - 1, d, r);
      assert j * d == (j - 1) * d + d;
    }
  }

  /** The shares of `m` distinct keys: all `count` intervals together are owed at least as many. */
  method DealShares(m: nat, count: nat) returns (d: nat, r: nat)
    requires count >= 1
    ensures d == Quota(m, count) && r == Surplus(m, count)
    ensures Shares(count, d, r) >= m
  {
    d, r := 1, 0;
    if m > count {
      d, r := m / count, m % count;
      assert m == count * d + r;
    }
    SharesTotal(count, d, r);
  }

  /** `c` distinct keys have been counted in interval `j`, and each interval before it got its share. */
  ghost predicate OnPace(kv: seq<Sample>, rank: int -> int, i: nat, j: nat, c: nat, d: nat, r: nat)
    requires i <= |kv| && j >= 1
  {
    RankChanges(kv, rank, i) >= Shares(j - 1, d, r) + c - 1
  }

  /** An interval is left only while there is another to go to. */
  lemma PaceKept(kv: seq<Sample>, rank: int -> int, i: nat, j: nat, c: nat, d: nat, r: nat, count: nat)
    requires 1 <= i < |kv| && 1 <= j <= count && OnPace(kv, rank, i, j, c, d, r)
    requires Shares(count, d, r) >= 1 + KeyChanges(kv, |kv|)
    ensures if rank(kv[i - 1].key) == rank(kv[i].key) then OnPace(kv, rank, i + 1, j, c, d, r)
            else OnPace(kv, rank, i + 1, j, c + 1, d, r)
                 && (c + 1 > Share(j, d, r) ==> j < count && OnPace(kv, rank, i + 1, j + 1, 1, d, r))
  {
    hide KeyChanges;
    ChangesBound(kv, rank, i + 1);
  }

  // ----- where an interval ends

  /** Keys of a sample that the comparator tells apart. */
  function RanksOf(kv: seq<Sample>, rank: int -> int): set<int> {
    set x | x in kv :: rank(x.key)
  }

  /** An interval that starts at sample `p` may end before sample `i`: it has two samples, the key changes, and with the
      next key it would hold more keys than its share. */
  predicate MayEnd(kv: seq<Sample>, rank: int -> int, p: nat, share: nat, i: nat) {
    && p + 2 <= i < |kv| && rank(kv[i - 1].key) != rank(kv[i].key)
    && |RanksOf(kv[p..i + 1], rank)| > share
  }

  /** It may end nowhere before sample `i`. */
  ghost predicate OpenTo(kv: seq<Sample>, rank: int -> int, p: nat, share: nat, i: int) {
    forall x: nat :: x < i ==> !MayEnd(kv, rank, p, share, x)
  }

  /** Intervals before the `j`-th end as soon as they may. */
  ghost predicate EndEarly(kv: seq<Sample>, rank: int -> int, ps: seq<Prefix>, j: nat, d: nat, r: nat)
    requires j <= |ps|
  {
    forall t :: 1 <= t < j ==> EndsEarly(kv, rank, ps[t - 1].m, Share(t, d, r), ps[t].m)
  }

  ghost predicate EndsEarly(kv: seq<Sample>, rank: int -> int, p: nat, share: nat, i: nat) {
    MayEnd(kv, rank, p, share, i) && OpenTo(kv, rank, p, share, i)
  }

  /** Distinct keys that each interval is owed, and how many intervals are owed one more. */
  function Quota(m: nat, count: nat): nat
    requires count >= 1
  {
    if m <= count then 1 else m / count
  }

  function Surplus(m: nat, count: nat): nat
    requires count >= 1
  {
    if m <= count then 0 else m % count
  }

  /** All intervals but the last end as soon as they may, and the last may end nowhere, or only before the very last
      sample, which is not an interval of its own. */
  ghost predicate Grouped(kv: seq<Sample>, rank: int -> int, ps: seq<Prefix>, count: nat)
    requires |ps| >= 2 && count >= 1
  {
    var m, n := 1 + KeyChanges(kv, |kv|), |ps| - 1;
    && EndEarly(kv, rank, ps, n, Quota(m, count), Surplus(m, count))
    && OpenTo(kv, rank, ps[n - 1].m, Share(n, Quota(m, count), Surplus(m, count)), |kv| - 1)
  }

  /** Grouping leaves no choice. */
  lemma GroupedIsUnique(kv: seq<Sample>, rank: int -> int, ps: seq<Prefix>, qs: seq<Prefix>, count: nat)
    requires count >= 1 && IntervalsOf(kv, rank, ps) && IntervalsOf(kv, rank, qs)
    requires Grouped(kv, rank, ps, count) && Grouped(kv, rank, qs, count)
    ensures |ps| == |qs| && forall t :: 0 <= t < |ps| ==> ps[t].m == qs[t].m
  {
    hide PrefixExact, Vals, MayEnd, Quota, Surplus, Share, KeyChanges;
    if |ps| <= |qs| {
      SameEnds(kv, rank, ps, qs, count, |ps| - 2);
      NotLonger(kv, rank, ps, qs, count);
    } else {
      SameEnds(kv, rank, qs, ps, count, |qs| - 2);
      NotLonger(kv, rank, qs, ps, count);
    }
  }

  lemma {:induction false} SameEnds(kv: seq<Sample>, rank: int -> int, ps: seq<Prefix>, qs: seq<Prefix>, count: nat,
                                    j: nat)
    requires count >= 1 && IntervalsOf(kv, rank, ps) && IntervalsOf(kv, rank, qs) && j < |ps| - 1 && j < |qs| - 1
    requires Grouped(kv, rank, ps, count) && Grouped(kv, rank, qs, count)
    ensures forall t :: 0 <= t <= j ==> ps[t].m == qs[t].m
  {
    hide PrefixExact, Vals, MayEnd, ClosedUpTo, KeyChanges, Quota, Surplus;
    if j > 0 {
      SameEnds(kv, rank, ps, qs, count, j - 1);
      var m := 1 + KeyChanges(kv, |kv|);
      var share := Share(j, Quota(m, count), Surplus(m, count));
      assert EndsEarly(kv, rank, ps[j - 1].m, share, ps[j].m) && EndsEarly(kv, rank, qs[j - 1].m, share, qs[j].m);
    }
  }

  lemma NotLonger(kv: seq<Sample>, rank: int -> int, ps: seq<Prefix>, qs: seq<Prefix>, count: nat)
    requires count >= 1 && IntervalsOf(kv, rank, ps) && IntervalsOf(kv, rank, qs) && |ps| <= |qs|
    requires Grouped(kv, rank, ps, count) && Grouped(kv, rank, qs, count) && ps[|ps| - 2].m == qs[|ps| - 2].m
    ensures |ps| == |qs|
  {
    hide PrefixExact, Vals, MayEnd, KeyChanges, Quota, Surplus;
    if |ps| < |qs| { RoomAfter(kv, rank, qs, |ps| - 1); }
  }

  lemma RoomAfter(kv: seq<Sample>, rank: int -> int, ps: seq<Prefix>, t: nat)
    requires IntervalsOf(kv, rank, ps) && t < |ps| - 1
    ensures ps[t].m + 2 <= |kv|
  {
    hide PrefixExact, Vals;
    if t < |ps| - 2 { assert Closed(kv, rank, ps[t], ps[t + 1]); }
  }

  /** One more sample brings a new key exactly when the key changes. */
  lemma NextRank(kv: seq<Sample>, rank: int -> int, p: nat, i: nat)
    requires Sorted(kv, rank) && p < i < |kv|
    ensures |RanksOf(kv[p..i + 1], rank)|
            == |RanksOf(kv[p..i], rank)| + if rank(kv[i - 1].key) != rank(kv[i].key) then 1 else 0
  {
    RanksNext(kv, rank, p, i);
    RankSeenIff(kv, rank, p, i);
    hide RanksOf;
    var before, x := RanksOf(kv[p..i], rank), rank(kv[i].key);
    assert x in before ==> before + {x} == before;
  }

  lemma RanksNext(kv: seq<Sample>, rank: int -> int, p: nat, i: nat)
    requires p < i < |kv|
    ensures RanksOf(kv[p..i + 1], rank) == RanksOf(kv[p..i], rank) + {rank(kv[i].key)}
  {
    assert kv[p..i + 1] == kv[p..i] + [kv[i]];
  }

  lemma RankSeenIff(kv: seq<Sample>, rank: int -> int, p: nat, i: nat)
    requires Sorted(kv, rank) && p < i < |kv|
    ensures rank(kv[i].key) in RanksOf(kv[p..i], rank) <==> rank(kv[i - 1].key) == rank(kv[i].key)
  {
    assert kv[p..i][i - 1 - p] == kv[i - 1] && rank(kv[i - 1].key) in RanksOf(kv[p..i], rank);
    if rank(kv[i].key) in RanksOf(kv[p..i], rank) {
      var y :| 0 <= y < i - p && rank(kv[p..i][y].key) == rank(kv[i].key);
      assert kv[p..i][y] == kv[p + y];
    }
  }

  lemma OneRank(kv: seq<Sample>, rank: int -> int, i: nat)
    requires i < |kv|
    ensures |RanksOf(kv[i..i + 1], rank)| == 1
  {
    assert kv[i..i + 1] == [kv[i]];
    assert RanksOf([kv[i]], rank) == {rank(kv[i].key)};
  }

  /** Whether an interval that is open up to sample `i` ends there is decided by its number of samples and keys. */
  lemma MayEndIff(kv: seq<Sample>, rank: int -> int, p: nat, share: nat, i: nat)
    requires p < i < |kv| && OpenTo(kv, rank, p, share, i)
    ensures if i - p > 1 && rank(kv[i - 1].key) != rank(kv[i].key) && |RanksOf(kv[p..i + 1], rank)| > share
            then EndsEarly(kv, rank, p, share, i) else OpenTo(kv, rank, p, share, i + 1)
  {
    hide RanksOf;
  }

  lemma NewlyOpen(kv: seq<Sample>, rank: int -> int, p: nat, share: nat)
    ensures OpenTo(kv, rank, p, share, p + 1)
  {
  }

  lemma SameEarly(kv: seq<Sample>, rank: int -> int, ps: seq<Prefix>, qs: seq<Prefix>, j: nat, d: nat, r: nat)
    requires j <= |ps| && j <= |qs| && ps[..j] == qs[..j] && EndEarly(kv, rank, ps, j, d, r)
    ensures EndEarly(kv, rank, qs, j, d, r)
  {
    hide EndsEarly;
    forall t | 1 <= t < j ensures EndsEarly(kv, rank, qs[t - 1].m, Share(t, d, r), qs[t].m) {
      assert ps[..j][t - 1] == qs[t - 1] && ps[..j][t] == qs[t];
    }
  }

  lemma OneMoreEarly(kv: seq<Sample>, rank: int -> int, ps: seq<Prefix>, qs: seq<Prefix>, j: nat, d: nat, r: nat)
    requires 1 <= j < |ps| && j < |qs| && ps[..j] == qs[..j] && EndEarly(kv, rank, ps, j, d, r)
    requires EndsEarly(kv, rank, ps[j - 1].m, Share(j, d, r), qs[j].m)
    ensures EndEarly(kv, rank, qs, j + 1, d, r)
  {
    hide EndsEarly, Share;
    SameEarly(kv, rank, ps, qs, j, d, r);
    assert ps[..j][j - 1] == qs[j - 1];
  }

  // ----- the algorithm

  function DistinctKeys(kv: seq<Sample>): set<int> {
    set x | x in kv :: x.key
  }

  /** Equal keys come one after the other. */
  predicate EqualKeysAdjacent(kv: seq<Sample>) {
    forall i, j :: 0 <= i < j < |kv| && kv[i].key == kv[j].key ==> kv[j - 1].key == kv[j].key
  }

  /** So they do in a sorted sample if the comparator tells all its keys apart. */
  lemma SortedKeysAdjacent(kv: seq<Sample>, rank: int -> int)
    requires Sorted(kv, rank) && forall x, y :: x in kv && y in kv && rank(x.key) == rank(y.key) ==> x.key == y.key
    ensures EqualKeysAdjacent(kv)
  {
    forall i, j | 0 <= i < j < |kv| && kv[i].key == kv[j].key ensures kv[j - 1].key == kv[j].key {
      assert i == j - 1 || rank(kv[i].key) <= rank(kv[j - 1].key) <= rank(kv[j].key);
      assert kv[j - 1] in kv && kv[j] in kv;
    }
  }

  lemma KeysOfPrefix(kv: seq<Sample>, n: nat)
    requires 1 <= n <= |kv|
    ensures DistinctKeys(kv[..n]) == DistinctKeys(kv[..n - 1]) + {kv[n - 1].key}
  {
    assert kv[..n] == kv[..n - 1] + [kv[n - 1]];
  }

  lemma KeySeenIff(kv: seq<Sample>, n: nat)
    requires EqualKeysAdjacent(kv) && 2 <= n <= |kv|
    ensures kv[n - 1].key in DistinctKeys(kv[..n - 1]) <==> kv[n - 2].key == kv[n - 1].key
  {
    assert kv[n - 2] in kv[..n - 1];
    if kv[n - 1].key in DistinctKeys(kv[..n - 1]) {
      var i :| 0 <= i < n - 1 && kv[..n - 1][i].key == kv[n - 1].key;
      assert kv[i].key == kv[n - 1].key;
    }
  }

  lemma {:induction false} ChangesCountKeys(kv: seq<Sample>, n: nat)
    requires EqualKeysAdjacent(kv) && 1 <= n <= |kv|
    ensures |DistinctKeys(kv[..n])| == 1 + KeyChanges(kv, n)
  {
    hide EqualKeysAdjacent;
    KeysOfPrefix(kv, n);
    if n == 1 {
      assert DistinctKeys(kv[..0]) == {};
    } else {
      hide DistinctKeys;
      ChangesCountKeys(kv, n - 1);
      KeySeenIff(kv, n);
      var before, k := DistinctKeys(kv[..n - 1]), kv[n - 1].key;
      assert k in before ==> before + {k} == before;
    }
  }

  /** Counts the keys of a sample in which equal keys come one after the other. */
  method CountDistinct(kv: seq<Sample>) returns (m: nat)
    requires kv != []
    ensures m == 1 + KeyChanges(kv, |kv|)
    ensures EqualKeysAdjacent(kv) ==> m == |DistinctKeys(kv)|
  {
    m := 1;
    for i := 1 to |kv|
      invariant m == 1 + KeyChanges(kv, i)
    {
      if kv[i - 1].key != kv[i].key { m := m + 1; }
    }
    if EqualKeysAdjacent(kv) {
      ChangesCountKeys(kv, |kv|);
      assert kv[..|kv|] == kv;
    }
  }

  /** The first `i` samples are grouped: intervals before `j` are closed, `j` is open. */
  ghost predicate Building(kv: seq<Sample>, rank: int -> int, ps: seq<Prefix>, i: nat, j: nat) {
    && 1 <= j < |ps| && i <= |kv|
    && ps[0].m == 0 && ps[j - 1].m <= i
    && ClosedUpTo(kv, rank, ps, j)
    && PrefixExact(Vals(kv)[..i], ps[j].mu, ps[j].variance)
  }

  /** Closes interval `j` before sample `i` and opens the next, which inherits the statistics of the prefix. */
  method OpenInterval(kv: seq<Sample>, rank: int -> int, ps: array<Prefix>, i: nat, j: nat)
    requires Building(kv, rank, ps[..], i, j) && i < |kv| && j + 1 < ps.Length
    requires rank(kv[i - 1].key) < rank(kv[i].key) && ps[j - 1].m + 2 <= i
    modifies ps
    ensures Building(kv, rank, ps[..], i, j + 1) && ps[j].m == i && ps[..j] == old(ps[..j])
  {
    hide PrefixExact, Vals, ClosedUpTo;
    ghost var before := ps[..];
    ps[j] := ps[j].(key := kv[i].key, m := i);
    CloseOne(kv, rank, before, ps[..], j);
    ghost var after := ps[..];
    ps[j + 1] := ps[j];
    SameClosed(kv, rank, after, ps[..], j + 1);
  }

  /** Accumulates sample `i` into the open interval, whose bound is the largest key for now. */
  method AddSample(kv: seq<Sample>, rank: int -> int, ps: array<Prefix>, i: nat, j: nat)
    requires Building(kv, rank, ps[..], i, j) && i < |kv|
    modifies ps
    ensures Building(kv, rank, ps[..], i + 1, j) && ps[..j] == old(ps[..j]) && ps[j].key == kv[|kv| - 1].key
  {
    hide PrefixExact, Vals, ClosedUpTo, ExtendMean, ExtendVar;
    var x := kv[i].value;
    ExtendPrefix(kv, i, ps[j].mu, ps[j].variance);
    ghost var before := ps[..];
    ps[j] := Prefix(kv[|kv| - 1].key, ps[j].m, ExtendMean(i, ps[j].mu, x), ExtendVar(i, ps[j].mu, ps[j].variance, x));
    SameClosed(kv, rank, before, ps[..], j);
  }

  /** Ends the last interval; one that holds the very last sample only is merged back into its predecessor. */
  method Finish(kv: seq<Sample>, rank: int -> int, ps: array<Prefix>, last: nat) returns (nintvls: nat)
    requires |kv| >= 2 && Building(kv, rank, ps[..], |kv|, last) && ps[last - 1].m < |kv|
    requires ps[last].key == kv[|kv| - 1].key
    modifies ps
    ensures 1 <= nintvls <= last && IntervalsOf(kv, rank, ps[..nintvls + 1])
    ensures nintvls == if old(ps[last - 1].m) == |kv| - 1 then last - 1 else last
    ensures ps[..nintvls] == old(ps[..nintvls])
  {
    hide PrefixExact, Vals, ClosedUpTo;
    var n, j := |kv|, last;
    ghost var before := ps[..];
    ps[j] := ps[j].(m := n);
    SameClosed(kv, rank, before, ps[..], j);
    assert Vals(kv)[..n] == Vals(kv);
    if ps[j].m - ps[j - 1].m == 1 {
      before := ps[..];
      LastClosed(kv, rank, before, j);
      ps[j - 1] := ps[j];
      j := j - 1;
      SameClosed(kv, rank, before, ps[..], j);
    }
    nintvls := j;
    SameClosed(kv, rank, ps[..], ps[..j + 1], j);
  }

  /** `c` keys have been counted in interval `j` so far, which may not end before sample `i`, while those before it
      ended as soon as they might. */
  ghost predicate Counting(kv: seq<Sample>, rank: int -> int, ps: seq<Prefix>, i: nat, j: nat, c: nat, d: nat, r: nat) {
    && 1 <= j <= |ps| && ps[j - 1].m < i <= |kv|
    && OnPace(kv, rank, i, j, c, d, r) && c == |RanksOf(kv[ps[j - 1].m..i], rank)|
    && EndEarly(kv, rank, ps, j, d, r) && OpenTo(kv, rank, ps[j - 1].m, Share(j, d, r), i)
  }

  lemma SameCount(kv: seq<Sample>, rank: int -> int, ps: seq<Prefix>, qs: seq<Prefix>, i: nat, j: nat, c: nat, d: nat,
                  r: nat)
    requires Counting(kv, rank, ps, i, j, c, d, r) && |ps| == |qs| && ps[..j] == qs[..j]
    ensures Counting(kv, rank, qs, i, j, c, d, r)
  {
    hide OnPace, RanksOf, EndEarly, OpenTo, Share;
    SameEarly(kv, rank, ps, qs, j, d, r);
    assert ps[..j][j - 1] == qs[j - 1];
  }

  lemma CountingEnds(kv: seq<Sample>, rank: int -> int, ps: seq<Prefix>, i: nat, j: nat, c: nat, d: nat, r: nat)
    requires Counting(kv, rank, ps, i, j, c, d, r)
    ensures EndEarly(kv, rank, ps, j, d, r) && OpenTo(kv, rank, ps[j - 1].m, Share(j, d, r), i)
  {
  }

  /** Counts the key of sample `i`, and closes interval `j` before it if it may end there. */
  method CloseIfFull(kv: seq<Sample>, rank: int -> int, ps: array<Prefix>, i: nat, j: nat, c: nat, d: nat, r: nat,
                     count: nat)
    returns (j': nat, c': nat)
    requires Sorted(kv, rank) && 1 <= i < |kv| && 1 <= j <= count && ps.Length == count + 1
    requires Building(kv, rank, ps[..], i, j) && Counting(kv, rank, ps[..], i, j, c, d, r)
    requires Shares(count, d, r) >= 1 + KeyChanges(kv, |kv|)
    modifies ps
    ensures j <= j' <= count && Building(kv, rank, ps[..], i, j') && Counting(kv, rank, ps[..], i + 1, j', c', d, r)
    ensures ps[j' - 1].m <= i
  {
    hide PrefixExact, Vals, ClosedUpTo, KeyChanges, Building, Shares, Share, Sorted, RanksOf, OpenTo, OnPace;
    hide EndEarly, EndsEarly, MayEnd;
    PaceKept(kv, rank, i, j, c, d, r, count);
    NextRank(kv, rank, ps[j - 1].m, i);
    MayEndIff(kv, rank, ps[j - 1].m, Share(j, d, r), i);
    ghost var before := ps[..];
    j', c' := j, c;
    if rank(kv[i - 1].key) != rank(kv[i].key) {
      c' := c' + 1;
      if i - ps[j - 1].m > 1 && c' > Share(j, d, r) {
        InOrder(kv, rank, i);
        OpenInterval(kv, rank, ps, i, j);
        OneMoreEarly(kv, rank, before, ps[..], j, d, r);
        NewlyOpen(kv, rank, i, Share(j + 1, d, r));
        OneRank(kv, rank, i);
        j', c' := j + 1, 1;
      }
    }
  }

  /** Groups a sorted sample into at most `count` intervals. The number of intervals is zero for fewer than two
      samples, from which no variance can be derived. */
  method BuildIntervals(kv: seq<Sample>, rank: int -> int, count: nat, ps: array<Prefix>) returns (nintvls: nat)
    requires count >= 1 && ps.Length == count + 1
    requires Sorted(kv, rank)
    modifies ps
    ensures |kv| <= 1 ==> nintvls == 0
    ensures |kv| >= 2 ==> 1 <= nintvls <= count && IntervalsOf(kv, rank, ps[..nintvls + 1])
    ensures |kv| >= 2 ==> Grouped(kv, rank, ps[..nintvls + 1], count)
  {
    hide PrefixExact, Vals, ClosedUpTo, KeyChanges, Building, IntervalsOf, Shares, Share, Sorted, RanksOf, OpenTo;
    hide EndEarly, EndsEarly, MayEnd, Quota, Surplus, Counting, Grouped, OnPace;
    var n := |kv|;
    if n <= 1 {
      return 0;
    }
    var m := CountDistinct(kv);
    var d, r := DealShares(m, count);
    var c, j := 1, 1;
    ps[0] := Prefix(0, 0, 0.0, 0.0);
    ps[1] := ps[1].(mu := kv[0].value, variance := 0.0);
    StartBuilding(kv, rank, ps[..]);
    var i := 1;
    StartCounting(kv, rank, ps[..], d, r);
    while i < n
      invariant 1 <= i <= n && 1 <= j <= count && ps[j - 1].m < i
      invariant Building(kv, rank, ps[..], i, j) && Counting(kv, rank, ps[..], i, j, c, d, r)
      invariant i >= 2 ==> ps[j].key == kv[n - 1].key
    {
      j, c := CloseIfFull(kv, rank, ps, i, j, c, d, r, count);
      ghost var before := ps[..];
      AddSample(kv, rank, ps, i, j);
      SameCount(kv, rank, before, ps[..], i + 1, j, c, d, r);
      i := i + 1;
    }
    CountingEnds(kv, rank, ps[..], n, j, c, d, r);
    ghost var before := ps[..];
    nintvls := Finish(kv, rank, ps, j);
    GroupedAtLast(kv, rank, before, ps[..nintvls + 1], j, count);
  }

  lemma InOrder(kv: seq<Sample>, rank: int -> int, i: nat)
    requires Sorted(kv, rank) && 1 <= i < |kv|
    ensures rank(kv[i - 1].key) <= rank(kv[i].key)
  {
  }

  lemma GroupedAtLast(kv: seq<Sample>, rank: int -> int, ps: seq<Prefix>, qs: seq<Prefix>, j: nat, count: nat)
    requires count >= 1 && kv != [] && 1 <= j < |ps| && 2 <= |qs| <= |ps|
    requires |qs| - 1 == (if ps[j - 1].m == |kv| - 1 then j - 1 else j) && qs[..|qs| - 1] == ps[..|qs| - 1]
    requires var m := 1 + KeyChanges(kv, |kv|);
             && EndEarly(kv, rank, ps, j, Quota(m, count), Surplus(m, count))
             && OpenTo(kv, rank, ps[j - 1].m, Share(j, Quota(m, count), Surplus(m, count)), |kv|)
    ensures Grouped(kv, rank, qs, count)
  {
    hide MayEnd, Quota, Surplus, Share, KeyChanges;
    var m, n := 1 + KeyChanges(kv, |kv|), |qs| - 1;
    var d, r := Quota(m, count), Surplus(m, count);
    assert EndEarly(kv, rank, ps, n, d, r);
    SameEarly(kv, rank, ps, qs, n, d, r);
    assert qs[..n][n - 1] == ps[..n][n - 1];
    if n < j { assert EndsEarly(kv, rank, ps[j - 2].m, Share(j - 1, d, r), ps[j - 1].m); }
  }

  lemma StartCounting(kv: seq<Sample>, rank: int -> int, ps: seq<Prefix>, d: nat, r: nat)
    requires kv != [] && |ps| >= 2 && ps[0].m == 0
    ensures Counting(kv, rank, ps, 1, 1, 1, d, r)
  {
    NoShareYet(d, r);
    OneRank(kv, rank, 0);
  }

  lemma NoShareYet(d: nat, r: nat)
    ensures Shares(0, d, r) == 0
  {
  }

  lemma StartBuilding(kv: seq<Sample>, rank: int -> int, ps: seq<Prefix>)
    requires kv != [] && |ps| >= 2 && ps[0].m == 0 && ps[1].mu == kv[0].value && ps[1].variance == 0.0
    ensures Building(kv, rank, ps, 1, 1)
  {
    FirstPrefix(kv);
  }

  /** The entry being filled does not matter to those closed before it. */
  lemma SameClosed(kv: seq<Sample>, rank: int -> int, ps: seq<Prefix>, qs: seq<Prefix>, j: nat)
    requires j <= |ps| && j <= |qs| && ps[..j] == qs[..j]
    requires exists k :: j <= k <= |ps| && ClosedUpTo(kv, rank, ps, k)
    ensures ClosedUpTo(kv, rank, qs, j)
  {
    forall t | 1 <= t < j ensures Closed(kv, rank, qs[t - 1], qs[t]) {
      assert ps[..j][t - 1] == qs[t - 1] && ps[..j][t] == qs[t];
    }
  }

  lemma CloseOne(kv: seq<Sample>, rank: int -> int, ps: seq<Prefix>, qs: seq<Prefix>, j: nat)
    requires 1 <= j < |ps| && j < |qs| && ps[..j] == qs[..j]
    requires ClosedUpTo(kv, rank, ps, j) && Closed(kv, rank, qs[j - 1], qs[j])
    ensures ClosedUpTo(kv, rank, qs, j + 1)
  {
    SameClosed(kv, rank, ps, qs, j);
  }

  lemma LastClosed(kv: seq<Sample>, rank: int -> int, ps: seq<Prefix>, j: nat)
    requires 2 <= j <= |ps| && ClosedUpTo(kv, rank, ps, j)
    ensures Closed(kv, rank, ps[j - 2], ps[j - 1])
  {
  }

  lemma FirstPrefix(kv: seq<Sample>)
    requires kv != []
    ensures PrefixExact(Vals(kv)[..1], kv[0].value, 0.0)
  {
    assert Vals(kv)[..1] == [kv[0].value];
    MeanOfOne(kv[0].value);
  }

  lemma ExtendPrefix(kv: seq<Sample>, i: nat, mu: real, v: real)
    requires i < |kv| && PrefixExact(Vals(kv)[..i], mu, v)
    ensures PrefixExact(Vals(kv)[..i + 1], ExtendMean(i, mu, kv[i].value), ExtendVar(i, mu, v, kv[i].value))
  {
    hide PrefixExact, ExtendMean, ExtendVar;
    assert Vals(kv)[..i + 1] == Vals(kv)[..i] + [kv[i].value];
    ExtendExact(Vals(kv)[..i], mu, v, kv[i].value);
  }
}
