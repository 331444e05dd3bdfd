/** The dynamic program that cuts the initial intervals into strata. It keeps one row of costs, overwritten in place
    from the right, and a table of back-pointers with one row for each number of strata. */
module StrataDP {

  /** The weight of one stratum made of the intervals from boundary `j` to boundary `i`. */
  type Weight = (nat, nat) -> real

  // ----- reference: all ways to cut n intervals into k strata

  predicate IsSplit(s: seq<nat>, k: nat, n: nat) {
    && |s| == k + 1
    && s[0] == 0 && s[k] == n
    && forall t :: 0 <= t < k ==> s[t] < s[t + 1]
  }

  function SplitCost(w: Weight, s: seq<nat>): real {
    if |s| < 2 then 0.0 else SplitCost(w, s[..|s| - 1]) + w(s[|s| - 2], s[|s| - 1])
  }

  /** The least cost of cutting the first `i` intervals into `k` strata, by the last boundary but one. */
  function Opt(w: Weight, k: nat, i: nat): real
    requires 1 <= k <= i
    decreases k, 1, 0
  {
    if k == 1 then w(0, i) else LeastBelow(w, k, i, i)
  }

  function LeastBelow(w: Weight, k: nat, i: nat, hi: nat): real
    requires 2 <= k <= hi <= i
    decreases k, 0, hi
  {
    var c := Opt(w, k - 1, hi - 1) + w(hi - 1, i);
    if hi == k then c
    else
      var b := LeastBelow(w, k, i, hi - 1);
      if c < b then c else b
  }

  lemma {:induction false} LeastBelowIsLeast(w: Weight, k: nat, i: nat, hi: nat, j: nat)
    requires 2 <= k <= hi <= i && k - 1 <= j < hi
    ensures LeastBelow(w, k, i, hi) <= Opt(w, k - 1, j) + w(j, i)
    decreases hi
  {
    if j < hi - 1 { LeastBelowIsLeast(w, k, i, hi - 1, j); }
  }

  lemma {:induction false} SplitLength(s: seq<nat>, k: nat, n: nat)
    requires IsSplit(s, k, n)
    ensures k <= n
  {
    if k > 0 { SplitLength(s[..k], k - 1, s[k - 1]); }
  }

  lemma {:induction false} LeastBelowAttained(w: Weight, k: nat, i: nat, hi: nat) returns (j: nat)
    requires 2 <= k <= hi <= i
    ensures k - 1 <= j < hi && LeastBelow(w, k, i, hi) == Opt(w, k - 1, j) + w(j, i)
    decreases hi
  {
    j := hi - 1;
    if hi > k && LeastBelow(w, k, i, hi) != Opt(w, k - 1, j) + w(j, i) { j := LeastBelowAttained(w, k, i, hi - 1); }
  }

  /** Some split into `k` strata costs exactly Opt. */
  lemma {:induction false} OptAttained(w: Weight, k: nat, n: nat) returns (s: seq<nat>)
    requires 1 <= k <= n
    ensures IsSplit(s, k, n) && SplitCost(w, s) == Opt(w, k, n)
    decreases k
  {
    if k == 1 {
      s := [0, n];
      assert s[..1] == [0];
    } else {
      var j := LeastBelowAttained(w, k, n, n);
      var p := OptAttained(w, k - 1, j);
      s := p + [n];
      assert s[..k] == p;
    }
  }

  /** No split into `k` strata costs less than Opt. */
  lemma {:induction false} OptIsLowerBound(w: Weight, s: seq<nat>, k: nat, n: nat)
    requires k >= 1 && IsSplit(s, k, n)
    ensures k <= n && Opt(w, k, n) <= SplitCost(w, s)
    decreases k
  {
    SplitLength(s, k, n);
    if k == 1 {
      assert s[..1] == [s[0]];
    } else {
      var j := s[k - 1];
      OptIsLowerBound(w, s[..k], k - 1, j);
      LeastBelowIsLeast(w, k, n, n, j);
    }
  }

  // ----- the table of back-pointers

  /** Where the back-pointer for `k` strata ending at boundary `i` is kept. */
  function Cell(n: nat, k: nat, i: nat): int {
    (k - 2) * n + i - 1
  }

  lemma CellInTable(n: nat, k: nat, i: nat)
    requires 2 <= k <= n && 1 <= i <= n
    ensures 0 <= Cell(n, k, i) < (n - 1) * n
  {
    assert 0 <= (k - 2) * n <= (n - 2) * n;
  }

  lemma CellsDiffer(n: nat, k: nat, i: nat, k': nat, i': nat)
    requires 2 <= k && 2 <= k' && 1 <= i <= n && 1 <= i' <= n
    requires (k, i) != (k', i')
    ensures Cell(n, k, i) != Cell(n, k', i')
  {
    if k < k' {
      assert (k' - 2) * n >= (k - 1) * n == (k - 2) * n + n;
    } else if k' < k {
      assert (k - 2) * n >= (k' - 1) * n == (k' - 2) * n + n;
    }
  }

  /** The cell for (k, i) names a last boundary but one of an optimal split. */
  ghost predicate PointsBack(w: Weight, prev: seq<int>, n: nat, k: nat, i: nat)
    requires 2 <= k <= i <= n
  {
    && 0 <= Cell(n, k, i) < |prev|
    && var j := prev[Cell(n, k, i)];
       && k - 1 <= j < i
       && Opt(w, k, i) == Opt(w, k - 1, j) + w(j, i)
  }

  ghost predicate RowsDone(w: Weight, prev: seq<int>, n: nat, k: nat) {
    forall r, i :: 2 <= r <= k && r <= i <= n ==> PointsBack(w, prev, n, r, i)
  }

  // ----- one column of one row

  /** Finds the best last boundary but one for `k` strata ending at `i` from the costs of `k - 1` strata. */
  method RelaxColumn(w: Weight, cost: array<real>, prev: array<int>, n: nat, k: nat, i: nat) returns (best: real)
    requires 2 <= k <= i <= n <= cost.Length && prev.Length >= (n - 1) * n
    requires forall x :: k - 2 <= x < i - 1 ==> cost[x] == Opt(w, k - 1, x + 1)
    modifies prev
    ensures best == Opt(w, k, i)
    ensures PointsBack(w, prev[..], n, k, i)
    ensures forall c :: 0 <= c < prev.Length && c != Cell(n, k, i) ==> prev[c] == old(prev[c])
  {
    CellInTable(n, k, i);
    var cell := Cell(n, k, i);
    best := 0.0;
    var j := k - 1;
    while j < i
      invariant k - 1 <= j <= i
      invariant j >= k ==> best == LeastBelow(w, k, i, j)
      invariant j >= k ==> k - 1 <= prev[cell] < j && best == Opt(w, k - 1, prev[cell]) + w(prev[cell], i)
      invariant forall c :: 0 <= c < prev.Length && c != cell ==> prev[c] == old(prev[c])
    {
      var c := w(j, i) + cost[j - 1];
      if j == k - 1 || c < best {
        prev[cell] := j;
        best := c;
      }
      j := j + 1;
    }
  }

  // ----- the optimiser

  /** Total cost of `k` strata: squared scaled deviation plus a charge for each stratum. */
  function Total(scale: real, charge: real, k: nat, cost: real): real {
    var c := scale * cost;
    c * c + charge * k as real
  }

  /** `k` is where the search stops: every number of strata from 2 to `k` beats one stratum, the next does not. */
  ghost predicate FirstStop(w: Weight, n: nat, scale: real, charge: real, k: nat) {
    && 1 <= k <= n
    && (forall r :: 2 <= r <= k ==> Total(scale, charge, r, Opt(w, r, n)) < Total(scale, charge, 1, Opt(w, 1, n)))
    && (k < n ==> Total(scale, charge, k + 1, Opt(w, k + 1, n)) >= Total(scale, charge, 1, Opt(w, 1, n)))
  }

  /** Total cost of the cheapest split into `r` strata. */
  function TotalOf(w: Weight, n: nat, scale: real, charge: real, r: nat): real
    requires 1 <= r <= n
  {
    Total(scale, charge, r, Opt(w, r, n))
  }

  ghost predicate Descends(w: Weight, n: nat, scale: real, charge: real, k: nat)
    requires k <= n
  {
    forall r :: 2 <= r <= k ==> TotalOf(w, n, scale, charge, r) < TotalOf(w, n, scale, charge, r - 1)
  }

  /** Where a search would stop that compares with the best total so far: at the first that the next does not beat. */
  ghost predicate DescentStop(w: Weight, n: nat, scale: real, charge: real, k: nat) {
    && 1 <= k <= n && Descends(w, n, scale, charge, k)
    && (k < n ==> TotalOf(w, n, scale, charge, k + 1) >= TotalOf(w, n, scale, charge, k))
  }

  lemma {:induction false} DescentBelowOne(w: Weight, n: nat, scale: real, charge: real, k: nat, r: nat)
    requires k <= n && Descends(w, n, scale, charge, k) && 2 <= r <= k
    ensures TotalOf(w, n, scale, charge, r) < TotalOf(w, n, scale, charge, 1)
    decreases r
  {
    hide TotalOf;
    if r > 2 { DescentBelowOne(w, n, scale, charge, k, r - 1); }
  }

  lemma FirstStopUnique(w: Weight, n: nat, scale: real, charge: real, k: nat, other: nat)
    requires FirstStop(w, n, scale, charge, k) && FirstStop(w, n, scale, charge, other)
    ensures k == other
  {
    hide Opt, Total;
  }

  /** The search compares with one stratum throughout, so it stops no earlier than one that compares with the best so
      far, and at the same number of strata if and only if the total falls all the way. */
  lemma StopsLateIff(w: Weight, n: nat, scale: real, charge: real, k: nat, first: nat)
    requires FirstStop(w, n, scale, charge, k) && DescentStop(w, n, scale, charge, first)
    ensures first <= k && (first == k <==> Descends(w, n, scale, charge, k))
  {
    if k < first { DescentBelowOne(w, n, scale, charge, first, k + 1); }
    hide TotalOf, FirstStop, Descends;
    if first < k { DescendsAt(w, n, scale, charge, k, first + 1); }
  }

  lemma DescendsAt(w: Weight, n: nat, scale: real, charge: real, k: nat, r: nat)
    requires 2 <= r <= k <= n
    ensures Descends(w, n, scale, charge, k) ==> TotalOf(w, n, scale, charge, r) < TotalOf(w, n, scale, charge, r - 1)
  {
  }

  /** Fills the costs of the first `n - 1` columns for `k` strata, from the right, over those for `k - 1` strata. */
  method FillRow(w: Weight, cost: array<real>, prev: array<int>, n: nat, k: nat)
    requires 2 <= k <= n <= cost.Length && prev.Length >= (n - 1) * n
    requires cost[n - 1] == Opt(w, k, n)
    requires forall x :: k - 2 <= x < n - 1 ==> cost[x] == Opt(w, k - 1, x + 1)
    requires RowsDone(w, prev[..], n, k - 1) && PointsBack(w, prev[..], n, k, n)
    modifies cost, prev
    ensures forall x :: k - 1 <= x < n ==> cost[x] == Opt(w, k, x + 1)
    ensures RowsDone(w, prev[..], n, k)
  {
    var i := n - 1;
    while i >= k
      invariant k - 1 <= i <= n - 1
      invariant forall x :: i <= x < n ==> cost[x] == Opt(w, k, x + 1)
      invariant forall x :: k - 2 <= x < i ==> cost[x] == Opt(w, k - 1, x + 1)
      invariant RowsDone(w, prev[..], n, k - 1)
      invariant forall x :: i < x <= n ==> PointsBack(w, prev[..], n, k, x)
    {
      ghost var before := prev[..];
      var best := RelaxColumn(w, cost, prev, n, k, i);
      KeepsOthers(w, before, prev[..], n, k, i);
      cost[i - 1] := best;
      i := i - 1;
    }
  }

  /** Writing one cell leaves every other back-pointer as it was. */
  lemma KeepsOthers(w: Weight, before: seq<int>, after: seq<int>, n: nat, k: nat, i: nat)
    requires 2 <= k <= i <= n && |before| == |after|
    requires forall c :: 0 <= c < |before| && c != Cell(n, k, i) ==> after[c] == before[c]
    ensures RowsDone(w, before, n, k - 1) ==> RowsDone(w, after, n, k - 1)
    ensures forall x :: i < x <= n && PointsBack(w, before, n, k, x) ==> PointsBack(w, after, n, k, x)
  {
    forall r, x | 2 <= r <= x <= n && (r, x) != (k, i) && PointsBack(w, before, n, r, x)
      ensures PointsBack(w, after, n, r, x)
    {
      CellsDiffer(n, k, i, r, x);
    }
  }

  /** Picks the number of strata and leaves their cost and the back-pointers behind. */
  method Optimise(w: Weight, n: nat, scale: real, charge: real, cost: array<real>, prev: array<int>) returns (k: nat)
    requires 1 <= n <= cost.Length && prev.Length >= (n - 1) * n
    modifies cost, prev
    ensures FirstStop(w, n, scale, charge, k)
    ensures cost[n - 1] == Opt(w, k, n)
    ensures RowsDone(w, prev[..], n, k)
  {
    k := 1;
    for i := 0 to n
      invariant forall x :: 0 <= x < i ==> cost[x] == Opt(w, 1, x + 1)
    {
      cost[i] := w(0, i + 1);
    }
    var minCost := Total(scale, charge, 1, cost[n - 1]);
    while k < n
      invariant 1 <= k <= n
      invariant minCost == Total(scale, charge, 1, Opt(w, 1, n))
      invariant forall r :: 2 <= r <= k ==> Total(scale, charge, r, Opt(w, r, n)) < minCost
      invariant forall x :: k - 1 <= x < n ==> cost[x] == Opt(w, k, x + 1)
      invariant RowsDone(w, prev[..], n, k)
    {
      hide Opt, Total;
      ghost var before := prev[..];
      var sigma := RelaxColumn(w, cost, prev, n, k + 1, n);
      KeepsOthers(w, before, prev[..], n, k + 1, n);
      if Total(scale, charge, k + 1, sigma) >= minCost {
        break;
      }
      k := k + 1;
      cost[n - 1] := sigma;
      FillRow(w, cost, prev, n, k);
    }
  }
}
