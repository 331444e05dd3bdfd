/** Capping of a phase to the remaining budget: the phase size is cut down, or raised to the minimum for its strata,
    and dealt out to the strata in proportion to their fractions, right-most stratum first. */
module BudgetCap {
  import opened Reals
  import opened SampleSize
  import opened Allocation

  function Min(a: nat, b: nat): nat {
    if a <= b then a else b
  }

  /** The phase size after capping, before it is dealt out. */
  function CappedSize(k: nat, request: nat, remaining: nat): nat {
    var phase := Min(request, remaining);
    var least := MIN_STRATUM * k;
    if phase < least then Min(least, remaining) else phase
  }

  /** How many of the first `n` strata have a non-zero request. */
  function Active(requests: seq<nat>, n: nat): nat
    requires n <= |requests|
  {
    if n == 0 then 0 else Active(requests, n - 1) + if requests[n - 1] > 0 then 1 else 0
  }

  /** Sum of the fractions of the strata from `n` on that have a non-zero request. */
  function ActiveFraction(requests: seq<nat>, fractions: seq<real>, n: nat): real
    requires n <= |requests| <= |fractions|
    decreases |requests| - n
  {
    if n == |requests| then 0.0
    else ActiveFraction(requests, fractions, n + 1) + if requests[n] > 0 then fractions[n] else 0.0
  }

  /** Some stratum both has a non-zero request and a non-zero fraction. */
  ghost predicate HasActive(requests: seq<nat>, fractions: seq<real>)
    requires |requests| <= |fractions|
  {
    exists i :: 0 <= i < |requests| && requests[i] > 0 && fractions[i] > 0.0
  }

  lemma {:induction false} ActiveFractionFrom(requests: seq<nat>, fractions: seq<real>, n: nat, i: nat)
    requires n <= |requests| <= |fractions| && forall x :: 0 <= x < |requests| ==> fractions[x] >= 0.0
    ensures ActiveFraction(requests, fractions, n) >= 0.0
    ensures n <= i < |requests| && requests[i] > 0 ==> ActiveFraction(requests, fractions, n) >= fractions[i]
    decreases |requests| - n
  {
    if n < |requests| { ActiveFractionFrom(requests, fractions, n + 1, i); }
  }

  lemma SomeFractionActive(requests: seq<nat>, fractions: seq<real>)
    requires |requests| <= |fractions| && forall x :: 0 <= x < |requests| ==> fractions[x] >= 0.0
    requires HasActive(requests, fractions)
    ensures ActiveFraction(requests, fractions, 0) > 0.0
  {
    hide ActiveFraction;
    var i :| 0 <= i < |requests| && requests[i] > 0 && fractions[i] > 0.0;
    ActiveFractionFrom(requests, fractions, 0, i);
  }

  lemma {:induction false} ActiveAtMost(requests: seq<nat>, n: nat)
    requires n <= |requests|
    ensures Active(requests, n) <= n
  {
    if n > 0 { ActiveAtMost(requests, n - 1); }
  }

  /** What one stratum gets of a phase of `target` draws of which `left` are left: its rounded-up share; if minimums
      are enforced, at least the minimum and at most what leaves the minimum for each of the `below` strata after it. */
  function Share(target: nat, fraction: real, left: nat, enforce: bool, below: nat): nat
    requires fraction >= 0.0
  {
    assert Mul(target as real, fraction) >= 0.0;
    var want := Ceil(target as real * fraction);
    var raised := if enforce && want < MIN_STRATUM then MIN_STRATUM else want;
    var most := left - MIN_STRATUM * below;
    var lowered := if enforce && most > 0 && raised > most then most else raised;
    Min(lowered, left)
  }

  /** What has been dealt out so far is in proportion, or exactly the minimums are left for the strata to come. */
  ghost predicate OnTrack(target: nat, dealt: nat, fraction: real, enforce: bool, below: nat) {
    && dealt <= target
    && (enforce ==> target - dealt >= MIN_STRATUM * below)
    && (dealt as real >= target as real * fraction || target - dealt == if enforce then MIN_STRATUM * below else 0)
  }

  lemma ShareOnTrack(target: nat, dealt: nat, done: real, fraction: real, enforce: bool, below: nat)
    requires fraction >= 0.0 && OnTrack(target, dealt, done, enforce, below + 1)
    ensures var x := Share(target, fraction, target - dealt, enforce, below);
            && OnTrack(target, dealt + x, done + fraction, enforce, below)
            && (enforce ==> x >= MIN_STRATUM)
  {
    var want := target as real * fraction;
    assert target as real * (done + fraction) == target as real * done + want;
  }

  /** A share of `fraction` after which `dealt` draws are dealt out: not above proportion but for rounding and the
      minimum, and not below unless exactly the minimums of the `below` strata to come are left. */
  ghost predicate FairShare(target: nat, fraction: real, enforce: bool, below: nat, share: nat, dealt: nat) {
    && (share as real < target as real * fraction + 1.0 || (enforce && share == MIN_STRATUM))
    && (share as real >= target as real * fraction || target - dealt == if enforce then MIN_STRATUM * below else 0)
    && (enforce ==> share >= MIN_STRATUM)
  }

  lemma ShareIsFair(target: nat, dealt: nat, done: real, fraction: real, enforce: bool, below: nat)
    requires fraction >= 0.0 && OnTrack(target, dealt, done, enforce, below + 1)
    ensures var x := Share(target, fraction, target - dealt, enforce, below);
            FairShare(target, fraction, enforce, below, x, dealt + x)
  {
    assert Mul(target as real, fraction) >= 0.0;
  }

  /** A stratum without a request gets nothing, nor does any once all is dealt out. */
  lemma SkipOnTrack(target: nat, dealt: nat, done: real, fraction: real, enforce: bool, below: nat, active: bool)
    requires fraction >= 0.0 && OnTrack(target, dealt, done, enforce, below + if active then 1 else 0)
    requires dealt == target || !active
    ensures OnTrack(target, dealt, done + if active then fraction else 0.0, enforce, below)
  {
    assert target as real * (done + fraction) == target as real * done + target as real * fraction;
  }

  /** What stratum `idx` gets when `dealt` draws went to the strata after it. */
  function ShareAt(target: nat, dealt: nat, enforce: bool, requests: seq<nat>, fractions: seq<real>, idx: nat): nat
    requires idx < |requests| <= |fractions| && fractions[idx] >= 0.0
  {
    if dealt >= target || requests[idx] == 0 then 0
    else Share(target, fractions[idx], target - dealt, enforce, Active(requests, idx))
  }

  /** What the strata from `idx` on get, right-most stratum first. */
  function DealFrom(target: nat, enforce: bool, requests: seq<nat>, fractions: seq<real>, idx: nat): (ns: seq<nat>)
    requires idx <= |requests| <= |fractions| && forall i :: 0 <= i < |requests| ==> fractions[i] >= 0.0
    ensures |ns| == |requests| - idx
    decreases |requests| - idx
  {
    if idx == |requests| then []
    else
      var after := DealFrom(target, enforce, requests, fractions, idx + 1);
      [ShareAt(target, SumN(after), enforce, requests, fractions, idx)] + after
  }

  /** What the strata get of a phase of `request` draws with `remaining` draws left in the budget. */
  function Dealt(request: nat, remaining: nat, requests: seq<nat>, fractions: seq<real>): (ns: seq<nat>)
    requires |requests| == |fractions| && forall i :: 0 <= i < |requests| ==> fractions[i] >= 0.0
    ensures |ns| == |requests|
  {
    var size := CappedSize(|requests|, request, remaining);
    if |requests| == 1 then [size] else DealFrom(size, size >= MIN_STRATUM * |requests|, requests, fractions, 0)
  }

  lemma {:induction false} DealOnTrack(target: nat, requests: seq<nat>, fractions: seq<real>, idx: nat)
    requires idx <= |requests| <= |fractions| && forall i :: 0 <= i < |requests| ==> fractions[i] >= 0.0
    ensures var enforce := target >= MIN_STRATUM * |requests|;
            OnTrack(target, SumN(DealFrom(target, enforce, requests, fractions, idx)),
                    ActiveFraction(requests, fractions, idx), enforce, Active(requests, idx))
    decreases |requests| - idx
  {
    hide OnTrack, SumN, Share, Active, ActiveFraction, ShareAt;
    var enforce := target >= MIN_STRATUM * |requests|;
    if idx == |requests| {
      DealStart(target, requests, fractions, enforce);
      assert requests[|requests|..] == [];
    } else {
      DealOnTrack(target, requests, fractions, idx + 1);
      DealStep(target, enforce, requests, fractions, idx);
    }
  }

  lemma DealStep(target: nat, enforce: bool, requests: seq<nat>, fractions: seq<real>, idx: nat)
    requires idx < |requests| <= |fractions| && forall i :: 0 <= i < |requests| ==> fractions[i] >= 0.0
    requires OnTrack(target, SumN(DealFrom(target, enforce, requests, fractions, idx + 1)),
                     ActiveFraction(requests, fractions, idx + 1), enforce, Active(requests, idx + 1))
    ensures OnTrack(target, SumN(DealFrom(target, enforce, requests, fractions, idx)),
                    ActiveFraction(requests, fractions, idx), enforce, Active(requests, idx))
    ensures var ns := DealFrom(target, enforce, requests, fractions, idx);
            requests[idx] > 0 ==>
              FairShare(target, fractions[idx], enforce, Active(requests, idx), ns[0], SumN(ns))
  {
    hide OnTrack, SumN, Share, FairShare;
    var after := DealFrom(target, enforce, requests, fractions, idx + 1);
    var dealt, done := SumN(after), ActiveFraction(requests, fractions, idx + 1);
    SumNCons(ShareAt(target, dealt, enforce, requests, fractions, idx), after);
    OnTrackBounds(target, dealt, done, enforce, Active(requests, idx + 1));
    if dealt < target && requests[idx] > 0 {
      ShareOnTrack(target, dealt, done, fractions[idx], enforce, Active(requests, idx));
      ShareIsFair(target, dealt, done, fractions[idx], enforce, Active(requests, idx));
    } else {
      SkipOnTrack(target, dealt, done, fractions[idx], enforce, Active(requests, idx), requests[idx] > 0);
      if requests[idx] > 0 { NothingIsFair(target, fractions[idx], Active(requests, idx)); }
    }
  }

  lemma NothingIsFair(target: nat, fraction: real, below: nat)
    requires fraction >= 0.0
    ensures FairShare(target, fraction, false, below, 0, target)
  {
    assert Mul(target as real, fraction) >= 0.0;
  }

  /** Every stratum with a request gets a fair share. */
  lemma DealtFairly(target: nat, requests: seq<nat>, fractions: seq<real>, i: nat)
    requires i < |requests| <= |fractions| && forall i :: 0 <= i < |requests| ==> fractions[i] >= 0.0
    ensures var enforce := target >= MIN_STRATUM * |requests|;
            var ns := DealFrom(target, enforce, requests, fractions, 0);
            && (requests[i] == 0 ==> ns[i] == 0)
            && (requests[i] > 0 ==>
                  FairShare(target, fractions[i], enforce, Active(requests, i), ns[i], SumN(ns[i..])))
  {
    hide OnTrack, SumN, Share, Active, ActiveFraction, FairShare;
    var enforce := target >= MIN_STRATUM * |requests|;
    DealOnTrack(target, requests, fractions, i + 1);
    DealStep(target, enforce, requests, fractions, i);
    DealtSuffix(target, enforce, requests, fractions, i);
  }

  lemma {:induction false} DealtSuffix(target: nat, enforce: bool, requests: seq<nat>, fractions: seq<real>, i: nat)
    requires i < |requests| <= |fractions| && forall i :: 0 <= i < |requests| ==> fractions[i] >= 0.0
    ensures DealFrom(target, enforce, requests, fractions, 0)[i..] == DealFrom(target, enforce, requests, fractions, i)
  {
    hide ShareAt, SumN;
    if i > 0 {
      DealtSuffix(target, enforce, requests, fractions, i - 1);
      assert DealFrom(target, enforce, requests, fractions, 0)[i..]
          == DealFrom(target, enforce, requests, fractions, 0)[i - 1..][1..];
    }
  }

  method CountActive(sizes: array<nat>, n: nat) returns (c: nat)
    requires n <= sizes.Length
    ensures c == Active(sizes[..n], n)
  {
    c := 0;
    for j := 0 to n
      invariant c == Active(sizes[..j], j)
    {
      ActiveOfPrefix(sizes[..j], sizes[..j + 1], j);
      if sizes[j] > 0 { c := c + 1; }
    }
  }

  lemma {:induction false} ActiveOfPrefix(requests: seq<nat>, others: seq<nat>, n: nat)
    requires n <= |requests| && n <= |others| && forall i :: 0 <= i < n ==> requests[i] == others[i]
    ensures Active(requests, n) == Active(others, n)
  {
    if n > 0 { ActiveOfPrefix(requests, others, n - 1); }
  }

  /** What stratum `idx` gets when `dealt` draws went to the strata after it. */
  method ShareOf(idx: nat, target: nat, dealt: nat, enforce: bool, sizes: array<nat>, fractions: array<real>,
                 ghost orig: seq<nat>, ghost fs: seq<real>)
    returns (share: nat)
    requires idx < |orig| == |fs| && |orig| <= sizes.Length && |orig| <= fractions.Length && dealt <= target
    requires forall x :: 0 <= x <= idx ==> sizes[x] == orig[x]
    requires fractions[idx] == fs[idx] >= 0.0
    ensures share == ShareAt(target, dealt, enforce, orig, fs, idx)
  {
    hide Share;
    var left := target - dealt;
    share := 0;
    if left != 0 && sizes[idx] != 0 {
      var below := CountActive(sizes, idx);
      ActiveOfPrefix(sizes[..idx], orig, idx);
      share := Share(target, fractions[idx], left, enforce, below);
    }
  }

  /** Deals `target` draws out over the first `k` strata in place. */
  method DealOut(k: nat, target: nat, sizes: array<nat>, fractions: array<real>) returns (dealt: nat)
    requires k <= sizes.Length && k <= fractions.Length && forall i :: 0 <= i < k ==> fractions[i] >= 0.0
    modifies sizes
    ensures dealt == SumN(sizes[..k]) <= target
    ensures sizes[..k] == DealFrom(target, target >= MIN_STRATUM * k, old(sizes[..k]), fractions[..k], 0)
    ensures forall i :: 0 <= i < k && old(sizes[i]) == 0 ==> sizes[i] == 0
    ensures forall i :: 0 <= i < k && old(sizes[i]) > 0 ==>
              FairShare(target, fractions[i], target >= MIN_STRATUM * k, Active(old(sizes[..k]), i), sizes[i],
                        SumN(sizes[i..k]))
    ensures ActiveFraction(old(sizes[..k]), fractions[..k], 0) >= 1.0 ==> dealt == target
    ensures target > 0 && HasActive(old(sizes[..k]), fractions[..k]) ==>
              dealt > 0 && HasActive(sizes[..k], fractions[..k])
  {
    hide OnTrack, SumN, ActiveFraction, Active, HasActive, FairShare, DealFrom;
    ghost var orig, fs := sizes[..k], fractions[..k];
    ghost var enforce := target >= MIN_STRATUM * k;
    dealt := DealRightToLeft(k, target, sizes, fractions);
    DealOnTrack(target, orig, fs, 0);
    DealEnd(target, orig, dealt, ActiveFraction(orig, fs, 0), enforce);
    AllFair(target, orig, fs, sizes[..k]);
    assert forall x :: 0 <= x < k ==> sizes[..k][x..] == sizes[x..k];
    if target > 0 && HasActive(orig, fs) {
      SomeFractionActive(orig, fs);
      StaysActive(target, orig, sizes[..k], fs, enforce);
    }
  }

  method DealRightToLeft(k: nat, target: nat, sizes: array<nat>, fractions: array<real>) returns (dealt: nat)
    requires k <= sizes.Length && k <= fractions.Length && forall i :: 0 <= i < k ==> fractions[i] >= 0.0
    modifies sizes
    ensures dealt == SumN(sizes[..k]) <= target
    ensures sizes[..k] == DealFrom(target, target >= MIN_STRATUM * k, old(sizes[..k]), fractions[..k], 0)
  {
    hide SumN, ShareAt, DealFrom;
    var enforce := target >= MIN_STRATUM * k;
    ghost var orig, fs := sizes[..k], fractions[..k];
    dealt := 0;
    var i := k;
    DealNothing(target, enforce, orig, fs);
    assert sizes[k..k] == [];
    while i > 0
      invariant 0 <= i <= k
      invariant forall x :: 0 <= x < i ==> sizes[x] == orig[x]
      invariant dealt == SumN(sizes[i..k]) <= target && sizes[i..k] == DealFrom(target, enforce, orig, fs, i)
    {
      i := i - 1;
      var share := ShareOf(i, target, dealt, enforce, sizes, fractions, orig, fs);
      ghost var after := sizes[i + 1..k];
      sizes[i] := share;
      assert sizes[i..k] == [share] + after;
      DealNext(target, orig, fs, i);
      dealt := dealt + share;
    }
    assert sizes[0..k] == sizes[..k];
  }

  lemma DealNothing(target: nat, enforce: bool, requests: seq<nat>, fractions: seq<real>)
    requires |requests| == |fractions| && forall i :: 0 <= i < |requests| ==> fractions[i] >= 0.0
    ensures DealFrom(target, enforce, requests, fractions, |requests|) == [] && SumN([]) == 0
  {
  }

  lemma DealNext(target: nat, requests: seq<nat>, fractions: seq<real>, idx: nat)
    requires idx < |requests| == |fractions| && forall i :: 0 <= i < |requests| ==> fractions[i] >= 0.0
    ensures var enforce := target >= MIN_STRATUM * |requests|;
            var after := DealFrom(target, enforce, requests, fractions, idx + 1);
            var share := ShareAt(target, SumN(after), enforce, requests, fractions, idx);
            && DealFrom(target, enforce, requests, fractions, idx) == [share] + after
            && SumN([share] + after) == share + SumN(after) <= target
  {
    hide OnTrack, SumN, ActiveFraction, Active, ShareAt;
    var enforce := target >= MIN_STRATUM * |requests|;
    var ns := DealFrom(target, enforce, requests, fractions, idx);
    SumNCons(ns[0], ns[1..]);
    DealOnTrack(target, requests, fractions, idx);
    OnTrackBounds(target, SumN(ns), ActiveFraction(requests, fractions, idx), enforce, Active(requests, idx));
  }

  lemma AllFair(target: nat, orig: seq<nat>, fs: seq<real>, ns: seq<nat>)
    requires |orig| == |fs| && forall i :: 0 <= i < |orig| ==> fs[i] >= 0.0
    requires ns == DealFrom(target, target >= MIN_STRATUM * |orig|, orig, fs, 0)
    ensures forall i :: 0 <= i < |orig| && orig[i] == 0 ==> ns[i] == 0
    ensures forall i :: 0 <= i < |orig| && orig[i] > 0 ==>
              FairShare(target, fs[i], target >= MIN_STRATUM * |orig|, Active(orig, i), ns[i], SumN(ns[i..]))
  {
    hide FairShare, Active, SumN, DealFrom;
    forall i | 0 <= i < |orig|
      ensures orig[i] == 0 ==> ns[i] == 0
      ensures orig[i] > 0 ==>
                FairShare(target, fs[i], target >= MIN_STRATUM * |orig|, Active(orig, i), ns[i], SumN(ns[i..]))
    {
      DealtFairly(target, orig, fs, i);
    }
  }

  /** Dealing out something leaves a stratum with a request and a fraction. */
  lemma StaysActive(target: nat, orig: seq<nat>, sizes: seq<nat>, fs: seq<real>, enforce: bool)
    requires |orig| == |sizes| == |fs| && HasActive(orig, fs) && SumN(sizes) > 0
    requires forall i :: 0 <= i < |orig| ==> fs[i] >= 0.0
    requires forall i :: 0 <= i < |orig| && orig[i] == 0 ==> sizes[i] == 0
    requires forall i :: 0 <= i < |orig| && orig[i] > 0 ==>
               FairShare(target, fs[i], enforce, Active(orig, i), sizes[i], SumN(sizes[i..]))
    ensures HasActive(sizes, fs)
  {
    hide SumN, Active;
    if enforce {
      var i :| 0 <= i < |orig| && orig[i] > 0 && fs[i] > 0.0;
      assert FairShare(target, fs[i], enforce, Active(orig, i), sizes[i], SumN(sizes[i..]));
      assert sizes[i] > 0;
    } else {
      var i := PositiveTerm(sizes);
      assert FairShare(target, fs[i], enforce, Active(orig, i), sizes[i], SumN(sizes[i..]));
      assert target as real * 0.0 == 0.0;
      assert fs[i] > 0.0;
    }
  }

  lemma {:induction false} PositiveTerm(xs: seq<nat>) returns (i: nat)
    requires SumN(xs) > 0
    ensures i < |xs| && xs[i] > 0
  {
    i := |xs| - 1;
    if xs[i] == 0 { i := PositiveTerm(xs[..i]); }
  }

  /** Caps the phase to the remaining budget. Nothing changes for an empty phase; without budget the run is over. */
  method CapAllocation(k: nat, request: nat, remaining: nat, sizes: array<nat>, fractions: array<real>)
    returns (phase: nat, last: bool)
    requires k <= sizes.Length && k <= fractions.Length && forall i :: 0 <= i < k ==> fractions[i] >= 0.0
    modifies sizes, fractions
    ensures last <==> k > 0 && request > 0 && remaining == 0
    ensures k == 0 || request == 0 ==> phase == request && sizes[..] == old(sizes[..])
    ensures last ==> phase == 0
    ensures k > 0 && request > 0 ==> phase <= remaining && phase <= CappedSize(k, request, remaining)
    ensures k > 0 && request > 0 && !last ==> phase == SumN(sizes[..k])
    ensures k > 0 && request > 0 && !last ==>
              sizes[..k] == Dealt(request, remaining, old(sizes[..k]), old(fractions[..k]))
    ensures k == 1 && request > 0 && !last ==> phase == CappedSize(k, request, remaining) >= 1
    ensures k > 1 && request > 0 && remaining >= MIN_STRATUM * k ==>
              forall i :: 0 <= i < k && old(sizes[i]) > 0 ==> sizes[i] >= MIN_STRATUM
    ensures k > 1 && request > 0 && !last && ActiveFraction(old(sizes[..k]), old(fractions[..k]), 0) >= 1.0 ==>
              phase == CappedSize(k, request, remaining)
    ensures k > 1 && request > 0 && !last && HasActive(old(sizes[..k]), old(fractions[..k])) ==>
              phase > 0 && HasActive(sizes[..k], fractions[..k])
    ensures forall i :: 0 <= i < fractions.Length ==>
              fractions[i] == if i == 0 && k == 1 && request > 0 && !last then 1.0 else old(fractions[i])
  {
    hide SumN, HasActive, ActiveFraction, DealFrom;
    phase, last := request, false;
    if k == 0 || request == 0 {
      return;
    }
    if remaining == 0 {
      return 0, true;
    }
    if phase > remaining {
      phase := remaining;
    }
    if k > 1 && phase < MIN_STRATUM * k {
      phase := Min(MIN_STRATUM * k, remaining);
    }
    if k == 1 {
      if phase < MIN_STRATUM {
        phase := Min(MIN_STRATUM, remaining);
      }
      fractions[0] := 1.0;
      sizes[0] := phase;
      SumOfOne(sizes[..1]);
      return;
    }
    phase := DealOut(k, phase, sizes, fractions);
  }

  lemma SumOfOne(xs: seq<nat>)
    requires |xs| == 1
    ensures SumN(xs) == xs[0]
  {
    assert xs[..0] == [];
  }

  lemma DealStart(target: nat, orig: seq<nat>, fractions: seq<real>, enforce: bool)
    requires |orig| <= |fractions| && enforce == (target >= MIN_STRATUM * |orig|)
    ensures OnTrack(target, 0, ActiveFraction(orig, fractions, |orig|), enforce, Active(orig, |orig|))
    ensures SumN(orig[|orig|..]) == 0
  {
    ActiveAtMost(orig, |orig|);
  }

  lemma OnTrackBounds(target: nat, dealt: nat, done: real, enforce: bool, below: nat)
    requires OnTrack(target, dealt, done, enforce, below)
    ensures dealt <= target && (enforce && dealt == target ==> below == 0)
  {
  }

  lemma DealEnd(target: nat, orig: seq<nat>, dealt: nat, done: real, enforce: bool)
    requires OnTrack(target, dealt, done, enforce, Active(orig, 0))
    ensures dealt <= target && (done >= 1.0 ==> dealt == target) && (done > 0.0 && target > 0 ==> dealt > 0)
  {
    assert done > 0.0 && target > 0 ==> Mul(target as real, done) > 0.0;
    if done >= 1.0 { ProductMonotone(1.0, done, target as real); }
  }
}
