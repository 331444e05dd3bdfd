/** Scan keys for the whole range and for the strata cut out of it: a left-most, a middle and a right-most set, whose
    run-time bounds are filled in stratum by stratum. */
module ScanKeys {
  import opened IndexBounds

  /** The key sets of an index and the places of the run-time bounds in them. */
  datatype KeySets = KeySets(allEqual: bool, attno: int, scan: seq<Key>,
                             leftmost: seq<Key>, middle: seq<Key>, rightmost: seq<Key>,
                             ubInLeftmost: nat, lbInMiddle: nat, ubInMiddle: nat, lbInRightmost: nat)

  /** The column to partition on: the one after the equalities. */
  function PartitionColumn(b: Bounds): int
    requires b.lb != [] && b.ub != []
  {
    var at := (if |b.lb| < |b.ub| then |b.ub| else |b.lb|) - 1;
    var last := if at < |b.lb| then b.lb[at] else b.ub[at];
    if last.strategy == Equal then at + 1 else at
  }

  lemma PartitionColumnIs(b: Bounds)
    requires Shaped(b)
    ensures PartitionColumn(b) == EqualitySlots(b)
  {
  }

  /** Places for the keys on `attno` that the range has below and above. */
  function Lower(b: Bounds, e: nat): (ks: seq<Key>)
    requires Columns(b.lb, e)
    ensures |ks| <= 1
  {
    b.lb[e..]
  }

  function Upper(b: Bounds, e: nat): (ks: seq<Key>)
    requires Columns(b.ub, e)
    ensures |ks| <= 1
  {
    b.ub[e..]
  }

  function AtLeast(attno: int, typ: int): Key {
    Key(attno, GreaterEqual, 0, typ)
  }

  function Below(attno: int, typ: int): Key {
    Key(attno, Less, 0, typ)
  }

  /** Emits the equalities column by column, each followed by the left-over keys on its column; `j` counts the
      latter. */
  method EmitEqualities(b: Bounds, pa: int) returns (scan: seq<Key>, j: nat)
    requires Shaped(b) && pa == EqualitySlots(b)
    ensures j <= |b.rest|
    ensures RestBeyond(b) ==> j == 0 && scan == b.lb[1..pa]
  {
    hide OneSided;
    scan, j := [], 0;
    var attno := 1;
    while attno < pa
      invariant 1 <= attno <= pa && 0 <= j <= |b.rest|
      invariant RestBeyond(b) ==> j == 0 && scan == b.lb[1..attno]
    {
      scan := scan + [b.lb[attno]];
      while j < |b.rest| && b.rest[j].attno == attno
        invariant 0 <= j <= |b.rest|
        invariant RestBeyond(b) ==> j == 0 && scan == b.lb[1..attno] + [b.lb[attno]]
      {
        assert b.rest[j] in b.rest;
        scan := scan + [b.rest[j]];
        j := j + 1;
      }
      attno := attno + 1;
    }
  }

  /** The key sets before left-over keys are added, from the equalities and the keys on the partition column. */
  function RangeSets(prefix: seq<Key>, lower: seq<Key>, upper: seq<Key>, pa: int, typ: int): KeySets {
    KeySets(false, pa, prefix + lower + upper,
            prefix + lower + [Below(pa, typ)],
            prefix + [AtLeast(pa, typ), Below(pa, typ)],
            prefix + [AtLeast(pa, typ)] + upper,
            |prefix| + |lower|, |prefix|, |prefix| + 1, |prefix|)
  }

  function Paste(ks: KeySets, more: seq<Key>): KeySets {
    ks.(scan := ks.scan + more, leftmost := ks.leftmost + more, middle := ks.middle + more,
        rightmost := ks.rightmost + more)
  }

  /** The key sets of bounds whose left-over keys, if any, lie beyond them. `junk` stands for the uninitialised cells
      after the emitted scan keys: left-over keys are copied from that array and not from the one that holds them. */
  function ExpectedSets(b: Bounds, nkeys: nat, types: int -> int, junk: seq<Key>): KeySets
    requires Shaped(b) && |junk| >= |b.rest|
  {
    var e := EqualitySlots(b);
    var ks := if e > nkeys then KeySets(true, e, b.lb[1..e], [], [], [], 0, 0, 0, 0)
              else RangeSets(b.lb[1..e], Lower(b, e), Upper(b, e), e, types(e));
    Paste(ks, (ks.scan + junk)[..|b.rest|])
  }

  /** Builds the four key sets. */
  method BuildKeySets(b: Bounds, nkeys: nat, types: int -> int, junk: seq<Key>) returns (ks: KeySets)
    requires Shaped(b) && |junk| >= |b.rest|
    ensures RestBeyond(b) ==> ks == ExpectedSets(b, nkeys, types, junk)
  {
    hide OneSided;
    PartitionColumnIs(b);
    var pa := PartitionColumn(b);
    var scan, j := EmitEqualities(b, pa);
    var allEqual := pa > nkeys;
    var left, mid, right := [], [], [];
    var ubL, lbM, ubM, lbR := 0, 0, 0, 0;
    if !allEqual {
      left, mid, right := scan, scan, scan;
      if pa < |b.lb| {
        left := left + [b.lb[pa]];
        scan := scan + [b.lb[pa]];
      }
      lbM, lbR := |mid|, |right|;
      mid := mid + [AtLeast(pa, types(pa))];
      right := right + [AtLeast(pa, types(pa))];
      if pa < |b.ub| {
        right := right + [b.ub[pa]];
        scan := scan + [b.ub[pa]];
      }
      ubM, ubL := |mid|, |left|;
      mid := mid + [Below(pa, types(pa))];
      left := left + [Below(pa, types(pa))];
    }
    ks := KeySets(allEqual, pa, scan, left, mid, right, ubL, lbM, ubM, lbR);
    if RestBeyond(b) && !allEqual {
      var e := EqualitySlots(b);
      assert ks == RangeSets(b.lb[1..e], Lower(b, e), Upper(b, e), e, types(e));
    }
    ks := Paste(ks, (scan + junk)[j..|b.rest|]);
  }

  // ----- strata

  function SetArg(ks: seq<Key>, at: nat, arg: int): seq<Key>
    requires at < |ks|
  {
    ks[at := ks[at].(arg := arg)]
  }

  /** The keys scanned for stratum `t` of the |cuts| + 1 strata separated by `cuts`. */
  function StratumKeys(ks: KeySets, cuts: seq<int>, t: nat): seq<Key>
    requires cuts != [] && t <= |cuts|
    requires ks.ubInLeftmost < |ks.leftmost| && ks.lbInRightmost < |ks.rightmost|
    requires ks.lbInMiddle < |ks.middle| && ks.ubInMiddle < |ks.middle|
  {
    if t == 0 then SetArg(ks.leftmost, ks.ubInLeftmost, cuts[0])
    else if t == |cuts| then SetArg(ks.rightmost, ks.lbInRightmost, cuts[t - 1])
    else SetArg(SetArg(ks.middle, ks.lbInMiddle, cuts[t - 1]), ks.ubInMiddle, cuts[t])
  }

  /** Cuts increase strictly in the order of the partition column. */
  predicate Increasing(ord: Order, attno: int, cuts: seq<int>) {
    forall i, j :: 0 <= i < j < |cuts| ==> ord(attno, cuts[i]) < ord(attno, cuts[j])
  }

  /** A value of the partition column is within the bounds of the range on that column. */
  predicate InRange(ord: Order, lower: seq<Key>, upper: seq<Key>, x: int) {
    && (forall k :: k in lower ==> CompareArgs(ord, k.attno, k.strategy, x, k.arg))
    && (forall k :: k in upper ==> CompareArgs(ord, k.attno, k.strategy, x, k.arg))
  }

  predicate SomeStratum(ord: Order, ks: KeySets, cuts: seq<int>, row: seq<int>, t: nat)
    requires cuts != [] && t <= |cuts|
    requires ks.ubInLeftmost < |ks.leftmost| && ks.lbInRightmost < |ks.rightmost|
    requires ks.lbInMiddle < |ks.middle| && ks.ubInMiddle < |ks.middle|
  {
    MatchesAll(ord, StratumKeys(ks, cuts, t), row)
  }

  lemma MatchesConcat(ord: Order, ks: seq<Key>, more: seq<Key>, row: seq<int>)
    ensures MatchesAll(ord, ks + more, row) <==> MatchesAll(ord, ks, row) && MatchesAll(ord, more, row)
  {
    if MatchesAll(ord, ks + more, row) {
      forall k | k in ks ensures Matches(ord, k, row) { assert k in ks + more; }
      forall k | k in more ensures Matches(ord, k, row) { assert k in ks + more; }
    }
  }

  /** A lower and an upper key on the partition column, if there are any. */
  predicate OnColumn(lower: seq<Key>, upper: seq<Key>, pa: int) {
    && |lower| <= 1 && |upper| <= 1
    && (forall k :: k in lower ==> k.attno == pa && (k.strategy == Greater || k.strategy == GreaterEqual))
    && (forall k :: k in upper ==> k.attno == pa && (k.strategy == Less || k.strategy == LessEqual))
  }

  /** What stratum `t` means: the equalities, the cut below or else the lower bound of the range, and the cut above or
      else its upper bound. */
  predicate StratumMeaning(ord: Order, prefix: seq<Key>, lower: seq<Key>, upper: seq<Key>, pa: int, cuts: seq<int>,
                           t: nat, row: seq<int>)
    requires 1 <= pa <= |row| && t <= |cuts|
  {
    var x := ord(pa, row[pa - 1]);
    && MatchesAll(ord, prefix, row)
    && (if t == 0 then MatchesAll(ord, lower, row) else ord(pa, cuts[t - 1]) <= x)
    && (if t == |cuts| then MatchesAll(ord, upper, row) else x < ord(pa, cuts[t]))
  }

  lemma StratumKeysMean(ord: Order, prefix: seq<Key>, lower: seq<Key>, upper: seq<Key>, pa: int, typ: int,
                        cuts: seq<int>, t: nat, row: seq<int>)
    requires 1 <= pa <= |row| && cuts != [] && t <= |cuts|
    ensures SomeStratum(ord, RangeSets(prefix, lower, upper, pa, typ), cuts, row, t)
            <==> StratumMeaning(ord, prefix, lower, upper, pa, cuts, t, row)
  {
    var ks := RangeSets(prefix, lower, upper, pa, typ);
    var keys := StratumKeys(ks, cuts, t);
    hide MatchesAll;
    var ge := AtLeast(pa, typ).(arg := if t == 0 then 0 else cuts[t - 1]);
    var lt := Below(pa, typ).(arg := if t == |cuts| then 0 else cuts[t]);
    OneKey(ord, ge, row);
    OneKey(ord, lt, row);
    if t == 0 {
      assert keys == prefix + lower + [lt];
      MatchesConcat(ord, prefix + lower, [lt], row);
      MatchesConcat(ord, prefix, lower, row);
    } else if t == |cuts| {
      assert keys == prefix + [ge] + upper;
      MatchesConcat(ord, prefix + [ge], upper, row);
      MatchesConcat(ord, prefix, [ge], row);
    } else {
      assert keys == prefix + [ge] + [lt];
      MatchesConcat(ord, prefix + [ge], [lt], row);
      MatchesConcat(ord, prefix, [ge], row);
    }
  }

  lemma OneKey(ord: Order, k: Key, row: seq<int>)
    ensures MatchesAll(ord, [k], row) <==> Matches(ord, k, row)
  {
    assert k in [k];
  }

  /** The stratum a value falls into: how many cuts are not above it. */
  function StratumOf(ord: Order, pa: int, cuts: seq<int>, x: int): (t: nat)
    ensures t <= |cuts|
    ensures t > 0 ==> ord(pa, cuts[t - 1]) <= ord(pa, x)
    ensures t < |cuts| ==> ord(pa, x) < ord(pa, cuts[t])
  {
    if cuts == [] then 0
    else if ord(pa, cuts[|cuts| - 1]) <= ord(pa, x) then |cuts|
    else StratumOf(ord, pa, cuts[..|cuts| - 1], x)
  }

  /** Above a value in range the lower bound holds, below it the upper bound. */
  lemma BeyondInRange(ord: Order, lower: seq<Key>, upper: seq<Key>, pa: int, c: int, row: seq<int>)
    requires 1 <= pa <= |row| && OnColumn(lower, upper, pa) && InRange(ord, lower, upper, c)
    ensures ord(pa, c) <= ord(pa, row[pa - 1]) ==> MatchesAll(ord, lower, row)
    ensures ord(pa, row[pa - 1]) < ord(pa, c) ==> MatchesAll(ord, upper, row)
  {
  }

  /** The strata partition the range: a row in the range matches the keys of exactly one stratum, the one its partition
      column falls into, and a row outside matches none. */
  lemma StrataPartition(ord: Order, prefix: seq<Key>, lower: seq<Key>, upper: seq<Key>, pa: int, typ: int,
                        cuts: seq<int>, row: seq<int>, t: nat)
    requires 1 <= pa <= |row| && cuts != [] && t <= |cuts| && OnColumn(lower, upper, pa)
    requires Increasing(ord, pa, cuts) && forall c :: c in cuts ==> InRange(ord, lower, upper, c)
    ensures var ks := RangeSets(prefix, lower, upper, pa, typ);
            SomeStratum(ord, ks, cuts, row, t)
            <==> MatchesAll(ord, ks.scan, row) && t == StratumOf(ord, pa, cuts, row[pa - 1])
  {
    hide MatchesAll, SomeStratum, StratumOf, InRange, Increasing, OnColumn, RangeSets;
    StratumKeysMean(ord, prefix, lower, upper, pa, typ, cuts, t, row);
    MatchesConcat(ord, prefix + lower, upper, row);
    MatchesConcat(ord, prefix, lower, row);
    if t > 0 { BeyondInRange(ord, lower, upper, pa, cuts[t - 1], row); }
    if t < |cuts| { BeyondInRange(ord, lower, upper, pa, cuts[t], row); }
    OnlyStratum(ord, pa, cuts, row[pa - 1], t);
    RangeScan(prefix, lower, upper, pa, typ);
  }

  lemma RangeScan(prefix: seq<Key>, lower: seq<Key>, upper: seq<Key>, pa: int, typ: int)
    ensures RangeSets(prefix, lower, upper, pa, typ).scan == prefix + lower + upper
  {
  }

  lemma OnlyStratum(ord: Order, pa: int, cuts: seq<int>, x: int, t: nat)
    requires t <= |cuts| && Increasing(ord, pa, cuts)
    ensures t == StratumOf(ord, pa, cuts, x)
            <==> (t == 0 || ord(pa, cuts[t - 1]) <= ord(pa, x)) && (t == |cuts| || ord(pa, x) < ord(pa, cuts[t]))
  {
    var s := StratumOf(ord, pa, cuts, x);
    if t < s && t < |cuts| {
      assert t == s - 1 || ord(pa, cuts[t]) < ord(pa, cuts[s - 1]);
    }
    if s < t && t > 0 {
      assert t - 1 == s || ord(pa, cuts[s]) < ord(pa, cuts[t - 1]);
    }
  }

  // ----- from the quals to the strata

  lemma ShapeOnColumn(b: Bounds)
    requires Shaped(b)
    ensures var e := EqualitySlots(b); OnColumn(Lower(b, e), Upper(b, e), e)
  {
    var e := EqualitySlots(b);
    forall k | k in Lower(b, e) ensures k.attno == e && (k.strategy == Greater || k.strategy == GreaterEqual) {
      assert k == b.lb[e];
    }
    forall k | k in Upper(b, e) ensures k.attno == e && (k.strategy == Less || k.strategy == LessEqual) {
      assert k == b.ub[e];
    }
  }

  // ----- left-over keys

  /** The keys on the range itself, without left-over ones. */
  function RangeKeys(b: Bounds): seq<Key>
    requires Shaped(b)
  {
    var e := EqualitySlots(b);
    b.lb[1..e] + Lower(b, e) + Upper(b, e)
  }

  lemma RangeMeans(ord: Order, b: Bounds, row: seq<int>)
    requires Shaped(b)
    ensures BoundsMatch(ord, b, row) <==> MatchesAll(ord, RangeKeys(b), row) && MatchesAll(ord, b.rest, row)
  {
    var e := EqualitySlots(b);
    var prefix, lower, upper := b.lb[1..e], Lower(b, e), Upper(b, e);
    assert b.lb[1..] == prefix + lower;
    assert b.ub[1..] == b.ub[..e][1..] + upper;
    MatchesConcat(ord, prefix, lower, row);
    MatchesConcat(ord, b.ub[..e][1..], upper, row);
    MatchesConcat(ord, prefix + lower, upper, row);
  }

  lemma ExpectedScan(b: Bounds, nkeys: nat, types: int -> int, junk: seq<Key>)
    requires Shaped(b) && |junk| >= |b.rest| && |b.lb| <= nkeys + 1 && |b.ub| <= nkeys + 1
    ensures ExpectedSets(b, nkeys, types, junk).scan == RangeKeys(b) + (RangeKeys(b) + junk)[..|b.rest|]
  {
    hide OneSided;
    var e := EqualitySlots(b);
    if e > nkeys { assert Lower(b, e) == [] && Upper(b, e) == []; }
  }

  /** Left-over keys are not among the scan keys: as many range keys are repeated in their place. */
  lemma LeftOversAreDropped(ord: Order, b: Bounds, nkeys: nat, types: int -> int, junk: seq<Key>, row: seq<int>)
    requires Shaped(b) && |junk| >= |b.rest| && |b.lb| <= nkeys + 1 && |b.ub| <= nkeys + 1
    requires |b.rest| <= |RangeKeys(b)|
    ensures MatchesAll(ord, ExpectedSets(b, nkeys, types, junk).scan, row) <==> MatchesAll(ord, RangeKeys(b), row)
  {
    hide ExpectedSets, OneSided;
    ExpectedScan(b, nkeys, types, junk);
    var range := RangeKeys(b);
    assert (range + junk)[..|b.rest|] == range[..|b.rest|];
    MatchesConcat(ord, range, range[..|b.rest|], row);
    assert MatchesAll(ord, range, row) ==> MatchesAll(ord, range[..|b.rest|], row);
  }

  /** With nothing left over, the emitted scan keys mean what the quals mean. */
  lemma ScanMeansBounds(ord: Order, b: Bounds, nkeys: nat, types: int -> int, junk: seq<Key>, row: seq<int>)
    requires Shaped(b) && b.rest == [] && |b.lb| <= nkeys + 1 && |b.ub| <= nkeys + 1
    ensures MatchesAll(ord, ExpectedSets(b, nkeys, types, junk).scan, row) <==> BoundsMatch(ord, b, row)
  {
    LeftOversAreDropped(ord, b, nkeys, types, junk, row);
    RangeMeans(ord, b, row);
  }

  lemma RangeIgnoresLaterColumns(ord: Order, b: Bounds, row: seq<int>, at: nat, v: int)
    requires Shaped(b) && EqualitySlots(b) <= at < |row| && MatchesAll(ord, RangeKeys(b), row)
    ensures MatchesAll(ord, RangeKeys(b), row[at := v])
  {
    hide OneSided;
    var e := EqualitySlots(b);
    forall k | k in RangeKeys(b) ensures Matches(ord, k, row[at := v]) {
      assert Matches(ord, k, row);
      assert k.attno <= e by {
        assert k in b.lb[1..e] || k in Lower(b, e) || k in Upper(b, e);
        assert k in b.lb || k in b.ub;
      }
    }
  }

  /** The scan keys mean what the quals mean. */
  ghost predicate ScanExact(ord: Order, b: Bounds, nkeys: nat, types: int -> int, junk: seq<Key>)
    requires Shaped(b) && |junk| >= |b.rest|
  {
    forall row :: |row| == nkeys ==>
                    (MatchesAll(ord, ExpectedSets(b, nkeys, types, junk).scan, row) <==> BoundsMatch(ord, b, row))
  }

  ghost predicate RangeEmpty(ord: Order, b: Bounds, nkeys: nat)
    requires Shaped(b)
  {
    forall row :: |row| == nkeys ==> !MatchesAll(ord, RangeKeys(b), row)
  }

  /** Every value of the column satisfies the key, as the least value does for `at least`. */
  ghost predicate Always(ord: Order, k: Key) {
    forall x :: CompareArgs(ord, k.attno, k.strategy, x, k.arg)
  }

  /** The scan keys mean what the quals mean, whatever lies in the cells copied by mistake, if and only if nothing was
      left over, or no row is in the range, or the left-over keys exclude no value and no such cell is copied. */
  lemma ScanKeysExactIff(ord: Order, b: Bounds, nkeys: nat, types: int -> int)
    requires Shaped(b) && RestBeyond(b) && |b.lb| <= nkeys + 1 && |b.ub| <= nkeys + 1
    requires forall k :: k in b.rest ==> 1 <= k.attno <= nkeys
    ensures (forall junk: seq<Key> :: |junk| >= |b.rest| ==> ScanExact(ord, b, nkeys, types, junk))
            <==> || b.rest == [] || RangeEmpty(ord, b, nkeys)
                 || (|b.rest| <= |RangeKeys(b)| && forall k :: k in b.rest ==> Always(ord, k))
  {
    hide Shaped, ScanExact, Always, MatchesAll;
    if b.rest == [] || RangeEmpty(ord, b, nkeys)
       || (|b.rest| <= |RangeKeys(b)| && forall k :: k in b.rest ==> Always(ord, k)) {
      forall junk: seq<Key> | |junk| >= |b.rest| ensures ScanExact(ord, b, nkeys, types, junk) {
        ExactIfHarmless(ord, b, nkeys, types, junk);
      }
    } else {
      var junk := SpoilingCells(ord, b, nkeys, types);
    }
  }

  lemma ExactIfHarmless(ord: Order, b: Bounds, nkeys: nat, types: int -> int, junk: seq<Key>)
    requires Shaped(b) && |junk| >= |b.rest| && |b.lb| <= nkeys + 1 && |b.ub| <= nkeys + 1
    requires forall k :: k in b.rest ==> 1 <= k.attno <= nkeys
    requires || b.rest == [] || RangeEmpty(ord, b, nkeys)
             || (|b.rest| <= |RangeKeys(b)| && forall k :: k in b.rest ==> Always(ord, k))
    ensures ScanExact(ord, b, nkeys, types, junk)
  {
    hide ExpectedSets, OneSided, BoundsMatch, MatchesAll, RangeKeys;
    var scan := ExpectedSets(b, nkeys, types, junk).scan;
    forall row: seq<int> | |row| == nkeys ensures MatchesAll(ord, scan, row) <==> BoundsMatch(ord, b, row) {
      RangeMeans(ord, b, row);
      if |b.rest| <= |RangeKeys(b)| {
        LeftOversAreDropped(ord, b, nkeys, types, junk, row);
        AlwaysMatched(ord, b.rest, row);
      } else {
        ExpectedScan(b, nkeys, types, junk);
        MatchesConcat(ord, RangeKeys(b), (RangeKeys(b) + junk)[..|b.rest|], row);
      }
    }
  }

  lemma AlwaysMatched(ord: Order, ks: seq<Key>, row: seq<int>)
    requires forall k :: k in ks ==> 1 <= k.attno <= |row|
    ensures (forall k :: k in ks ==> Always(ord, k)) ==> MatchesAll(ord, ks, row)
  {
  }

  /** Otherwise some content of those cells makes the scan keys wrong. */
  lemma SpoilingCells(ord: Order, b: Bounds, nkeys: nat, types: int -> int) returns (junk: seq<Key>)
    requires Shaped(b) && RestBeyond(b) && |b.lb| <= nkeys + 1 && |b.ub| <= nkeys + 1
    requires forall k :: k in b.rest ==> 1 <= k.attno <= nkeys
    requires b.rest != [] && !RangeEmpty(ord, b, nkeys)
    requires |b.rest| > |RangeKeys(b)| || exists k :: k in b.rest && !Always(ord, k)
    ensures |junk| >= |b.rest| && !ScanExact(ord, b, nkeys, types, junk)
  {
    hide OneSided, BoundsMatch, MatchesAll, RangeKeys, ExpectedSets;
    var row :| |row| == nkeys && MatchesAll(ord, RangeKeys(b), row);
    assert b.rest[0] in b.rest;
    if |b.rest| > |RangeKeys(b)| {
      junk := SpoiledByJunk(ord, b, nkeys, types, row);
    } else {
      junk := b.rest;
      var k :| k in b.rest && !Always(ord, k);
      var v :| !CompareArgs(ord, k.attno, k.strategy, v, k.arg);
      var other := row[k.attno - 1 := v];
      RangeIgnoresLaterColumns(ord, b, row, k.attno - 1, v);
      LeftOversAreDropped(ord, b, nkeys, types, junk, other);
      RangeMeans(ord, b, other);
      NotAllMatched(ord, b.rest, k, other);
    }
  }

  lemma NotAllMatched(ord: Order, ks: seq<Key>, k: Key, row: seq<int>)
    requires k in ks && !Matches(ord, k, row)
    ensures !MatchesAll(ord, ks, row)
  {
  }

  /** With more left-over keys than range keys, a copied cell can exclude a row that the quals accept, or accept one
      that they exclude. */
  lemma SpoiledByJunk(ord: Order, b: Bounds, nkeys: nat, types: int -> int, row: seq<int>) returns (junk: seq<Key>)
    requires Shaped(b) && |b.lb| <= nkeys + 1 && |b.ub| <= nkeys + 1 && |b.rest| > |RangeKeys(b)|
    requires 1 <= nkeys == |row| && MatchesAll(ord, RangeKeys(b), row)
    ensures |junk| >= |b.rest| && !ScanExact(ord, b, nkeys, types, junk)
  {
    hide OneSided, BoundsMatch, MatchesAll, RangeKeys, ExpectedSets;
    var wanted := MatchesAll(ord, b.rest, row);
    var k := Key(1, if wanted then Less else LessEqual, row[0], 0);
    junk := seq(|b.rest|, _ => k);
    var range := RangeKeys(b);
    var copied := junk[..|b.rest| - |range|];
    assert (range + junk)[..|b.rest|] == range + copied;
    assert copied[0] == k && forall x :: x in copied ==> x == k;
    ExpectedScan(b, nkeys, types, junk);
    RangeMeans(ord, b, row);
    MatchesConcat(ord, range, range + copied, row);
    MatchesConcat(ord, range, copied, row);
    CopiesMatch(ord, copied, k, row);
    assert MatchesAll(ord, ExpectedSets(b, nkeys, types, junk).scan, row) <==> !wanted;
  }

  lemma CopiesMatch(ord: Order, ks: seq<Key>, k: Key, row: seq<int>)
    requires k in ks && forall x :: x in ks ==> x == k
    ensures MatchesAll(ord, ks, row) <==> Matches(ord, k, row)
  {
  }

  // ----- a case of it

  function ByValue(attno: int, x: int): int {
    x
  }

  /** Conditions a > 1 and b = 2 on an index over a and b. The second is left over, and a row with a = 2 and b = 3 is in
      the scan. */
  method LeftOverIgnored(can: Comparable, types: int -> int, junk: seq<Key>) returns (ks: KeySets)
    requires AllComparable(can) && junk != []
    ensures var quals := [Qual(1, Greater, Constant(1), 0), Qual(2, Equal, Constant(2), 0)];
            MatchesAll(ByValue, ks.scan, [2, 3]) && !SatisfiesAll(ByValue, quals, [2, 3])
  {
    var quals := [Qual(1, Greater, Constant(1), 0), Qual(2, Equal, Constant(2), 0)];
    FoldOfTwo(can);
    assert quals[1] in quals && !Satisfies(ByValue, quals[1], [2, 3]);
    var f := FoldQuals(ByValue, can, 2, quals);
    var b := Bounds([DUMMY, Key(1, Greater, 1, 0)], [DUMMY], [Key(2, Equal, 2, 0)]);
    assert RangeKeys(b) == [Key(1, Greater, 1, 0)];
    hide ExpectedSets, MatchesAll;
    ks := BuildKeySets(f.b, 2, types, junk);
    LeftOversAreDropped(ByValue, b, 2, types, junk, [2, 3]);
    OneKey(ByValue, Key(1, Greater, 1, 0), [2, 3]);
  }

  lemma FoldOfTwo(can: Comparable)
    requires AllComparable(can)
    ensures Fold(ByValue, can, 2, [Qual(1, Greater, Constant(1), 0), Qual(2, Equal, Constant(2), 0)])
            == Folded(Bounds([DUMMY, Key(1, Greater, 1, 0)], [DUMMY], [Key(2, Equal, 2, 0)]))
  {
    var q1, q2 := Qual(1, Greater, Constant(1), 0), Qual(2, Equal, Constant(2), 0);
    assert [q1, q2][..1] == [q1] && [q1][..0] == [];
    assert Fold(ByValue, can, 2, [q1]) == Folded(Bounds([DUMMY, Key(1, Greater, 1, 0)], [DUMMY], []));
  }
}
