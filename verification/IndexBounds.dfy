/** Folding of index quals into a lower and an upper bound: an equality prefix shared by both, then at most one
    inequality on either side. Quals that fit neither bound are left over. */
module IndexBounds {

  datatype Strategy = Less | LessEqual | Equal | GreaterEqual | Greater

  /** A scan key: column `attno` of the index compared with `arg` of type `typ`. */
  datatype Key = Key(attno: int, strategy: Strategy, arg: int, typ: int)

  /** What an index qual compares the column with. */
  datatype Operand = Constant(value: int) | NullConstant | Runtime

  datatype Qual = Qual(attno: int, strategy: Strategy, operand: Operand, typ: int)

  /** Values of a column are ordered by the comparator of its operator family. */
  type Order = (int, int) -> int

  /** Which argument types the operator family can compare under a strategy. */
  type Comparable = (int, int, Strategy) -> bool

  /** The slot before the first column: an equality on no column. */
  const DUMMY := Key(0, Equal, 0, 0)

  // ----- meaning

  predicate Compare(s: Strategy, x: int, y: int) {
    match s
    case Less => x < y
    case LessEqual => x <= y
    case Equal => x == y
    case GreaterEqual => x >= y
    case Greater => x > y
  }

  function CompareArgs(ord: Order, attno: int, s: Strategy, x: int, y: int): bool {
    Compare(s, ord(attno, x), ord(attno, y))
  }

  /** The index row satisfies the key. */
  predicate Matches(ord: Order, k: Key, row: seq<int>) {
    1 <= k.attno <= |row| && CompareArgs(ord, k.attno, k.strategy, row[k.attno - 1], k.arg)
  }

  predicate MatchesAll(ord: Order, ks: seq<Key>, row: seq<int>) {
    forall k :: k in ks ==> Matches(ord, k, row)
  }

  /** The index row satisfies the qual. Comparison with NULL is never true; a run-time operand is outside this model. */
  predicate Satisfies(ord: Order, q: Qual, row: seq<int>) {
    q.operand.Constant? && Matches(ord, Key(q.attno, q.strategy, q.operand.value, q.typ), row)
  }

  predicate SatisfiesAll(ord: Order, qs: seq<Qual>, row: seq<int>) {
    forall q :: q in qs ==> Satisfies(ord, q, row)
  }

  predicate IsLower(s: Strategy) {
    s == Greater || s == GreaterEqual || s == Equal
  }

  predicate IsUpper(s: Strategy) {
    s == Less || s == LessEqual || s == Equal
  }

  predicate IsStrict(s: Strategy) {
    s == Less || s == Greater
  }

  // ----- one bound

  /** Outcome of merging a key into one bound. `used` means the bound now implies the key. */
  datatype Merged = Merged(bound: seq<Key>, used: bool, empty: bool)

  function MergeKey(ord: Order, can: Comparable, bound: seq<Key>, k: Key): Merged
    requires bound != []
  {
    var at := |bound| - 1;
    var last := bound[at];
    if last.attno == k.attno then
      if last.strategy == Equal then
        if !can(last.typ, k.typ, k.strategy) then Merged(bound, false, false)
        else if CompareArgs(ord, k.attno, k.strategy, last.arg, k.arg) then Merged(bound, true, false)
        else Merged(bound, false, true)
      else if IsStrict(last.strategy) || k.strategy == Equal then
        if !can(k.typ, last.typ, last.strategy) then Merged(bound, false, false)
        else if CompareArgs(ord, k.attno, last.strategy, k.arg, last.arg) then Merged(bound[at := k], true, false)
        else if k.strategy == Equal then Merged(bound, false, true)
        else Merged(bound, true, false)
      else
        if !can(last.typ, k.typ, k.strategy) then Merged(bound, false, false)
        else if CompareArgs(ord, k.attno, k.strategy, last.arg, k.arg) then Merged(bound, true, false)
        else Merged(bound[at := k], true, false)
    else if last.attno + 1 == k.attno && last.strategy == Equal then Merged(bound + [k], true, false)
    else Merged(bound, false, false)
  }

  /** All keys after the dummy are of one side. */
  predicate OneSided(bound: seq<Key>, lower: bool) {
    && bound != [] && bound[0] == DUMMY
    && forall i :: 1 <= i < |bound| ==> if lower then IsLower(bound[i].strategy) else IsUpper(bound[i].strategy)
  }

  lemma MatchesAppend(ord: Order, ks: seq<Key>, k: Key, row: seq<int>)
    ensures MatchesAll(ord, ks + [k], row) <==> MatchesAll(ord, ks, row) && Matches(ord, k, row)
  {
    if MatchesAll(ord, ks + [k], row) {
      assert k in ks + [k];
      forall x | x in ks ensures Matches(ord, x, row) { assert x in ks + [k]; }
    }
  }

  /** How two keys of one side on the same column relate, by comparing their arguments. */
  lemma TwoOnOneColumn(ord: Order, last: Key, k: Key, row: seq<int>)
    requires last.attno == k.attno
    requires (IsLower(last.strategy) && IsLower(k.strategy)) || (IsUpper(last.strategy) && IsUpper(k.strategy))
    ensures last.strategy == Equal ==>
              if CompareArgs(ord, k.attno, k.strategy, last.arg, k.arg)
              then Matches(ord, last, row) ==> Matches(ord, k, row)
              else !(Matches(ord, last, row) && Matches(ord, k, row))
    ensures IsStrict(last.strategy) || (last.strategy != Equal && k.strategy == Equal) ==>
              if CompareArgs(ord, k.attno, last.strategy, k.arg, last.arg)
              then Matches(ord, k, row) ==> Matches(ord, last, row)
              else if k.strategy == Equal then !(Matches(ord, last, row) && Matches(ord, k, row))
              else Matches(ord, last, row) ==> Matches(ord, k, row)
    ensures !IsStrict(last.strategy) && last.strategy != Equal && k.strategy != Equal ==>
              if CompareArgs(ord, k.attno, k.strategy, last.arg, k.arg)
              then Matches(ord, last, row) ==> Matches(ord, k, row)
              else Matches(ord, k, row) ==> Matches(ord, last, row)
  {
  }

  /** Merging keeps the meaning: the new bound is the old one together with the key if the key was used, and the old
      one if not; the key contradicts the bound whenever emptiness is reported. */
  lemma MergeKeyMeaning(ord: Order, can: Comparable, bound: seq<Key>, k: Key, lower: bool, row: seq<int>)
    requires OneSided(bound, lower) && (if lower then IsLower(k.strategy) else IsUpper(k.strategy)) && k.attno >= 1
    ensures var m := MergeKey(ord, can, bound, k);
            && OneSided(m.bound, lower)
            && (!m.used ==> m.bound == bound)
            && !(m.used && m.empty)
            && (m.used ==> (MatchesAll(ord, m.bound[1..], row)
                            <==> MatchesAll(ord, bound[1..], row) && Matches(ord, k, row)))
            && (m.empty ==> !(MatchesAll(ord, bound[1..], row) && Matches(ord, k, row)))
  {
    hide CompareArgs, Matches, MatchesAll;
    var m := MergeKey(ord, can, bound, k);
    var at := |bound| - 1;
    var last := bound[at];
    if last.attno == k.attno {
      assert bound[1..] == bound[1..at] + [last];
      MatchesAppend(ord, bound[1..at], last, row);
      if m.bound != bound {
        assert m.bound[1..] == bound[1..at] + [k];
        MatchesAppend(ord, bound[1..at], k, row);
      }
      TwoOnOneColumn(ord, last, k, row);
    } else if m.used {
      assert m.bound[1..] == bound[1..] + [k];
      MatchesAppend(ord, bound[1..], k, row);
    }
  }

  // ----- both bounds

  /** The bounds and the left-over keys built so far. */
  datatype Bounds = Bounds(lb: seq<Key>, ub: seq<Key>, rest: seq<Key>)

  ghost predicate WellFormed(b: Bounds) {
    OneSided(b.lb, true) && OneSided(b.ub, false)
  }

  predicate BoundsMatch(ord: Order, b: Bounds, row: seq<int>)
    requires b.lb != [] && b.ub != []
  {
    MatchesAll(ord, b.lb[1..], row) && MatchesAll(ord, b.ub[1..], row) && MatchesAll(ord, b.rest, row)
  }

  /** Outcome of folding quals: no row can match, a run-time operand was met, a qual is not on a key column, or the
      bounds. */
  datatype Folded = NoRows | NotSupported | Bogus | Folded(b: Bounds)

  function MergeQual(ord: Order, can: Comparable, b: Bounds, k: Key): Folded
    requires b.lb != [] && b.ub != []
  {
    var l := if IsLower(k.strategy) then MergeKey(ord, can, b.lb, k) else Merged(b.lb, false, false);
    if l.empty then NoRows
    else
      var u := if IsUpper(k.strategy) then MergeKey(ord, can, b.ub, k) else Merged(b.ub, false, false);
      if u.empty then NoRows
      else Folded(Bounds(l.bound, u.bound, if l.used || u.used then b.rest else b.rest + [k]))
  }

  lemma MergeQualMeaning(ord: Order, can: Comparable, b: Bounds, k: Key, row: seq<int>)
    requires WellFormed(b) && k.attno >= 1
    ensures var f := MergeQual(ord, can, b, k);
            && (f.Folded? || f.NoRows?)
            && (f.Folded? ==> WellFormed(f.b)
                              && (BoundsMatch(ord, f.b, row) <==> BoundsMatch(ord, b, row) && Matches(ord, k, row)))
            && (f.NoRows? ==> !(BoundsMatch(ord, b, row) && Matches(ord, k, row)))
  {
    hide MergeKey, Matches, MatchesAll, OneSided;
    if IsLower(k.strategy) { MergeKeyMeaning(ord, can, b.lb, k, true, row); }
    if IsUpper(k.strategy) { MergeKeyMeaning(ord, can, b.ub, k, false, row); }
    MatchesAppend(ord, b.rest, k, row);
  }

  function KeyOf(q: Qual): Key
    requires q.operand.Constant?
  {
    Key(q.attno, q.strategy, q.operand.value, q.typ)
  }

  // ----- shape

  ghost predicate AllComparable(can: Comparable) {
    forall x, y, s :: can(x, y, s)
  }

  /** Number of slots, the dummy included, that hold an equality in the lower bound. */
  function EqualitySlots(b: Bounds): nat
    requires b.lb != []
  {
    if b.lb[|b.lb| - 1].strategy == Equal then |b.lb| else |b.lb| - 1
  }

  /** One key for each column in turn, equalities in the first `e` slots only. */
  predicate Columns(bound: seq<Key>, e: nat) {
    && 1 <= e <= |bound| <= e + 1
    && forall i :: 0 <= i < |bound| ==> bound[i].attno == i && (i < e <==> bound[i].strategy == Equal)
  }

  /** Both bounds start with the same equalities, one on each column in turn, and have at most one more key, an
      inequality on the column after those. */
  ghost predicate Shaped(b: Bounds) {
    && WellFormed(b)
    && var e := EqualitySlots(b);
       Columns(b.lb, e) && Columns(b.ub, e) && b.lb[..e] == b.ub[..e]
  }

  /** A bound changes only by taking the key as its one key on column `e`, which an equality always does. */
  lemma MergeKeyShape(ord: Order, can: Comparable, bound: seq<Key>, k: Key, e: nat)
    requires AllComparable(can) && Columns(bound, e) && k.attno >= 1
    ensures var m := MergeKey(ord, can, bound, k);
            && (m.bound == bound || (k.attno == e && m.bound == bound[..e] + [k]))
            && (k.attno == e && !m.empty ==> m.used)
            && (k.attno == e && k.strategy == Equal && !m.empty ==> m.bound == bound[..e] + [k])
            && (k.attno > e ==> !m.used && !m.empty)
            && (k.attno == |bound| - 1 && !m.empty ==> m.used)
  {
    hide CompareArgs;
    assert |bound| == e + 1 ==> bound[e := k] == bound[..e] + [k];
    assert |bound| == e ==> bound + [k] == bound[..e] + [k];
  }

  lemma MergeQualShape(ord: Order, can: Comparable, b: Bounds, k: Key)
    requires AllComparable(can) && Shaped(b) && k.attno >= 1
    ensures var f := MergeQual(ord, can, b, k);
            f.Folded? ==>
              && Shaped(f.b)
              && (f.b.rest == b.rest || f.b == b.(rest := b.rest + [k]))
              && (f.b.lb == b.lb || |f.b.lb| == k.attno + 1)
              && (f.b.ub == b.ub || |f.b.ub| == k.attno + 1)
  {
    hide MergeKey;
    var e := EqualitySlots(b);
    MergeKeyShape(ord, can, b.lb, k, e);
    MergeKeyShape(ord, can, b.ub, k, e);
    if IsLower(k.strategy) { MergeKeySided(ord, can, b.lb, k, true); }
    if IsUpper(k.strategy) { MergeKeySided(ord, can, b.ub, k, false); }
  }

  lemma MergeKeySided(ord: Order, can: Comparable, bound: seq<Key>, k: Key, lower: bool)
    requires OneSided(bound, lower) && (if lower then IsLower(k.strategy) else IsUpper(k.strategy)) && k.attno >= 1
    ensures OneSided(MergeKey(ord, can, bound, k).bound, lower)
    ensures !MergeKey(ord, can, bound, k).used ==> MergeKey(ord, can, bound, k).bound == bound
  {
    MergeKeyMeaning(ord, can, bound, k, lower, []);
  }

  /** With quals in column order, a key that is left over lies on a column beyond the bounds, and so do all later
      ones. */
  lemma LeftOverKey(ord: Order, can: Comparable, b: Bounds, k: Key)
    requires AllComparable(can) && Shaped(b)
    requires k.attno >= 1 && k.attno >= |b.lb| - 1 && k.attno >= |b.ub| - 1
    ensures var f := MergeQual(ord, can, b, k);
            f.Folded? && f.b.rest != b.rest ==> k.attno > EqualitySlots(b) == EqualitySlots(f.b)
    ensures var f := MergeQual(ord, can, b, k);
            k.attno > EqualitySlots(b) ==> f == Folded(b.(rest := b.rest + [k]))
  {
    hide MergeKey;
    var e := EqualitySlots(b);
    MergeKeyShape(ord, can, b.lb, k, e);
    MergeKeyShape(ord, can, b.ub, k, e);
    if IsLower(k.strategy) { MergeKeySided(ord, can, b.lb, k, true); }
    if IsUpper(k.strategy) { MergeKeySided(ord, can, b.ub, k, false); }
  }

  predicate Ordered(quals: seq<Qual>) {
    forall i, j :: 0 <= i < j < |quals| ==> quals[i].attno <= quals[j].attno
  }

  /** No key of the bounds or left over lies on a column after `top`. */
  ghost predicate UpTo(b: Bounds, top: int) {
    && |b.lb| - 1 <= top && |b.ub| - 1 <= top
    && forall k :: k in b.rest ==> k.attno <= top
  }

  /** All left-over keys lie on columns after the one that the bounds vary on. */
  ghost predicate RestBeyond(b: Bounds)
    requires b.lb != []
  {
    forall k :: k in b.rest ==> k.attno > EqualitySlots(b)
  }

  /** One step of the fold, for quals in column order. */
  lemma StepShape(ord: Order, can: Comparable, b: Bounds, k: Key, top: int)
    requires AllComparable(can) && Shaped(b) && UpTo(b, top) && RestBeyond(b) && k.attno >= 1 && k.attno >= top
    ensures var f := MergeQual(ord, can, b, k); f.Folded? ==> Shaped(f.b) && UpTo(f.b, k.attno) && RestBeyond(f.b)
  {
    MergeQualShape(ord, can, b, k);
    LeftOverKey(ord, can, b, k);
    hide MergeQual, Columns;
    var f := MergeQual(ord, can, b, k);
    if f.Folded? {
      if b.rest != [] {
        assert b.rest[0] in b.rest;
        assert EqualitySlots(f.b) == EqualitySlots(b);
      }
      forall x | x in f.b.rest ensures x.attno <= k.attno && x.attno > EqualitySlots(f.b) {
        assert x in b.rest || x == k;
      }
    }
  }

  /** What the fold keeps after the first `i` quals. */
  ghost predicate FoldedSoFar(ord: Order, can: Comparable, nkeys: nat, quals: seq<Qual>, i: nat, b: Bounds)
    requires i <= |quals|
  {
    && WellFormed(b)
    && (forall row :: BoundsMatch(ord, b, row) <==> SatisfiesAll(ord, quals[..i], row))
    && (AllComparable(can) ==> Shaped(b) && |b.lb| <= nkeys + 1 && |b.ub| <= nkeys + 1)
    && (AllComparable(can) && Ordered(quals) ==> RestBeyond(b) && UpTo(b, if i == 0 then 0 else quals[i - 1].attno))
  }

  lemma FoldStart(ord: Order, can: Comparable, nkeys: nat, quals: seq<Qual>)
    ensures FoldedSoFar(ord, can, nkeys, quals, 0, Bounds([DUMMY], [DUMMY], []))
  {
  }

  lemma FoldStep(ord: Order, can: Comparable, nkeys: nat, quals: seq<Qual>, i: nat, b: Bounds)
    requires i < |quals| && 1 <= quals[i].attno <= nkeys && quals[i].operand.Constant?
    requires FoldedSoFar(ord, can, nkeys, quals, i, b)
    ensures var f := MergeQual(ord, can, b, KeyOf(quals[i]));
            && (f.Folded? || f.NoRows?)
            && (f.Folded? ==> FoldedSoFar(ord, can, nkeys, quals, i + 1, f.b))
            && (f.NoRows? ==> forall row :: !SatisfiesAll(ord, quals, row))
  {
    hide Satisfies, BoundsMatch, MergeQual, SatisfiesAll, AllComparable, Shaped, UpTo, RestBeyond;
    var k := KeyOf(quals[i]);
    var f := MergeQual(ord, can, b, k);
    forall row
      ensures (f.Folded? || f.NoRows?) && (f.Folded? ==> WellFormed(f.b))
      ensures f.Folded? ==> (BoundsMatch(ord, f.b, row) <==> SatisfiesAll(ord, quals[..i + 1], row))
      ensures f.NoRows? ==> !SatisfiesAll(ord, quals, row)
    {
      MergeQualMeaning(ord, can, b, k, row);
      SatisfiesNext(ord, quals, i, row);
    }
    MergeQualMeaning(ord, can, b, k, []);
    if f.Folded? && AllComparable(can) {
      FoldStepShape(ord, can, nkeys, quals, i, b, f.b);
    }
  }

  lemma FoldStepShape(ord: Order, can: Comparable, nkeys: nat, quals: seq<Qual>, i: nat, b: Bounds, b': Bounds)
    requires i < |quals| && 1 <= quals[i].attno <= nkeys && quals[i].operand.Constant?
    requires AllComparable(can) && Shaped(b) && |b.lb| <= nkeys + 1 && |b.ub| <= nkeys + 1
    requires Ordered(quals) ==> RestBeyond(b) && UpTo(b, if i == 0 then 0 else quals[i - 1].attno)
    requires MergeQual(ord, can, b, KeyOf(quals[i])) == Folded(b')
    ensures Shaped(b') && |b'.lb| <= nkeys + 1 && |b'.ub| <= nkeys + 1
    ensures Ordered(quals) ==> RestBeyond(b') && UpTo(b', quals[i].attno)
  {
    hide MergeQual, AllComparable, UpTo, RestBeyond;
    MergeQualShape(ord, can, b, KeyOf(quals[i]));
    if Ordered(quals) {
      StepShape(ord, can, b, KeyOf(quals[i]), if i == 0 then 0 else quals[i - 1].attno);
    }
  }

  /** What folding comes to, qual by qual. */
  function Fold(ord: Order, can: Comparable, nkeys: nat, quals: seq<Qual>): (f: Folded)
    ensures f.Folded? ==> f.b.lb != [] && f.b.ub != []
  {
    if quals == [] then Folded(Bounds([DUMMY], [DUMMY], []))
    else
      var f, q := Fold(ord, can, nkeys, quals[..|quals| - 1]), quals[|quals| - 1];
      if !f.Folded? then f
      else if q.attno < 1 || q.attno > nkeys then Bogus
      else if q.operand.NullConstant? then NoRows
      else if q.operand.Runtime? then NotSupported
      else MergeQual(ord, can, f.b, KeyOf(q))
  }

  lemma {:induction false} FoldStops(ord: Order, can: Comparable, nkeys: nat, quals: seq<Qual>, i: nat)
    requires i <= |quals| && !Fold(ord, can, nkeys, quals[..i]).Folded?
    ensures Fold(ord, can, nkeys, quals) == Fold(ord, can, nkeys, quals[..i])
    decreases |quals| - i
  {
    hide MergeQual;
    if i < |quals| {
      assert quals[..i + 1][..i] == quals[..i];
      FoldStops(ord, can, nkeys, quals, i + 1);
    } else {
      assert quals[..i] == quals;
    }
  }

  /** Folds the quals one by one, stopping at a NULL operand, at a run-time operand or at a contradiction. Whatever
      types can be compared, the bounds and the left-over keys mean exactly what the quals mean, and the fold reports
      that no row matches only if none does. If all types can be compared, the bounds are shaped as the scan keys
      need them and fit their arrays of one slot more than there are key columns; if moreover the quals come in
      column order, left-over keys lie beyond the bounds. */
  method FoldQuals(ord: Order, can: Comparable, nkeys: nat, quals: seq<Qual>) returns (f: Folded)
    ensures f == Fold(ord, can, nkeys, quals)
    ensures f.Folded? ==> WellFormed(f.b)
    ensures f.Folded? ==> forall row :: BoundsMatch(ord, f.b, row) <==> SatisfiesAll(ord, quals, row)
    ensures f.NoRows? ==> forall row :: !SatisfiesAll(ord, quals, row)
    ensures f.NotSupported? ==> exists q :: q in quals && q.operand.Runtime?
    ensures f.Bogus? ==> exists q :: q in quals && !(1 <= q.attno <= nkeys)
    ensures f.Folded? && AllComparable(can) ==> Shaped(f.b) && |f.b.lb| <= nkeys + 1 && |f.b.ub| <= nkeys + 1
    ensures f.Folded? && AllComparable(can) && Ordered(quals) ==> RestBeyond(f.b)
  {
    hide BoundsMatch, MergeQual, SatisfiesAll, AllComparable, Shaped, UpTo, RestBeyond, WellFormed;
    f := Folded(Bounds([DUMMY], [DUMMY], []));
    FoldStart(ord, can, nkeys, quals);
    for i := 0 to |quals|
      invariant f.Folded? && FoldedSoFar(ord, can, nkeys, quals, i, f.b) && f == Fold(ord, can, nkeys, quals[..i])
    {
      hide FoldedSoFar;
      var q := quals[i];
      assert q in quals && quals[..i + 1][..i] == quals[..i];
      if !Fold(ord, can, nkeys, quals[..i + 1]).Folded? { FoldStops(ord, can, nkeys, quals, i + 1); }
      if q.attno < 1 || q.attno > nkeys {
        return Bogus;
      }
      if q.operand.NullConstant? {
        UnsatisfiedIn(ord, quals, i);
        return NoRows;
      }
      if q.operand.Runtime? {
        return NotSupported;
      }
      FoldStep(ord, can, nkeys, quals, i, f.b);
      FoldedWellFormed(ord, can, nkeys, quals, i, f.b);
      f := MergeQual(ord, can, f.b, KeyOf(q));
      if f.NoRows? {
        return;
      }
    }
    assert quals[..|quals|] == quals;
  }

  lemma FoldedWellFormed(ord: Order, can: Comparable, nkeys: nat, quals: seq<Qual>, i: nat, b: Bounds)
    requires i <= |quals| && FoldedSoFar(ord, can, nkeys, quals, i, b)
    ensures b.lb != [] && b.ub != []
  {
  }

  lemma SatisfiesNext(ord: Order, qs: seq<Qual>, i: nat, row: seq<int>)
    requires i < |qs| && qs[i].operand.Constant?
    ensures SatisfiesAll(ord, qs[..i + 1], row)
            <==> SatisfiesAll(ord, qs[..i], row) && Matches(ord, KeyOf(qs[i]), row)
    ensures SatisfiesAll(ord, qs, row) ==> SatisfiesAll(ord, qs[..i + 1], row)
  {
    assert qs[..i + 1] == qs[..i] + [qs[i]];
    if SatisfiesAll(ord, qs[..i + 1], row) {
      assert qs[i] in qs[..i + 1];
      forall q | q in qs[..i] ensures Satisfies(ord, q, row) { assert q in qs[..i + 1]; }
    }
  }

  lemma UnsatisfiedIn(ord: Order, qs: seq<Qual>, i: nat)
    requires i < |qs| && qs[i].operand.NullConstant?
    ensures forall row :: !SatisfiesAll(ord, qs, row)
  {
    forall row ensures !SatisfiesAll(ord, qs, row) {
      assert qs[i] in qs && !Satisfies(ord, qs[i], row);
    }
  }
}
