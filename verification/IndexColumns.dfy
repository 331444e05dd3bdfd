/** Renumbering of column references for evaluation on index tuples: a reference to a table column becomes a reference
    to the position of that column in the index. */
module IndexColumns {
  import opened Expressions
  import opened Options

  const INDEX := 65002

  /** One column of the index: its position, and what it holds. */
  datatype Entry = Entry(resno: nat, expr: Expr)

  predicate AllVars(entries: seq<Entry>) {
    forall i :: 0 <= i < |entries| ==> entries[i].expr.Var?
  }

  /** Index columns are ordinary columns, at positions from 1 on that are all different. */
  ghost predicate Positions(entries: seq<Entry>) {
    && (forall i :: 0 <= i < |entries| && entries[i].expr.Var? ==> entries[i].expr.attno >= 0)
    && (forall i :: 0 <= i < |entries| ==> entries[i].resno >= 1)
    && forall i, j :: 0 <= i < j < |entries| ==> entries[i].resno != entries[j].resno
  }

  predicate Holds(e: Entry, attno: int) {
    e.expr.Var? && e.expr.attno == attno
  }

  predicate Indexed(entries: seq<Entry>, attno: int) {
    exists i :: 0 <= i < |entries| && Holds(entries[i], attno)
  }

  /** The last position that holds a column, or 0. */
  function LastPosition(entries: seq<Entry>, attno: int): nat {
    if entries == [] then 0
    else
      var last := entries[|entries| - 1];
      if Holds(last, attno) then last.resno else LastPosition(entries[..|entries| - 1], attno)
  }

  lemma {:induction false} LastPositionHolds(entries: seq<Entry>, attno: int) returns (k: nat)
    requires Positions(entries)
    ensures LastPosition(entries, attno) != 0 <==> Indexed(entries, attno)
    ensures Indexed(entries, attno) ==>
              && k < |entries| && Holds(entries[k], attno) && entries[k].resno == LastPosition(entries, attno)
              && forall i :: k < i < |entries| ==> !Holds(entries[i], attno)
  {
    k := 0;
    if entries != [] {
      k := |entries| - 1;
      if !Holds(entries[k], attno) {
        var rest := entries[..k];
        k := LastPositionHolds(rest, attno);
        assert Indexed(rest, attno) <==> Indexed(entries, attno) by {
          if Indexed(rest, attno) { assert Holds(entries[k], attno); }
          if Indexed(entries, attno) {
            var i :| 0 <= i < |entries| && Holds(entries[i], attno);
            assert Holds(rest[i], attno);
          }
        }
      }
    }
  }

  /** The mapping has an entry for every column of the index, and its entries are last positions. */
  ghost predicate MapsTo(entries: seq<Entry>, positions: seq<nat>) {
    && (forall i :: 0 <= i < |entries| ==> entries[i].expr.Var? && 0 <= entries[i].expr.attno < |positions|)
    && forall a :: 0 <= a < |positions| ==> positions[a] == LastPosition(entries, a)
  }

  /** Fills the mapping, or fails on an index over an expression. Of several positions with one column the last wins. */
  method BuildMapping(entries: seq<Entry>) returns (r: Option<seq<nat>>)
    requires Positions(entries)
    ensures r.Some? <==> AllVars(entries)
    ensures r.Some? ==> MapsTo(entries, r.value)
  {
    var maxattno := 0;
    for k := 0 to |entries|
      invariant maxattno >= 0
      invariant forall i :: 0 <= i < k ==> entries[i].expr.Var? && entries[i].expr.attno <= maxattno
    {
      if !entries[k].expr.Var? {
        return None;
      }
      if entries[k].expr.attno > maxattno {
        maxattno := entries[k].expr.attno;
      }
    }
    var mapping := new nat[maxattno + 1](_ => 0);
    for k := 0 to |entries|
      invariant MapsTo(entries[..k], mapping[..])
    {
      ghost var before := mapping[..];
      mapping[entries[k].expr.attno] := entries[k].resno;
      assert entries[..k + 1][..k] == entries[..k];
      assert mapping[..] == before[entries[k].expr.attno := entries[k].resno];
    }
    assert entries[..|entries|] == entries;
    return Some(mapping[..]);
  }

  /** Position for a table column; 0 if there is none. System columns keep their negative numbers. */
  function Lookup(positions: seq<nat>, attno: int): int {
    if attno < 0 then attno
    else if attno >= |positions| then 0
    else positions[attno]
  }

  /** The rewritten expression, or a failure on a reference to another table or to a column not in the index. */
  function Fix(e: Expr, rel: int, positions: seq<nat>): Option<Expr>
    decreases e, 1, 0
  {
    match e
    case Var(v, a) => if v != rel || Lookup(positions, a) == 0 then None else Some(Var(INDEX, Lookup(positions, a)))
    case Aggregate(fn, args) =>
      (match FixArgs(e, rel, positions, |args|)
       case None => None
       case Some(out) => Some(Aggregate(fn, out)))
    case Op(op, args) =>
      (match FixArgs(e, rel, positions, |args|)
       case None => None
       case Some(out) => Some(Op(op, out)))
    case _ => Some(e)
  }

  function FixArgs(e: Expr, rel: int, positions: seq<nat>, n: nat): (r: Option<seq<Expr>>)
    requires (e.Aggregate? || e.Op?) && n <= |e.args|
    ensures r.Some? ==> |r.value| == n
    decreases e, 0, n
  {
    if n == 0 then Some([])
    else
      match FixArgs(e, rel, positions, n - 1)
      case None => None
      case Some(out) =>
        match Fix(e.args[n - 1], rel, positions)
        case None => None
        case Some(x) => Some(out + [x])
  }

  /** Every reference is to the table, and to a system column or a column of the index. */
  predicate Covered(e: Expr, rel: int, entries: seq<Entry>)
    decreases e
  {
    match e
    case Var(v, a) => v == rel && (a < 0 || Indexed(entries, a))
    case Aggregate(_, args) => forall i :: 0 <= i < |args| ==> Covered(args[i], rel, entries)
    case Op(_, args) => forall i :: 0 <= i < |args| ==> Covered(args[i], rel, entries)
    case _ => true
  }

  /** What position `i` of the index tuple of a row holds. */
  function Held(entries: seq<Entry>, i: int, env: Env): int {
    if entries == [] then 0
    else
      var last := entries[|entries| - 1];
      if last.resno == i then Eval(last.expr, env) else Held(entries[..|entries| - 1], i, env)
  }

  lemma {:induction false} HeldAt(entries: seq<Entry>, k: nat, env: Env)
    requires Positions(entries) && k < |entries|
    ensures Held(entries, entries[k].resno, env) == Eval(entries[k].expr, env)
  {
    if k < |entries| - 1 { HeldAt(entries[..|entries| - 1], k, env); }
  }

  /** The index tuple of a row, as the surroundings of a rewritten expression. */
  function Projected(env: Env, rel: int, entries: seq<Entry>): Env {
    env.(column := (v, i) => if v != INDEX then 0 else if i < 0 then env.column(rel, i) else Held(entries, i, env))
  }

  lemma LookupFinds(positions: seq<nat>, entries: seq<Entry>, rel: int, attno: int, env: Env)
    requires MapsTo(entries, positions) && Positions(entries)
    requires forall i :: 0 <= i < |entries| ==> entries[i].expr.varno == rel
    ensures Lookup(positions, attno) != 0 <==> attno < 0 || Indexed(entries, attno)
    ensures Lookup(positions, attno) != 0 ==>
              Projected(env, rel, entries).column(INDEX, Lookup(positions, attno)) == env.column(rel, attno)
  {
    if attno >= 0 {
      var k := LastPositionHolds(entries, attno);
      if Indexed(entries, attno) { HeldAt(entries, k, env); }
    }
  }

  /** Rewriting succeeds exactly when every reference is covered. */
  lemma {:induction false} FixesExactlyCovered(e: Expr, rel: int, positions: seq<nat>, entries: seq<Entry>)
    requires MapsTo(entries, positions) && Positions(entries)
    requires forall i :: 0 <= i < |entries| ==> entries[i].expr.varno == rel
    ensures Fix(e, rel, positions).Some? <==> Covered(e, rel, entries)
    decreases e, 1, 0
  {
    if e.Var? {
      LookupFinds(positions, entries, rel, e.attno, Env((_, _) => 0, _ => 0, _ => 0, (_, _) => 0));
    } else if e.Aggregate? || e.Op? {
      FixesArgs(e, rel, positions, entries, |e.args|);
    }
  }

  lemma {:induction false} FixesArgs(e: Expr, rel: int, positions: seq<nat>, entries: seq<Entry>, n: nat)
    requires (e.Aggregate? || e.Op?) && n <= |e.args| && MapsTo(entries, positions) && Positions(entries)
    requires forall i :: 0 <= i < |entries| ==> entries[i].expr.varno == rel
    ensures FixArgs(e, rel, positions, n).Some? <==> forall i :: 0 <= i < n ==> Covered(e.args[i], rel, entries)
    decreases e, 0, n
  {
    if n > 0 {
      FixesArgs(e, rel, positions, entries, n - 1);
      FixesExactlyCovered(e.args[n - 1], rel, positions, entries);
    }
  }

  /** The rewritten expression means on the index tuple what the original means on the row. */
  lemma {:induction false} FixKeepsMeaning(e: Expr, rel: int, positions: seq<nat>, entries: seq<Entry>, env: Env)
    requires MapsTo(entries, positions) && Positions(entries) && !HasAggregate(e)
    requires forall i :: 0 <= i < |entries| ==> entries[i].expr.varno == rel
    requires Fix(e, rel, positions).Some?
    ensures Eval(Fix(e, rel, positions).value, Projected(env, rel, entries)) == Eval(e, env)
    decreases e, 1, 0
  {
    if e.Var? {
      LookupFinds(positions, entries, rel, e.attno, env);
    } else if e.Op? {
      FixKeepsArgs(e, rel, positions, entries, env, |e.args|);
      EvalOp(Fix(e, rel, positions).value, e, Projected(env, rel, entries), env);
    }
  }

  lemma {:induction false} FixKeepsArgs(e: Expr, rel: int, positions: seq<nat>, entries: seq<Entry>, env: Env, n: nat)
    requires e.Op? && n <= |e.args| && MapsTo(entries, positions) && Positions(entries) && !HasAggregate(e)
    requires forall i :: 0 <= i < |entries| ==> entries[i].expr.varno == rel
    requires FixArgs(e, rel, positions, n).Some?
    ensures forall i :: 0 <= i < n ==>
              Eval(FixArgs(e, rel, positions, n).value[i], Projected(env, rel, entries)) == Eval(e.args[i], env)
    decreases e, 0, n
  {
    if n > 0 {
      FixKeepsArgs(e, rel, positions, entries, env, n - 1);
      FixKeepsMeaning(e.args[n - 1], rel, positions, entries, env);
    }
  }
}
