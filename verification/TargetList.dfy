/** Splitting of a target list: aggregates and aggregate-free subexpressions move into the list that the aggregation
    below computes, and the expressions above refer to its columns. */
module TargetList {
  import opened Expressions
  import opened Options

  const OUTER := 65001

  /** The child list's row, as the surroundings of an expression above it. */
  function Over(env: Env, items: seq<Expr>): Env {
    env.(column := (v, a) => if v == OUTER && 1 <= a <= |items| then Eval(items[a - 1], env) else 0)
  }

  /** `f` over the row of `items` means what `e` means. */
  ghost predicate SameMeaning(e: Expr, f: Expr, items: seq<Expr>) {
    forall env: Env :: Eval(f, Over(env, items)) == Eval(e, env)
  }

  /** Nothing is left in `f` but references to the first `n` items, constants, parameters and operators. */
  predicate Resolved(f: Expr, n: nat)
    decreases f
  {
    match f
    case Var(v, a) => v == OUTER && 1 <= a <= n
    case Aggregate(_, _) => false
    case Op(_, args) => forall i :: 0 <= i < |args| ==> Resolved(args[i], n)
    case _ => true
  }

  /** What the child may be asked for: an approximate aggregate, or something free of aggregates that needs
      computing. */
  predicate Askable(e: Expr, approx: int) {
    if e.Aggregate? then e.fn == approx else !HasAggregate(e) && (e.Var? || e.Op?)
  }

  ghost predicate ChildListOk(items: seq<Expr>, approx: int) {
    && (forall i, j :: 0 <= i < j < |items| ==> items[i] != items[j])
    && forall i :: 0 <= i < |items| ==> Askable(items[i], approx)
  }

  /** An aggregate other than the approximate one occurs, not counting arguments of aggregates. */
  predicate HasExact(e: Expr, approx: int)
    decreases e
  {
    if e.Aggregate? then e.fn != approx
    else e.Op? && exists i :: 0 <= i < |e.args| && HasExact(e.args[i], approx)
  }

  lemma {:induction false} ExactIsAggregate(e: Expr, approx: int)
    ensures HasExact(e, approx) ==> HasAggregate(e)
    decreases e
  {
    if e.Op? {
      forall i | 0 <= i < |e.args| ensures HasExact(e.args[i], approx) ==> HasAggregate(e.args[i]) {
        ExactIsAggregate(e.args[i], approx);
      }
    }
  }

  /** References stay valid, with the same meaning, as the child list grows. */
  lemma {:induction false} GrowingKeepsMeaning(f: Expr, items: seq<Expr>, more: seq<Expr>, env: Env)
    requires Resolved(f, |items|) && items <= more
    ensures Resolved(f, |more|) && Eval(f, Over(env, more)) == Eval(f, Over(env, items))
    decreases f
  {
    if f.Op? {
      forall i | 0 <= i < |f.args|
        ensures Resolved(f.args[i], |more|) && Eval(f.args[i], Over(env, more)) == Eval(f.args[i], Over(env, items))
      {
        GrowingKeepsMeaning(f.args[i], items, more, env);
      }
      EvalOp(f, f, Over(env, more), Over(env, items));
    }
  }

  /** Rewritten arguments and the child list so far. */
  ghost predicate ArgsDone(args: seq<Expr>, out: seq<Expr>, items: seq<Expr>) {
    && |out| <= |args|
    && forall i :: 0 <= i < |out| ==> Resolved(out[i], |items|) && SameMeaning(args[i], out[i], items)
  }

  /** One more argument is rewritten while the child list grows. */
  lemma ArgsGrow(args: seq<Expr>, out: seq<Expr>, items: seq<Expr>, more: seq<Expr>, f: Expr)
    requires ArgsDone(args, out, items) && items <= more && |out| < |args|
    requires Resolved(f, |more|) && SameMeaning(args[|out|], f, more)
    ensures ArgsDone(args, out + [f], more)
  {
    forall i | 0 <= i < |out| ensures Resolved(out[i], |more|) && SameMeaning(args[i], out[i], more) {
      GrowingKeepsMeaning(out[i], items, more, Env((_, _) => 0, _ => 0, _ => 0, (_, _) => 0));
      forall env: Env ensures Eval(out[i], Over(env, more)) == Eval(args[i], env) {
        GrowingKeepsMeaning(out[i], items, more, env);
        assert Eval(out[i], Over(env, items)) == Eval(args[i], env);
      }
    }
  }

  lemma ArgsMakeOp(e: Expr, out: seq<Expr>, items: seq<Expr>)
    requires e.Op? && |out| == |e.args| && ArgsDone(e.args, out, items)
    ensures Resolved(Op(e.op, out), |items|) && SameMeaning(e, Op(e.op, out), items)
  {
    forall env: Env ensures Eval(Op(e.op, out), Over(env, items)) == Eval(e, env) {
      forall i | 0 <= i < |out| ensures Eval(out[i], Over(env, items)) == Eval(e.args[i], env) {
        assert SameMeaning(e.args[i], out[i], items);
      }
      EvalOp(Op(e.op, out), e, Over(env, items), env);
    }
  }

  lemma ReferenceMeans(e: Expr, items: seq<Expr>, attno: nat)
    requires 1 <= attno <= |items| && items[attno - 1] == e
    ensures Resolved(Var(OUTER, attno), |items|) && SameMeaning(e, Var(OUTER, attno), items)
  {
  }

  lemma LeafMeans(e: Expr, items: seq<Expr>)
    requires e.Missing? || e.Const? || e.Param?
    ensures Resolved(e, |items|) && SameMeaning(e, e, items)
  {
  }

  class ChildList {
    const approx: int
    var items: seq<Expr>

    constructor (approx: int)
      ensures this.approx == approx && items == []
    {
      this.approx, items := approx, [];
    }

    ghost predicate Valid()
      reads this
    {
      ChildListOk(items, approx)
    }

    /** Column number of the expression, which joins the list unless it is there already. */
    method AddDistinct(e: Expr) returns (attno: nat)
      requires Valid() && Askable(e, approx)
      modifies this
      ensures Valid() && items == (if e in old(items) then old(items) else old(items) + [e])
      ensures 1 <= attno <= |items| && items[attno - 1] == e
    {
      var k := 0;
      while k < |items|
        invariant 0 <= k <= |items| && e !in items[..k]
      {
        if e == items[k] {
          return k + 1;
        }
        k := k + 1;
      }
      attno := |items| + 1;
      items := items + [e];
    }

    /** Rewrites one expression. The result means the same over the row of the child list, and it fails exactly when an
        exact aggregate occurs. */
    method Rewrite(e: Expr) returns (r: Option<Expr>)
      requires Valid()
      modifies this
      ensures Valid() && old(items) <= items
      ensures r.None? <==> HasExact(e, approx)
      ensures r.Some? ==> Resolved(r.value, |items|) && SameMeaning(e, r.value, items)
      decreases e
    {
      ExactIsAggregate(e, approx);
      assert e.Op? ==> ArgsDone(e.args, [], items);
      hide SameMeaning, Resolved, ArgsDone, ChildListOk, HasAggregate;
      if e.Missing? {
        LeafMeans(e, items);
        return Some(Missing);
      }
      if e.Aggregate? {
        if e.fn != approx {
          return None;
        }
        var attno := AddDistinct(e);
        ReferenceMeans(e, items, attno);
        return Some(Var(OUTER, attno));
      }
      if !HasAggregate(e) && !e.Const? && !e.Param? {
        var attno := AddDistinct(e);
        ReferenceMeans(e, items, attno);
        return Some(Var(OUTER, attno));
      }
      if !e.Op? {
        LeafMeans(e, items);
        return Some(e);
      }
      var out := [];
      for i := 0 to |e.args|
        invariant Valid() && old(items) <= items
        invariant |out| == i && ArgsDone(e.args, out, items)
        invariant forall x :: 0 <= x < i ==> !HasExact(e.args[x], approx)
      {
        ghost var before := items;
        var x := Rewrite(e.args[i]);
        if x.None? {
          return None;
        }
        ArgsGrow(e.args, out, before, items, x.value);
        out := out + [x.value];
      }
      ArgsMakeOp(e, out, items);
      return Some(Op(e.op, out));
    }

    /** Rewrites a whole target list; what has been rewritten first keeps its meaning as the child list grows. */
    method RewriteAll(targets: seq<Expr>) returns (r: Option<seq<Expr>>)
      requires Valid()
      modifies this
      ensures Valid() && old(items) <= items
      ensures r.None? <==> exists i :: 0 <= i < |targets| && HasExact(targets[i], approx)
      ensures r.Some? ==> |r.value| == |targets| && ArgsDone(targets, r.value, items)
    {
      var out := [];
      for i := 0 to |targets|
        invariant Valid() && old(items) <= items
        invariant |out| == i && ArgsDone(targets, out, items)
        invariant forall x :: 0 <= x < i ==> !HasExact(targets[x], approx)
      {
        ghost var before := items;
        var x := Rewrite(targets[i]);
        if x.None? {
          return None;
        }
        ArgsGrow(targets, out, before, items, x.value);
        out := out + [x.value];
      }
      return Some(out);
    }
  }
}
