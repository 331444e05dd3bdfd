/** Expression trees as the planner passes over them: variables, constants, parameters, aggregate calls and everything
    else, which is an operator over its arguments. */
module Expressions {
  datatype Expr =
    | Missing
    | Var(varno: int, attno: int)
    | Const(value: int)
    | Param(id: int)
    | Aggregate(fn: int, args: seq<Expr>)
    | Op(op: int, args: seq<Expr>)

  /** What an expression is evaluated against. */
  datatype Env =
    Env(column: (int, int) -> int, aggregate: Expr -> int, param: int -> int, apply: (int, seq<int>) -> int)

  function Eval(e: Expr, env: Env): int
    decreases e
  {
    match e
    case Missing => 0
    case Var(v, a) => env.column(v, a)
    case Const(c) => c
    case Param(id) => env.param(id)
    case Aggregate(_, _) => env.aggregate(e)
    case Op(op, args) => env.apply(op, seq(|args|, i requires 0 <= i < |args| => Eval(args[i], env)))
  }


  predicate HasAggregate(e: Expr)
    decreases e
  {
    e.Aggregate? || (e.Op? && exists i :: 0 <= i < |e.args| && HasAggregate(e.args[i]))
  }

  /** Operators over arguments of equal values have equal values. */
  lemma EvalOp(e: Expr, f: Expr, env: Env, env': Env)
    requires e.Op? && f.Op? && e.op == f.op && |e.args| == |f.args| && env.apply == env'.apply
    requires forall i :: 0 <= i < |e.args| ==> Eval(e.args[i], env) == Eval(f.args[i], env')
    ensures Eval(e, env) == Eval(f, env')
  {
    assert seq(|e.args|, i requires 0 <= i < |e.args| => Eval(e.args[i], env))
        == seq(|f.args|, i requires 0 <= i < |f.args| => Eval(f.args[i], env'));
  }
}
