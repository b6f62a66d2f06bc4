/**
 Inlining and folding keep meaning. Whatever a body evaluates to by nested calls, its
 inlined form evaluates to in the row that is left, and its folded form, where folding
 succeeds, evaluates to in the same row.
 */
module LambdaMeaning {
  import opened Lambda

  /** Every input the body refers to or calls is in u. */
  ghost predicate Within(e: Expr, u: iset<nat>) {
    match e
    case Const(_) => true
    case LambdaConst(_) => true
    case Param(i, _) => i in u
    case OpExpr(_, es) => forall i :: 0 <= i < |es| ==> Within(es[i], u)
    case CaseExpr(t, y, n) => Within(t, u) && Within(y, u) && Within(n, u)
    case Call(k, es) => k in u && forall i :: 0 <= i < |es| ==> Within(es[i], u)
  }

  ghost const AllInputs: iset<nat> := iset n: nat | true

  lemma {:induction false} WithinAll(e: Expr)
    ensures Within(e, AllInputs)
  {
    match e
    case OpExpr(_, es) => forall i | 0 <= i < |es| ensures Within(es[i], AllInputs) { WithinAll(es[i]); }
    case CaseExpr(t, y, n) => WithinAll(t); WithinAll(y); WithinAll(n);
    case Call(_, es) => forall i | 0 <= i < |es| ensures Within(es[i], AllInputs) { WithinAll(es[i]); }
    case _ =>
  }

  // ---------------------------------------------------------------- nested calls

  /** A result reached within a call depth is the result within any larger depth. */
  lemma {:induction false} MoreFuel(stack: nat, fuel: nat, top: nat, e: Expr, env: seq<Value>)
    requires fuel <= top
    requires Eval(false, stack, fuel, e, env).Ok?
    ensures Eval(false, stack, top, e, env) == Eval(false, stack, fuel, e, env)
    decreases fuel, e, 1
  {
    match e
    case Const(_) =>
    case LambdaConst(_) =>
    case Param(_, _) =>
    case OpExpr(_, es) => MoreFuelAll(stack, fuel, top, es, env);
    case CaseExpr(t, y, n) =>
      MoreFuel(stack, fuel, top, t, env);
      if Holds(Eval(false, stack, fuel, t, env).value) {
        MoreFuel(stack, fuel, top, y, env);
      } else {
        MoreFuel(stack, fuel, top, n, env);
      }
    case Call(k, es) =>
      MoreFuelAll(stack, fuel, top, es, env);
      if env[k].Fn? { MoreFuel(stack, fuel - 1, top - 1, env[k].fn.body, EvalAll(false, stack, fuel, es, env).value); }
  }

  lemma {:induction false} MoreFuelAll(stack: nat, fuel: nat, top: nat, es: seq<Expr>, env: seq<Value>)
    requires fuel <= top
    requires EvalAll(false, stack, fuel, es, env).Ok?
    ensures EvalAll(false, stack, top, es, env) == EvalAll(false, stack, fuel, es, env)
    decreases fuel, es, 0
  {
    if es != [] {
      MoreFuel(stack, fuel, top, es[0], env);
      MoreFuelAll(stack, fuel, top, es[1..], env);
    }
  }

  // ---------------------------------------------------------------- inlining

  /** What input m becomes evaluates, in the new row, to what m holds in the old frame. */
  ghost predicate RepresentsAt(stack: nat, fuel: nat, b: Binding, env: seq<Value>, row: seq<Value>, m: nat) {
    m < |env| ==>
      if m < |b| && b[m].Some? then Eval(false, stack, fuel, b[m].value, row) == Ok(env[m])
      else m < |row| && row[m] == env[m]
  }

  ghost predicate Represents(stack: nat, fuel: nat, u: iset<nat>, b: Binding, env: seq<Value>, row: seq<Value>) {
    forall m: nat :: m in u ==> RepresentsAt(stack, fuel, b, env, row, m)
  }

  /** The inliner's walk: the inlined body means, in the new row, what the body meant in its frame. */
  lemma {:induction false} InlineKeepsMeaning(stack: nat, depth: nat, fuel: nat, top: nat,
                                              e: Expr, u: iset<nat>, b: Binding, env: seq<Value>, row: seq<Value>)
    requires fuel <= top
    requires Within(e, u)
    requires Represents(stack, top, u, b, env, row)
    requires Eval(false, stack, fuel, e, env).Ok?
    requires Inline(depth, e, b).Ok?
    ensures Eval(false, stack, top, Inline(depth, e, b).value, row) == Eval(false, stack, fuel, e, env)
    decreases fuel, e, 1
  {
    match e
    case Const(_) =>
    case LambdaConst(_) =>
    case Param(i, _) =>
      assert RepresentsAt(stack, top, b, env, row, i);
    case OpExpr(op, es) =>
      InlineAllKeepsMeaning(stack, depth, fuel, top, es, u, b, env, row);
    case CaseExpr(t, y, n) =>
      InlineKeepsMeaning(stack, depth, fuel, top, t, u, b, env, row);
      if Holds(Eval(false, stack, fuel, t, env).value) {
        InlineKeepsMeaning(stack, depth, fuel, top, y, u, b, env, row);
      } else {
        InlineKeepsMeaning(stack, depth, fuel, top, n, u, b, env, row);
      }
    case Call(k, es) =>
      assert RepresentsAt(stack, top, b, env, row, k);
      InlineAllKeepsMeaning(stack, depth, fuel, top, es, u, b, env, row);
      var vs := EvalAll(false, stack, fuel, es, env).value;
      var xs := InlineAll(depth, es, b).value;
      if b[k].value.LambdaConst? {
        var child := b[k].value.lam;
        forall m: nat ensures RepresentsAt(stack, top, AllBound(xs), vs, row, m) { }
        WithinAll(child.body);
        InlineKeepsMeaning(stack, depth - 1, fuel - 1, top, child.body, AllInputs, AllBound(xs), vs, row);
      } else if env[k].Fn? {
        MoreFuel(stack, fuel - 1, top - 1, env[k].fn.body, vs);
      }
  }

  lemma {:induction false} InlineAllKeepsMeaning(stack: nat, depth: nat, fuel: nat, top: nat,
                                                 es: seq<Expr>, u: iset<nat>, b: Binding, env: seq<Value>, row: seq<Value>)
    requires fuel <= top
    requires forall i :: 0 <= i < |es| ==> Within(es[i], u)
    requires Represents(stack, top, u, b, env, row)
    requires EvalAll(false, stack, fuel, es, env).Ok?
    requires InlineAll(depth, es, b).Ok?
    ensures EvalAll(false, stack, top, InlineAll(depth, es, b).value, row) == EvalAll(false, stack, fuel, es, env)
    ensures var xs, vs := InlineAll(depth, es, b).value, EvalAll(false, stack, fuel, es, env).value;
            forall i :: 0 <= i < |es| ==> Eval(false, stack, top, xs[i], row) == Ok(vs[i])
    decreases fuel, es, 0
  {
    if es != [] {
      InlineKeepsMeaning(stack, depth, fuel, top, es[0], u, b, env, row);
      InlineAllKeepsMeaning(stack, depth, fuel, top, es[1..], u, b, env, row);
      assert InlineAll(depth, es, b).value[1..] == InlineAll(depth, es[1..], b).value;
    }
  }

  // ---------------------------------------------------------------- folding

  /** v' is v, or v with the body of the lambda it is folded. */
  ghost predicate Same(v: Value, v': Value) {
    v' == v || (v.Fn? && v'.Fn? && v'.fn.arity == v.fn.arity && Fold(v.fn.body) == Ok(v'.fn.body))
  }

  ghost predicate SameAll(vs: seq<Value>, vs': seq<Value>) {
    |vs| == |vs'| && forall i :: 0 <= i < |vs| ==> Same(vs[i], vs'[i])
  }

  lemma SameOperands(op: Operator, vs: seq<Value>, vs': seq<Value>)
    requires SameAll(vs, vs')
    ensures Operate(op, vs') == Operate(op, vs)
  {
    if exists i :: 0 <= i < |vs| && vs[i].Null? {
      var i :| 0 <= i < |vs| && vs[i].Null?;
      assert vs'[i].Null?;
    } else if exists i :: 0 <= i < |vs| && vs[i].Fn? {
      var i :| 0 <= i < |vs| && vs[i].Fn?;
      assert vs'[i].Fn?;
      assert forall j :: 0 <= j < |vs| ==> !vs'[j].Null?;
    } else {
      assert vs' == vs;
    }
  }

  /** The same body, or its folded form, in frames that differ only in folded lambdas. */
  lemma {:induction false} FoldKeepsMeaning(stack: nat, fuel: nat, e: Expr, e': Expr, env: seq<Value>, env': seq<Value>)
    requires e' == e || Fold(e) == Ok(e')
    requires SameAll(env, env')
    requires Eval(false, stack, fuel, e, env).Ok?
    ensures Eval(false, stack, fuel, e', env').Ok?
    ensures Same(Eval(false, stack, fuel, e, env).value, Eval(false, stack, fuel, e', env').value)
    decreases fuel, e, 1
  {
    match e
    case Const(_) =>
    case LambdaConst(_) =>
    case Param(i, _) => assert Same(env[i], env'[i]);
    case OpExpr(op, es) =>
      var vs := EvalAll(false, stack, fuel, es, env).value;
      if e' == e {
        FoldAllKeepsMeaning(stack, fuel, es, es, env, env');
        SameOperands(op, vs, EvalAll(false, stack, fuel, es, env').value);
      } else {
        var xs := FoldAll(es).value;
        FoldAllKeepsMeaning(stack, fuel, es, xs, env, env');
        var vs' := EvalAll(false, stack, fuel, xs, env').value;
        SameOperands(op, vs, vs');
        FoldedOperator(stack, fuel, op, xs, env');
      }
    case CaseExpr(t, y, n) =>
      var t' := if e' == e then t else Fold(t).value;
      FoldKeepsMeaning(stack, fuel, t, t', env, env');
      if Holds(Eval(false, stack, fuel, t, env).value) {
        FoldKeepsMeaning(stack, fuel, y, if e' == e then y else Fold(y).value, env, env');
      } else {
        FoldKeepsMeaning(stack, fuel, n, if e' == e then n else Fold(n).value, env, env');
      }
    case Call(k, es) =>
      var xs := if e' == e then es else FoldAll(es).value;
      FoldAllKeepsMeaning(stack, fuel, es, xs, env, env');
      assert Same(env[k], env'[k]);
      if env[k].Fn? {
        FoldKeepsMeaning(stack, fuel - 1, env[k].fn.body, env'[k].fn.body,
                         EvalAll(false, stack, fuel, es, env).value, EvalAll(false, stack, fuel, xs, env').value);
      }
  }

  lemma {:induction false} FoldAllKeepsMeaning(stack: nat, fuel: nat, es: seq<Expr>, xs: seq<Expr>, env: seq<Value>, env': seq<Value>)
    requires xs == es || FoldAll(es) == Ok(xs)
    requires SameAll(env, env')
    requires EvalAll(false, stack, fuel, es, env).Ok?
    ensures EvalAll(false, stack, fuel, xs, env').Ok?
    ensures SameAll(EvalAll(false, stack, fuel, es, env).value, EvalAll(false, stack, fuel, xs, env').value)
    decreases fuel, es, 0
  {
    if es != [] {
      FoldKeepsMeaning(stack, fuel, es[0], xs[0], env, env');
      FoldAllKeepsMeaning(stack, fuel, es[1..], xs[1..], env, env');
    }
  }

  lemma {:induction false} EvalAllAt(hoist: bool, stack: nat, fuel: nat, xs: seq<Expr>, env: seq<Value>, i: nat)
    requires i < |xs| && EvalAll(hoist, stack, fuel, xs, env).Ok?
    ensures Eval(hoist, stack, fuel, xs[i], env) == Ok(EvalAll(hoist, stack, fuel, xs, env).value[i])
  {
    if i > 0 { EvalAllAt(hoist, stack, fuel, xs[1..], env, i - 1); }
  }

  /** An operator computed early gives what the operator gives on the row. */
  lemma {:induction false} FoldedOperator(stack: nat, fuel: nat, op: Operator, xs: seq<Expr>, env: seq<Value>)
    requires EvalAll(false, stack, fuel, xs, env).Ok?
    requires FoldOperator(op, xs).Ok?
    ensures Eval(false, stack, fuel, FoldOperator(op, xs).value, env) == Operate(op, EvalAll(false, stack, fuel, xs, env).value)
  {
    var vs := EvalAll(false, stack, fuel, xs, env).value;
    forall i | 0 <= i < |xs| ensures Eval(false, stack, fuel, xs[i], env) == Ok(vs[i]) {
      EvalAllAt(false, stack, fuel, xs, env, i);
    }
    if exists i :: 0 <= i < |xs| && xs[i] == Const(Null) {
      var i :| 0 <= i < |xs| && xs[i] == Const(Null);
      assert vs[i] == Null;
    } else if forall i :: 0 <= i < |xs| ==> xs[i].Const? {
      assert vs == seq(|xs|, i requires 0 <= i < |xs| => if xs[i].Const? then xs[i].val else Null);
    }
  }
}
