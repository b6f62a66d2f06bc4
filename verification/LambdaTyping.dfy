/**
 Signatures. A body that fits its lambda's signature flattens without error into a
 first-order body, the nesting depth needed is bounded by the signature, folding keeps
 the signature, and evaluation returns a value of its type or a division by zero.
 */
module LambdaTyping {
  import opened Lambda
  import opened LambdaMeaning
  import opened Wrappers

  datatype Type = TNum | TFun(inputs: seq<Type>)

  type Scope = seq<Type>

  /** Order of a signature: how deep function inputs nest in it. */
  function Order(t: Type): nat
    decreases t, 1
  {
    match t
    case TNum => 0
    case TFun(ts) => 1 + OrderOf(ts)
  }

  function OrderOf(ts: seq<Type>): (n: nat)
    ensures forall i :: 0 <= i < |ts| ==> Order(ts[i]) <= n
    decreases ts, 0
  {
    if ts == [] then 0
    else
      var rest := OrderOf(ts[1..]);
      assert forall i :: 1 <= i < |ts| ==> ts[i] == ts[1..][i - 1];
      if Order(ts[0]) > rest then Order(ts[0]) else rest
  }

  predicate Fits(e: Expr, g: Scope, t: Type)
    decreases e
  {
    match e
    case Const(v) => t.TNum? && !v.Fn?
    case LambdaConst(l) => t.TFun? && |t.inputs| == l.arity && Fits(l.body, t.inputs, TNum)
    case Param(i, isFn) => i < |g| && g[i] == t && isFn == t.TFun?
    case OpExpr(op, es) =>
      && t.TNum?
      && |es| == (if op.Negate? || op.Absolute? then 1 else 2)
      && forall i :: 0 <= i < |es| ==> Fits(es[i], g, TNum)
    case CaseExpr(c, y, n) => t.TNum? && Fits(c, g, TNum) && Fits(y, g, TNum) && Fits(n, g, TNum)
    case Call(k, es) =>
      && t.TNum? && k < |g| && g[k].TFun? && |es| == |g[k].inputs|
      && forall i :: 0 <= i < |es| ==> Fits(es[i], g, g[k].inputs[i])
  }

  predicate LambdaFits(l: LambdaValue, ts: Scope) {
    |ts| == l.arity && Fits(l.body, ts, TNum)
  }

  predicate ValueFits(v: Value, t: Type) {
    match t
    case TNum => !v.Fn?
    case TFun(ts) => v.Fn? && LambdaFits(v.fn, ts)
  }

  predicate FrameFits(vs: seq<Value>, g: Scope) {
    |vs| == |g| && forall i :: 0 <= i < |g| ==> ValueFits(vs[i], g[i])
  }

  /** A binding that replaces the inputs of scope g that are in u by expressions of scope d. */
  ghost predicate BindingFits(b: Binding, g: Scope, d: Scope, u: iset<nat>) {
    && |b| == |g|
    && forall m: nat :: m in u && m < |g| ==>
      match b[m]
      case Some(x) => Fits(x, d, g[m])
      case None => g[m].TNum? && m < |d| && d[m].TNum?
  }

  /**
   A walk over a body that fits its scope succeeds within the depth its signature
   gives, and the inlined body fits the scope of what stays open.
   */
  lemma {:induction false} InlineFits(depth: nat, e: Expr, g: Scope, d: Scope, t: Type, b: Binding, u: iset<nat>)
    requires Fits(e, g, t) && Within(e, u)
    requires BindingFits(b, g, d, u)
    requires forall k :: 0 <= k < |g| ==> Order(g[k]) <= depth
    ensures Inline(depth, e, b).Ok?
    ensures Fits(Inline(depth, e, b).value, d, t)
    decreases depth, e, 1
  {
    match e
    case Const(_) =>
    case LambdaConst(_) =>
    case Param(i, _) =>
    case OpExpr(op, es) =>
      InlineAllFit(depth, es, g, d, seq(|es|, _ => TNum), b, u);
    case CaseExpr(c, y, n) =>
      InlineFits(depth, c, g, d, TNum, b, u);
      InlineFits(depth, y, g, d, TNum, b, u);
      InlineFits(depth, n, g, d, TNum, b, u);
    case Call(k, es) =>
      var ts := g[k].inputs;
      InlineAllFit(depth, es, g, d, ts, b, u);
      if b[k].value.LambdaConst? {
        var child := b[k].value.lam;
        var xs := InlineAll(depth, es, b).value;
        WithinAll(child.body);
        InlineFits(depth - 1, child.body, ts, d, TNum, AllBound(xs), AllInputs);
      }
  }

  lemma {:induction false} InlineAllFit(depth: nat, es: seq<Expr>, g: Scope, d: Scope, ts: seq<Type>, b: Binding, u: iset<nat>)
    requires |ts| == |es|
    requires forall i :: 0 <= i < |es| ==> Fits(es[i], g, ts[i]) && Within(es[i], u)
    requires BindingFits(b, g, d, u)
    requires forall k :: 0 <= k < |g| ==> Order(g[k]) <= depth
    ensures InlineAll(depth, es, b).Ok?
    ensures forall i :: 0 <= i < |es| ==> Fits(InlineAll(depth, es, b).value[i], d, ts[i])
    decreases depth, es, 0
  {
    if es != [] {
      InlineFits(depth, es[0], g, d, ts[0], b, u);
      InlineAllFit(depth, es[1..], g, d, ts[1..], b, u);
      assert forall i :: 1 <= i < |es| ==> InlineAll(depth, es, b).value[i] == InlineAll(depth, es[1..], b).value[i - 1];
    }
  }

  // ---------------------------------------------------------------- flattening

  /** No call of an input is left outside embedded lambdas. */
  predicate FirstOrder(e: Expr) {
    match e
    case Const(_) => true
    case LambdaConst(_) => true
    case Param(_, _) => true
    case OpExpr(_, es) => forall i :: 0 <= i < |es| ==> FirstOrder(es[i])
    case CaseExpr(c, y, n) => FirstOrder(c) && FirstOrder(y) && FirstOrder(n)
    case Call(_, _) => false
  }

  lemma {:induction false} NumericScopeFirstOrder(e: Expr, d: Scope, t: Type)
    requires Fits(e, d, t)
    requires forall k :: 0 <= k < |d| ==> d[k].TNum?
    ensures FirstOrder(e)
  {
    match e
    case OpExpr(_, es) =>
      forall i | 0 <= i < |es| ensures FirstOrder(es[i]) { NumericScopeFirstOrder(es[i], d, TNum); }
    case CaseExpr(c, y, n) =>
      NumericScopeFirstOrder(c, d, TNum); NumericScopeFirstOrder(y, d, TNum); NumericScopeFirstOrder(n, d, TNum);
    case _ =>
  }

  /** An input is function-valued in a fitting body only if the signature says so. */
  lemma {:induction false} FunctionInputIsFunction(e: Expr, g: Scope, t: Type, p: nat)
    requires Fits(e, g, t) && IsFunctionInput(e, p)
    ensures p < |g| && g[p].TFun?
  {
    match e
    case OpExpr(_, es) =>
      var i :| 0 <= i < |es| && IsFunctionInput(es[i], p);
      FunctionInputIsFunction(es[i], g, TNum, p);
    case CaseExpr(c, y, n) =>
      var x := if IsFunctionInput(c, p) then c else if IsFunctionInput(y, p) then y else n;
      FunctionInputIsFunction(x, g, TNum, p);
    case Call(k, es) =>
      if k != p {
        var i :| 0 <= i < |es| && IsFunctionInput(es[i], p);
        FunctionInputIsFunction(es[i], g, g[k].inputs[i], p);
      }
    case _ =>
  }

  /** The inputs of scope g that a fitting body mentions: numbers, or functions the prescan sees. */
  ghost function Mentioned(e: Expr, g: Scope): iset<nat> {
    iset p: nat | p < |g| && (g[p].TFun? ==> IsFunctionInput(e, p))
  }

  lemma {:induction false} WithinLarger(e: Expr, u: iset<nat>, w: iset<nat>)
    requires Within(e, u) && u <= w
    ensures Within(e, w)
  {
    match e
    case OpExpr(_, es) => forall i | 0 <= i < |es| ensures Within(es[i], w) { WithinLarger(es[i], u, w); }
    case CaseExpr(c, y, n) => WithinLarger(c, u, w); WithinLarger(y, u, w); WithinLarger(n, u, w);
    case Call(_, es) => forall i | 0 <= i < |es| ensures Within(es[i], w) { WithinLarger(es[i], u, w); }
    case _ =>
  }

  lemma {:induction false} WithinMentioned(e: Expr, g: Scope, t: Type)
    requires Fits(e, g, t)
    ensures Within(e, Mentioned(e, g))
  {
    match e
    case OpExpr(_, es) =>
      forall i | 0 <= i < |es| ensures Within(es[i], Mentioned(e, g)) {
        WithinMentioned(es[i], g, TNum);
        WithinLarger(es[i], Mentioned(es[i], g), Mentioned(e, g));
      }
    case CaseExpr(c, y, n) =>
      WithinMentioned(c, g, TNum); WithinMentioned(y, g, TNum); WithinMentioned(n, g, TNum);
      WithinLarger(c, Mentioned(c, g), Mentioned(e, g));
      WithinLarger(y, Mentioned(y, g), Mentioned(e, g));
      WithinLarger(n, Mentioned(n, g), Mentioned(e, g));
    case Call(k, es) =>
      forall i | 0 <= i < |es| ensures Within(es[i], Mentioned(e, g)) {
        WithinMentioned(es[i], g, g[k].inputs[i]);
        WithinLarger(es[i], Mentioned(es[i], g), Mentioned(e, g));
      }
    case _ =>
  }

  /** The scope left open by flattening: atomic inputs stay, function inputs are gone. */
  function OpenScope(g: Scope): (d: Scope)
    ensures |d| == |g|
    ensures forall k :: 0 <= k < |g| ==> d[k] == TNum
  {
    seq(|g|, _ => TNum)
  }

  /** A frame that fits its scope, except that a function input may be NULL. */
  predicate FrameFitsOrNull(vs: seq<Value>, g: Scope) {
    |vs| == |g| && forall i :: 0 <= i < |g| ==> ValueFits(vs[i], g[i]) || vs[i].Null?
  }

  /**
   Flattening a lambda that fits its signature refuses exactly when a function input
   it mentions is NULL; otherwise what is left is first-order.
   */
  lemma {:induction false} FlattenFits(stack: nat, l: LambdaValue, g: Scope, vs: seq<Value>)
    requires LambdaFits(l, g) && FrameFitsOrNull(vs, g)
    requires OrderOf(g) <= stack
    ensures Flatten(stack, l, vs).Err? <==> exists i :: 0 <= i < |vs| && IsFunctionInput(l.body, i) && vs[i].Null?
    ensures Flatten(stack, l, vs).Ok? ==>
      Fits(Flatten(stack, l, vs).value, g, TNum) && FirstOrder(Flatten(stack, l, vs).value)
  {
    forall i | 0 <= i < |vs| && IsFunctionInput(l.body, i) ensures vs[i].Fn? || vs[i].Null? {
      FunctionInputIsFunction(l.body, g, TNum, i);
    }
    if forall i :: 0 <= i < |vs| && IsFunctionInput(l.body, i) ==> vs[i].Fn? {
      FlattenInlines(stack, l.body, g, vs);
    }
  }

  lemma {:induction false} FlattenInlines(stack: nat, body: Expr, g: Scope, vs: seq<Value>)
    requires Fits(body, g, TNum) && FrameFitsOrNull(vs, g) && OrderOf(g) <= stack
    requires forall i :: 0 <= i < |vs| && IsFunctionInput(body, i) ==> vs[i].Fn?
    ensures var r := Inline(stack, body, FlattenBinding(body, vs)); r.Ok? && Fits(r.value, g, TNum) && FirstOrder(r.value)
  {
    var b, u := FlattenBinding(body, vs), Mentioned(body, g);
    WithinMentioned(body, g, TNum);
    forall m: nat | m in u && m < |g| && g[m].TNum? ensures b[m] == None {
      if IsFunctionInput(body, m) { FunctionInputIsFunction(body, g, TNum, m); }
    }
    InlineFits(stack, body, g, g, TNum, b, u);
    InlineFits(stack, body, g, OpenScope(g), TNum, b, u);
    NumericScopeFirstOrder(Inline(stack, body, b).value, OpenScope(g), TNum);
  }

  // ---------------------------------------------------------------- folding

  /** Folding keeps the signature, adds no call, and can fail only by dividing by zero. */
  lemma {:induction false} FoldFits(e: Expr, g: Scope, t: Type)
    requires Fits(e, g, t)
    ensures Fold(e).Err? ==> Fold(e).error == DivisionByZero
    ensures Fold(e).Ok? ==> Fits(Fold(e).value, g, t)
    ensures Fold(e).Ok? && FirstOrder(e) ==> FirstOrder(Fold(e).value)
    decreases e, 1
  {
    match e
    case Const(_) =>
    case LambdaConst(l) => FoldFits(l.body, t.inputs, TNum);
    case Param(_, _) =>
    case OpExpr(op, es) =>
      FoldAllFit(es, g, seq(|es|, _ => TNum));
      if FoldAll(es).Ok? { FoldOperatorFits(op, FoldAll(es).value, g); }
    case CaseExpr(c, y, n) =>
      FoldFits(c, g, TNum); FoldFits(y, g, TNum); FoldFits(n, g, TNum);
    case Call(k, es) =>
      FoldAllFit(es, g, g[k].inputs);
  }

  lemma {:induction false} FoldAllFit(es: seq<Expr>, g: Scope, ts: seq<Type>)
    requires |ts| == |es|
    requires forall i :: 0 <= i < |es| ==> Fits(es[i], g, ts[i])
    ensures FoldAll(es).Err? ==> FoldAll(es).error == DivisionByZero
    ensures FoldAll(es).Ok? ==> forall i :: 0 <= i < |es| ==> Fits(FoldAll(es).value[i], g, ts[i])
    ensures FoldAll(es).Ok? ==> forall i :: 0 <= i < |es| && FirstOrder(es[i]) ==> FirstOrder(FoldAll(es).value[i])
    decreases es, 0
  {
    if es != [] {
      FoldFits(es[0], g, ts[0]);
      FoldAllFit(es[1..], g, ts[1..]);
      if FoldAll(es).Ok? {
        assert forall i :: 1 <= i < |es| ==> FoldAll(es).value[i] == FoldAll(es[1..]).value[i - 1];
      }
    }
  }

  lemma {:induction false} FoldOperatorFits(op: Operator, xs: seq<Expr>, g: Scope)
    requires |xs| == (if op.Negate? || op.Absolute? then 1 else 2)
    requires forall i :: 0 <= i < |xs| ==> Fits(xs[i], g, TNum)
    ensures var r := FoldOperator(op, xs);
            match r
            case Err(x) => x == DivisionByZero
            case Ok(x) => Fits(x, g, TNum) && ((forall i :: 0 <= i < |xs| ==> FirstOrder(xs[i])) ==> FirstOrder(x))
  {
    if forall i :: 0 <= i < |xs| ==> xs[i].Const? && xs[i] != Const(Null) {
      OperateOutcome(op, seq(|xs|, i requires 0 <= i < |xs| => if xs[i].Const? then xs[i].val else Null));
    }
  }

  // ---------------------------------------------------------------- what a fitting call can return

  /** A value of the type, or the one error an operator can raise. */
  predicate Outcome(r: Result<Value>, t: Type) {
    match r
    case Ok(v) => ValueFits(v, t)
    case Err(e) => e.DivisionByZero?
  }

  predicate Outcomes(r: Result<seq<Value>>, ts: seq<Type>) {
    match r
    case Ok(vs) => FrameFits(vs, ts)
    case Err(e) => e.DivisionByZero?
  }

  /** How deep calls may nest: not at all in first-order bodies, by the signature's order otherwise. */
  predicate Enough(hoist: bool, stack: nat, fuel: nat, e: Expr, g: Scope) {
    FirstOrder(e) || (OrderOf(g) <= fuel && (hoist ==> OrderOf(g) <= stack))
  }

  lemma OperateOutcome(op: Operator, vs: seq<Value>)
    requires |vs| == (if op.Negate? || op.Absolute? then 1 else 2)
    requires forall i :: 0 <= i < |vs| ==> !vs[i].Fn?
    ensures Outcome(Operate(op, vs), TNum)
  {
  }

  lemma {:induction false} InvokeOutcome(hoist: bool, stack: nat, fuel: nat, site: Expr, l: LambdaValue, ts: Scope, vs: seq<Value>)
    requires LambdaFits(l, ts) && FrameFits(vs, ts)
    requires OrderOf(ts) < fuel && (hoist ==> OrderOf(ts) <= stack)
    ensures Outcome(Invoke(hoist, stack, fuel, site, Fn(l), vs), TNum)
    decreases fuel, site, 0
  {
    if hoist && HasCall(l.body) {
      FlattenFits(stack, l, ts, vs);
      forall i | 0 <= i < |vs| && IsFunctionInput(l.body, i) ensures !vs[i].Null? {
        FunctionInputIsFunction(l.body, ts, TNum, i);
      }
      var flat := Flatten(stack, l, vs).value;
      FoldFits(flat, ts, TNum);
      if Fold(flat).Ok? { EvalOutcome(hoist, stack, fuel - 1, Fold(flat).value, ts, TNum, vs); }
    } else {
      EvalOutcome(hoist, stack, fuel - 1, l.body, ts, TNum, vs);
    }
  }

  /** Evaluation of a fitting body returns a value of its type or a division by zero, in either mode. */
  lemma {:induction false} EvalOutcome(hoist: bool, stack: nat, fuel: nat, e: Expr, g: Scope, t: Type, env: seq<Value>)
    requires Fits(e, g, t) && FrameFits(env, g)
    requires Enough(hoist, stack, fuel, e, g)
    ensures Outcome(Eval(hoist, stack, fuel, e, env), t)
    decreases fuel, e, 1
  {
    match e
    case Const(_) =>
    case LambdaConst(_) =>
    case Param(_, _) =>
    case OpExpr(op, es) =>
      EvalAllOutcome(hoist, stack, fuel, es, g, seq(|es|, _ => TNum), env);
      var r := EvalAll(hoist, stack, fuel, es, env);
      if r.Ok? { OperateOutcome(op, r.value); }
    case CaseExpr(c, y, n) =>
      EvalOutcome(hoist, stack, fuel, c, g, TNum, env);
      EvalOutcome(hoist, stack, fuel, y, g, TNum, env);
      EvalOutcome(hoist, stack, fuel, n, g, TNum, env);
    case Call(k, es) =>
      var ts := g[k].inputs;
      assert Order(g[k]) == 1 + OrderOf(ts);
      EvalAllOutcome(hoist, stack, fuel, es, g, ts, env);
      var r := EvalAll(hoist, stack, fuel, es, env);
      if r.Ok? {
        InvokeOutcome(hoist, stack, fuel, e, env[k].fn, ts, r.value);
      }
  }

  lemma {:induction false} EvalAllOutcome(hoist: bool, stack: nat, fuel: nat, es: seq<Expr>, g: Scope, ts: seq<Type>, env: seq<Value>)
    requires |ts| == |es|
    requires forall i :: 0 <= i < |es| ==> Fits(es[i], g, ts[i]) && Enough(hoist, stack, fuel, es[i], g)
    requires FrameFits(env, g)
    ensures Outcomes(EvalAll(hoist, stack, fuel, es, env), ts)
    decreases fuel, es, 0
  {
    if es != [] {
      EvalOutcome(hoist, stack, fuel, es[0], g, ts[0], env);
      EvalAllOutcome(hoist, stack, fuel, es[1..], g, ts[1..], env);
    }
  }
}
