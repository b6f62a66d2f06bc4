/**
 Hoisting on against hoisting off. With hoisting on, a higher-order callee is
 flattened and folded before it runs. Where nested evaluation returns a value, the
 hoisted call returns the same value exactly if the flattened body holds no constant
 division by zero; the rest of the module says what else can differ.
 */
module LambdaModes {
  import opened Lambda
  import opened LambdaMeaning
  import opened LambdaTyping
  import opened Wrappers

  // ---------------------------------------------------------------- what folding computes

  /** The value a subterm has whatever the row, as far as its constants tell. */
  function Known(e: Expr): Option<Value> {
    match e
    case Const(v) => Some(v)
    case LambdaConst(_) => None
    case Param(_, _) => None
    case OpExpr(op, es) =>
      if exists i :: 0 <= i < |es| && Known(es[i]) == Some(Null) then Some(Null)
      else if exists i :: 0 <= i < |es| && Known(es[i]).None? then None
      else
        var r := Operate(op, seq(|es|, i requires 0 <= i < |es| => if Known(es[i]).Some? then Known(es[i]).value else Null));
        if r.Ok? then Some(r.value) else None
    case CaseExpr(t, y, n) =>
      var c := Known(t);
      if c.None? then None else if Holds(c.value) then Known(y) else Known(n)
    case Call(_, _) => None
  }

  /** A number divided by zero, both constant, outside the branches a constant test rules out. */
  predicate ConstantDivision(e: Expr) {
    match e
    case Const(_) => false
    case LambdaConst(l) => ConstantDivision(l.body)
    case Param(_, _) => false
    case OpExpr(op, es) =>
      || (exists i :: 0 <= i < |es| && ConstantDivision(es[i]))
      || (op == Divide && |es| == 2 && Known(es[1]) == Some(Num(0.0)) && Known(es[0]).Some? && Known(es[0]).value.Num?)
    case CaseExpr(t, y, n) =>
      || ConstantDivision(t)
      || (var c := Known(t);
          if c.None? then ConstantDivision(y) || ConstantDivision(n)
          else if Holds(c.value) then ConstantDivision(y) else ConstantDivision(n))
    case Call(_, es) => exists i :: 0 <= i < |es| && ConstantDivision(es[i])
  }

  /** x is what folding leaves of e: the known value, or something that is no constant. */
  predicate FoldedTo(e: Expr, x: Expr) {
    match Known(e)
    case Some(v) => x == Const(v)
    case None => !x.Const?
  }

  /** Folding a fitting body fails exactly on a constant division by zero. */
  lemma {:induction false} FoldsIff(e: Expr, g: Scope, t: Type)
    requires Fits(e, g, t)
    ensures Fold(e).Err? <==> ConstantDivision(e)
    ensures Fold(e).Ok? ==> FoldedTo(e, Fold(e).value)
    decreases e, 1
  {
    match e
    case Const(_) =>
    case LambdaConst(l) => FoldsIff(l.body, t.inputs, TNum);
    case Param(_, _) =>
    case OpExpr(op, es) =>
      FoldsAllIff(es, g, seq(|es|, _ => TNum));
      if FoldAll(es).Ok? {
        FoldAllFit(es, g, seq(|es|, _ => TNum));
        OperatorFoldsIff(op, es, FoldAll(es).value, g);
      }
    case CaseExpr(c, y, n) =>
      FoldsIff(c, g, TNum); FoldsIff(y, g, TNum); FoldsIff(n, g, TNum);
    case Call(k, es) =>
      FoldsAllIff(es, g, g[k].inputs);
  }

  lemma {:induction false} FoldsAllIff(es: seq<Expr>, g: Scope, ts: seq<Type>)
    requires |ts| == |es|
    requires forall i :: 0 <= i < |es| ==> Fits(es[i], g, ts[i])
    ensures FoldAll(es).Err? <==> exists i :: 0 <= i < |es| && ConstantDivision(es[i])
    ensures FoldAll(es).Ok? ==> forall i :: 0 <= i < |es| ==> FoldedTo(es[i], FoldAll(es).value[i])
    decreases es, 0
  {
    if es != [] {
      var rest := es[1..];
      FoldsIff(es[0], g, ts[0]);
      FoldsAllIff(rest, g, ts[1..]);
      if FoldAll(rest).Err? {
        var i :| 0 <= i < |rest| && ConstantDivision(rest[i]);
        assert es[i + 1] == rest[i];
      } else {
        assert forall i :: 1 <= i < |es| ==> es[i] == rest[i - 1];
        if FoldAll(es).Ok? {
          assert forall i :: 1 <= i < |es| ==> FoldAll(es).value[i] == FoldAll(rest).value[i - 1];
        }
      }
    }
  }

  lemma {:induction false} NullOperand(op: Operator, es: seq<Expr>, xs: seq<Expr>)
    requires |xs| == |es| && forall i :: 0 <= i < |xs| ==> FoldedTo(es[i], xs[i])
    requires exists i :: 0 <= i < |es| && Known(es[i]) == Some(Null)
    ensures FoldOperator(op, xs) == Ok(Const(Null)) && Known(OpExpr(op, es)) == Some(Null)
  {
    var i :| 0 <= i < |es| && Known(es[i]) == Some(Null);
    assert xs[i] == Const(Null);
  }

  lemma {:induction false} UnknownOperand(op: Operator, es: seq<Expr>, xs: seq<Expr>)
    requires |xs| == |es| == (if op.Negate? || op.Absolute? then 1 else 2)
    requires forall i :: 0 <= i < |xs| ==> FoldedTo(es[i], xs[i])
    requires (forall i :: 0 <= i < |es| ==> Known(es[i]) != Some(Null)) && exists i :: 0 <= i < |es| && Known(es[i]).None?
    ensures FoldOperator(op, xs) == Ok(OpExpr(op, xs)) && Known(OpExpr(op, es)).None?
  {
    var i :| 0 <= i < |es| && Known(es[i]).None?;
    assert !xs[i].Const?;
    assert forall j :: 0 <= j < |xs| ==> xs[j] != Const(Null);
  }

  lemma {:induction false} KnownOperands(op: Operator, es: seq<Expr>, xs: seq<Expr>, g: Scope)
    requires |xs| == |es| == (if op.Negate? || op.Absolute? then 1 else 2)
    requires forall i :: 0 <= i < |xs| ==> Fits(xs[i], g, TNum) && FoldedTo(es[i], xs[i])
    requires forall i :: 0 <= i < |es| ==> Known(es[i]).Some? && Known(es[i]) != Some(Null)
    ensures FoldOperator(op, xs).Err? <==> op == Divide && Known(es[1]) == Some(Num(0.0))
    ensures FoldOperator(op, xs).Ok? ==> FoldedTo(OpExpr(op, es), FoldOperator(op, xs).value)
    ensures forall i :: 0 <= i < |es| ==> Known(es[i]).value.Num?
  {
    forall i | 0 <= i < |es| ensures xs[i].Const? && Known(es[i]) == Some(xs[i].val) && xs[i].val.Num? {
      assert Fits(xs[i], g, TNum) && FoldedTo(es[i], xs[i]);
    }
    assert seq(|es|, i requires 0 <= i < |es| => if Known(es[i]).Some? then Known(es[i]).value else Null)
        == seq(|xs|, i requires 0 <= i < |xs| => if xs[i].Const? then xs[i].val else Null);
  }

  lemma {:induction false} OperatorFoldsIff(op: Operator, es: seq<Expr>, xs: seq<Expr>, g: Scope)
    requires |xs| == |es| == (if op.Negate? || op.Absolute? then 1 else 2)
    requires forall i :: 0 <= i < |xs| ==> Fits(xs[i], g, TNum) && FoldedTo(es[i], xs[i])
    ensures FoldOperator(op, xs).Err? <==>
      op == Divide && Known(es[1]) == Some(Num(0.0)) && Known(es[0]).Some? && Known(es[0]).value.Num?
    ensures FoldOperator(op, xs).Ok? ==> FoldedTo(OpExpr(op, es), FoldOperator(op, xs).value)
  {
    if exists i :: 0 <= i < |es| && Known(es[i]) == Some(Null) {
      NullOperand(op, es, xs);
    } else if exists i :: 0 <= i < |es| && Known(es[i]).None? {
      UnknownOperand(op, es, xs);
    } else {
      KnownOperands(op, es, xs, g);
    }
  }

  /** A known value is the value on every row that gives one. */
  lemma {:induction false} KnownIsMeaning(stack: nat, fuel: nat, e: Expr, g: Scope, t: Type, env: seq<Value>)
    requires Fits(e, g, t) && !ConstantDivision(e)
    requires Known(e).Some? && Eval(false, stack, fuel, e, env).Ok?
    ensures Eval(false, stack, fuel, e, env) == Ok(Known(e).value)
  {
    FoldsIff(e, g, t);
    FoldFits(e, g, t);
    FoldKeepsMeaning(stack, fuel, e, Fold(e).value, env, env);
  }

  // ---------------------------------------------------------------- the two modes

  /** Without calls the modes are one. */
  lemma {:induction false} FirstOrderModes(stack: nat, fuel: nat, e: Expr, env: seq<Value>)
    requires FirstOrder(e)
    ensures Eval(true, stack, fuel, e, env) == Eval(false, stack, fuel, e, env)
    decreases e, 1
  {
    match e
    case OpExpr(_, es) => FirstOrderModesAll(stack, fuel, es, env);
    case CaseExpr(t, y, n) =>
      FirstOrderModes(stack, fuel, t, env); FirstOrderModes(stack, fuel, y, env); FirstOrderModes(stack, fuel, n, env);
    case _ =>
  }

  lemma {:induction false} FirstOrderModesAll(stack: nat, fuel: nat, es: seq<Expr>, env: seq<Value>)
    requires forall i :: 0 <= i < |es| ==> FirstOrder(es[i])
    ensures EvalAll(true, stack, fuel, es, env) == EvalAll(false, stack, fuel, es, env)
    decreases es, 0
  {
    if es != [] {
      FirstOrderModes(stack, fuel, es[0], env);
      FirstOrderModesAll(stack, fuel, es[1..], env);
    }
  }

  lemma {:induction false} NoCallFirstOrder(e: Expr)
    requires !HasCall(e)
    ensures FirstOrder(e)
  {
    match e
    case OpExpr(_, es) => forall i | 0 <= i < |es| ensures FirstOrder(es[i]) { NoCallFirstOrder(es[i]); }
    case CaseExpr(t, y, n) => NoCallFirstOrder(t); NoCallFirstOrder(y); NoCallFirstOrder(n);
    case _ =>
  }

  /** Flattening l for these arguments leaves a constant division by zero. */
  predicate BuildDivides(stack: nat, l: LambdaValue, vs: seq<Value>) {
    HasCall(l.body) && Flatten(stack, l, vs).Ok? && ConstantDivision(Flatten(stack, l, vs).value)
  }

  lemma {:induction false} FlattenKeepsMeaning(stack: nat, fuel: nat, l: LambdaValue, vs: seq<Value>)
    requires Flatten(stack, l, vs).Ok? && Eval(false, stack, fuel, l.body, vs).Ok?
    ensures Eval(false, stack, fuel, Flatten(stack, l, vs).value, vs) == Eval(false, stack, fuel, l.body, vs)
  {
    var b := FlattenBinding(l.body, vs);
    forall m: nat ensures RepresentsAt(stack, fuel, b, vs, vs, m) { }
    WithinAll(l.body);
    InlineKeepsMeaning(stack, stack, fuel, fuel, l.body, AllInputs, b, vs, vs);
  }

  lemma {:induction false} FittingFrameFlattens(stack: nat, l: LambdaValue, g: Scope, vs: seq<Value>)
    requires LambdaFits(l, g) && FrameFits(vs, g) && OrderOf(g) <= stack
    ensures Flatten(stack, l, vs).Ok?
    ensures Fits(Flatten(stack, l, vs).value, g, TNum) && FirstOrder(Flatten(stack, l, vs).value)
  {
    FlattenFits(stack, l, g, vs);
    forall i | 0 <= i < |vs| && IsFunctionInput(l.body, i) ensures !vs[i].Null? {
      FunctionInputIsFunction(l.body, g, TNum, i);
    }
  }

  /** What the hoisted call is, once built: the folded first-order body on the same frame. */
  lemma {:induction false} HoistedIsFolded(stack: nat, fuel: nat, site: Expr, l: LambdaValue, g: Scope, vs: seq<Value>)
    requires LambdaFits(l, g) && FrameFits(vs, g)
    requires OrderOf(g) < fuel && OrderOf(g) <= stack
    requires HasCall(l.body)
    ensures Flatten(stack, l, vs).Ok?
    ensures var folded := Fold(Flatten(stack, l, vs).value);
            && (folded.Err? <==> BuildDivides(stack, l, vs))
            && Invoke(true, stack, fuel, site, Fn(l), vs)
               == if folded.Err? then Err(DivisionByZero) else Eval(false, stack, fuel - 1, folded.value, vs)
  {
    FittingFrameFlattens(stack, l, g, vs);
    var flat := Flatten(stack, l, vs).value;
    FoldsIff(flat, g, TNum);
    FoldFits(flat, g, TNum);
    if Fold(flat).Ok? { FirstOrderModes(stack, fuel - 1, Fold(flat).value, vs); }
  }

  /**
   Both modes on a fitting call. Where nested evaluation returns a value, the hoisted
   call returns it exactly if the build meets no constant division by zero, and raises
   that division otherwise. Where nested evaluation divides by zero, the hoisted call
   divides by zero too or has dropped the division with an argument nobody looks at.
   */
  lemma {:induction false} ModesAgree(stack: nat, fuel: nat, site: Expr, l: LambdaValue, g: Scope, vs: seq<Value>)
    requires LambdaFits(l, g) && FrameFits(vs, g)
    requires OrderOf(g) < fuel && OrderOf(g) <= stack
    ensures var nested, hoisted := Invoke(false, stack, fuel, site, Fn(l), vs), Invoke(true, stack, fuel, site, Fn(l), vs);
            && (nested.Ok? ==> hoisted == if BuildDivides(stack, l, vs) then Err(DivisionByZero) else nested)
            && (nested.Err? ==> nested == Err(DivisionByZero) && (hoisted.Ok? || hoisted == nested))
  {
    InvokeOutcome(false, stack, fuel, site, l, g, vs);
    InvokeOutcome(true, stack, fuel, site, l, g, vs);
    var nested := Invoke(false, stack, fuel, site, Fn(l), vs);
    if !HasCall(l.body) {
      NoCallFirstOrder(l.body);
      FirstOrderModes(stack, fuel - 1, l.body, vs);
    } else if nested.Ok? {
      HoistedIsFolded(stack, fuel, site, l, g, vs);
      var flat := Flatten(stack, l, vs).value;
      FlattenKeepsMeaning(stack, fuel - 1, l, vs);
      if Fold(flat).Ok? { FoldKeepsMeaning(stack, fuel - 1, flat, Fold(flat).value, vs, vs); }
    }
  }

  // ---------------------------------------------------------------- without division

  predicate NoDivide(e: Expr) {
    match e
    case Const(v) => v.Fn? ==> NoDivide(v.fn.body)
    case LambdaConst(l) => NoDivide(l.body)
    case Param(_, _) => true
    case OpExpr(op, es) => !op.Divide? && forall i :: 0 <= i < |es| ==> NoDivide(es[i])
    case CaseExpr(c, y, n) => NoDivide(c) && NoDivide(y) && NoDivide(n)
    case Call(_, es) => forall i :: 0 <= i < |es| ==> NoDivide(es[i])
  }

  predicate FrameNoDivide(vs: seq<Value>) {
    forall i :: 0 <= i < |vs| && vs[i].Fn? ==> NoDivide(vs[i].fn.body)
  }

  lemma {:induction false} NoDivideReturns(fuel: nat, stack: nat, e: Expr, g: Scope, t: Type, env: seq<Value>)
    requires Fits(e, g, t) && FrameFits(env, g) && OrderOf(g) <= fuel
    requires NoDivide(e) && FrameNoDivide(env)
    ensures Eval(false, stack, fuel, e, env).Ok?
    ensures FrameNoDivide([Eval(false, stack, fuel, e, env).value])
    decreases fuel, e, 1
  {
    EvalOutcome(false, stack, fuel, e, g, t, env);
    match e
    case Const(_) =>
    case LambdaConst(_) =>
    case Param(_, _) =>
    case OpExpr(op, es) =>
      NoDivideReturnsAll(fuel, stack, es, g, seq(|es|, _ => TNum), env);
    case CaseExpr(c, y, n) =>
      NoDivideReturns(fuel, stack, c, g, TNum, env);
      NoDivideReturns(fuel, stack, y, g, TNum, env);
      NoDivideReturns(fuel, stack, n, g, TNum, env);
    case Call(k, es) =>
      var ts := g[k].inputs;
      assert Order(g[k]) == 1 + OrderOf(ts);
      NoDivideReturnsAll(fuel, stack, es, g, ts, env);
      EvalAllOutcome(false, stack, fuel, es, g, ts, env);
      NoDivideReturns(fuel - 1, stack, env[k].fn.body, ts, TNum, EvalAll(false, stack, fuel, es, env).value);
  }

  lemma {:induction false} NoDivideReturnsAll(fuel: nat, stack: nat, es: seq<Expr>, g: Scope, ts: seq<Type>, env: seq<Value>)
    requires |ts| == |es|
    requires forall i :: 0 <= i < |es| ==> Fits(es[i], g, ts[i]) && NoDivide(es[i])
    requires FrameFits(env, g) && OrderOf(g) <= fuel && FrameNoDivide(env)
    ensures EvalAll(false, stack, fuel, es, env).Ok?
    ensures FrameNoDivide(EvalAll(false, stack, fuel, es, env).value)
    decreases fuel, es, 0
  {
    if es != [] {
      NoDivideReturns(fuel, stack, es[0], g, ts[0], env);
      NoDivideReturnsAll(fuel, stack, es[1..], g, ts[1..], env);
      assert [Eval(false, stack, fuel, es[0], env).value][0] == Eval(false, stack, fuel, es[0], env).value;
    }
  }

  lemma {:induction false} NoDivideInlines(depth: nat, e: Expr, b: Binding)
    requires NoDivide(e) && Inline(depth, e, b).Ok?
    requires forall m :: 0 <= m < |b| && b[m].Some? ==> NoDivide(b[m].value)
    ensures NoDivide(Inline(depth, e, b).value)
    decreases depth, e, 1
  {
    match e
    case OpExpr(_, es) => NoDivideInlinesAll(depth, es, b);
    case CaseExpr(c, y, n) => NoDivideInlines(depth, c, b); NoDivideInlines(depth, y, b); NoDivideInlines(depth, n, b);
    case Call(k, es) =>
      NoDivideInlinesAll(depth, es, b);
      if b[k].value.LambdaConst? {
        NoDivideInlines(depth - 1, b[k].value.lam.body, AllBound(InlineAll(depth, es, b).value));
      }
    case _ =>
  }

  lemma {:induction false} NoDivideInlinesAll(depth: nat, es: seq<Expr>, b: Binding)
    requires (forall i :: 0 <= i < |es| ==> NoDivide(es[i])) && InlineAll(depth, es, b).Ok?
    requires forall m :: 0 <= m < |b| && b[m].Some? ==> NoDivide(b[m].value)
    ensures forall i :: 0 <= i < |es| ==> NoDivide(InlineAll(depth, es, b).value[i])
    decreases depth, es, 0
  {
    if es != [] {
      NoDivideInlines(depth, es[0], b);
      NoDivideInlinesAll(depth, es[1..], b);
      assert forall i :: 1 <= i < |es| ==> InlineAll(depth, es, b).value[i] == InlineAll(depth, es[1..], b).value[i - 1];
    }
  }

  lemma {:induction false} NoDivideNoConstantDivision(e: Expr)
    requires NoDivide(e)
    ensures !ConstantDivision(e)
  {
    match e
    case LambdaConst(l) => NoDivideNoConstantDivision(l.body);
    case OpExpr(_, es) => forall i | 0 <= i < |es| ensures !ConstantDivision(es[i]) { NoDivideNoConstantDivision(es[i]); }
    case CaseExpr(c, y, n) => NoDivideNoConstantDivision(c); NoDivideNoConstantDivision(y); NoDivideNoConstantDivision(n);
    case Call(_, es) => forall i | 0 <= i < |es| ensures !ConstantDivision(es[i]) { NoDivideNoConstantDivision(es[i]); }
    case _ =>
  }

  /** Where nothing divides, hoisting on and off return the same value, always. */
  lemma {:induction false} ModesEqualWithoutDivision(stack: nat, fuel: nat, site: Expr, l: LambdaValue, g: Scope, vs: seq<Value>)
    requires LambdaFits(l, g) && FrameFits(vs, g)
    requires OrderOf(g) < fuel && OrderOf(g) <= stack
    requires NoDivide(l.body) && FrameNoDivide(vs)
    ensures Invoke(true, stack, fuel, site, Fn(l), vs) == Invoke(false, stack, fuel, site, Fn(l), vs)
    ensures Invoke(true, stack, fuel, site, Fn(l), vs).Ok?
  {
    NoDivideReturns(fuel - 1, stack, l.body, g, TNum, vs);
    ModesAgree(stack, fuel, site, l, g, vs);
    if Flatten(stack, l, vs).Ok? {
      NoDivideInlines(stack, l.body, FlattenBinding(l.body, vs));
      NoDivideNoConstantDivision(Flatten(stack, l, vs).value);
    }
  }

  // ---------------------------------------------------------------- where the modes differ

  lemma OneArgument(hoist: bool, stack: nat, fuel: nat, x: Expr, b: Binding, env: seq<Value>)
    ensures var r := Eval(hoist, stack, fuel, x, env);
            EvalAll(hoist, stack, fuel, [x], env) == if r.Ok? then Ok([r.value]) else Err(r.error)
    ensures var r := Inline(stack, x, b);
            InlineAll(stack, [x], b) == if r.Ok? then Ok([r.value]) else Err(r.error)
  {
    assert [x][1..] == [];
    assert EvalAll(hoist, stack, fuel, [], env) == Ok([]);
    assert InlineAll(stack, [], b) == Ok([]);
    var r, r' := Eval(hoist, stack, fuel, x, env), Inline(stack, x, b);
    if r.Ok? { assert [r.value] + [] == [r.value]; }
    if r'.Ok? { assert [r'.value] + [] == [r'.value]; }
  }

  lemma TwoArguments(hoist: bool, stack: nat, fuel: nat, x: Expr, y: Expr, v: Value, w: Value, x': Expr, y': Expr, b: Binding, env: seq<Value>)
    requires Eval(hoist, stack, fuel, x, env) == Ok(v) && Eval(hoist, stack, fuel, y, env) == Ok(w)
    requires Inline(stack, x, b) == Ok(x') && Inline(stack, y, b) == Ok(y')
    ensures EvalAll(hoist, stack, fuel, [x, y], env) == Ok([v, w])
    ensures InlineAll(stack, [x, y], b) == Ok([x', y'])
  {
    assert [x, y][1..] == [y];
    OneArgument(hoist, stack, fuel, y, b, env);
    assert [v] + [w] == [v, w];
    assert [x'] + [y'] == [x', y'];
  }

  /** 1 / the given input. */
  function Reciprocal(i: nat): Expr {
    OpExpr(Divide, [Const(Num(1.0)), Param(i, false)])
  }

  lemma ReciprocalOfZero(hoist: bool, stack: nat, fuel: nat, i: nat, b: Binding, env: seq<Value>)
    requires i < |env| && env[i] == Num(0.0)
    ensures Eval(hoist, stack, fuel, Reciprocal(i), env) == Err(DivisionByZero)
    ensures i < |b| && b[i].None? ==> Inline(stack, Reciprocal(i), b) == Ok(Reciprocal(i))
    ensures i < |b| && b[i] == Some(Const(Num(0.0))) ==>
      Inline(stack, Reciprocal(i), b) == Ok(OpExpr(Divide, [Const(Num(1.0)), Const(Num(0.0))]))
  {
    var x, y := Const(Num(1.0)), Param(i, false);
    TwoArguments(hoist, stack, fuel, x, y, Num(1.0), Num(0.0), x, Inline(stack, y, b).value, b, env);
  }

  /** lambda(x)(7). */
  function Seven(): LambdaValue {
    LambdaValue(1, Const(Num(7.0)))
  }

  /** lambda(f, x)(f(1 / x)). */
  function CallsWithReciprocal(): LambdaValue {
    LambdaValue(2, Call(0, [Reciprocal(1)]))
  }

  lemma ReciprocalCallFits(g: Scope, vs: seq<Value>)
    requires g == [TFun([TNum]), TNum] && vs == [Fn(Seven()), Num(0.0)]
    ensures LambdaFits(CallsWithReciprocal(), g) && FrameFits(vs, g)
  {
    assert Fits(Reciprocal(1), g, TNum);
  }

  lemma NestedDivides(vs: seq<Value>)
    requires vs == [Fn(Seven()), Num(0.0)]
    ensures Invoke(false, 2, 2, Const(Null), Fn(CallsWithReciprocal()), vs) == Err(DivisionByZero)
  {
    ReciprocalOfZero(false, 2, 1, 1, [], vs);
    OneArgument(false, 2, 1, Reciprocal(1), [], vs);
  }

  lemma FlattenedReturns(vs: seq<Value>)
    requires vs == [Fn(Seven()), Num(0.0)]
    ensures Invoke(true, 2, 2, Const(Null), Fn(CallsWithReciprocal()), vs) == Ok(Num(7.0))
  {
    var l, f := CallsWithReciprocal(), Seven();
    var b: Binding := [Some(LambdaConst(f)), None];
    ReciprocalOfZero(false, 2, 1, 1, b, vs);
    OneArgument(false, 2, 1, Reciprocal(1), b, vs);
    assert FlattenBinding(l.body, vs) == b;
    assert Inline(2, l.body, b) == Inline(1, f.body, AllBound([Reciprocal(1)])) == Ok(f.body);
    assert Flatten(2, l, vs) == Ok(f.body);
  }

  /** lambda(f, x)(f(1 / x)) with f = lambda(x)(7) and x = 0: only nested evaluation divides. */
  lemma UnusedArgumentDiffers()
    ensures exists l: LambdaValue, g: Scope, vs: seq<Value> ::
      && LambdaFits(l, g) && FrameFits(vs, g)
      && Invoke(false, 2, 2, Const(Null), Fn(l), vs) == Err(DivisionByZero)
      && Invoke(true, 2, 2, Const(Null), Fn(l), vs) == Ok(Num(7.0))
  {
    var g, vs := [TFun([TNum]), TNum], [Fn(Seven()), Num(0.0)];
    ReciprocalCallFits(g, vs);
    NestedDivides(vs);
    FlattenedReturns(vs);
  }

  /** lambda(f)(f(7)) called with a NULL function: NULL by nested evaluation, an error when flattened. */
  lemma NullFunctionDiffers()
    ensures exists l: LambdaValue, g: Scope, vs: seq<Value> ::
      && LambdaFits(l, g) && FrameFitsOrNull(vs, g)
      && Invoke(false, 2, 2, Const(Null), Fn(l), vs) == Ok(Null)
      && Invoke(true, 2, 2, Const(Null), Fn(l), vs) == Err(Injection)
  {
    var seven := Const(Num(7.0));
    var l := LambdaValue(1, Call(0, [seven]));
    var g, vs := [TFun([TNum])], [Null];
    assert Fits(seven, g, TNum);
    assert LambdaFits(l, g) && FrameFitsOrNull(vs, g);
    OneArgument(false, 2, 1, seven, [], vs);
    assert Invoke(false, 2, 2, Const(Null), Fn(l), vs) == Ok(Null);
    assert IsFunctionInput(l.body, 0) && !vs[0].Fn?;
  }

  /** lambda(f, x)(CASE WHEN x THEN f(0) ELSE 1 END). */
  function GuardedCall(): LambdaValue {
    LambdaValue(2, CaseExpr(Param(1, false), Call(0, [Const(Num(0.0))]), Const(Num(1.0))))
  }

  /** lambda(y)(1 / y). */
  function Inverse(): LambdaValue {
    LambdaValue(1, Reciprocal(0))
  }

  lemma GuardedCallFlattens(vs: seq<Value>)
    requires vs == [Fn(Inverse()), Num(0.0)]
    ensures Flatten(2, GuardedCall(), vs)
         == Ok(CaseExpr(Param(1, false), OpExpr(Divide, [Const(Num(1.0)), Const(Num(0.0))]), Const(Num(1.0))))
  {
    var l, f := GuardedCall(), Inverse();
    var b: Binding := [Some(LambdaConst(f)), None];
    assert FlattenBinding(l.body, vs) == b;
    OneArgument(false, 2, 1, Const(Num(0.0)), b, vs);
    assert AllBound([Const(Num(0.0))]) == [Some(Const(Num(0.0)))];
    ReciprocalOfZero(false, 1, 0, 0, [Some(Const(Num(0.0)))], [Num(0.0)]);
  }

  lemma GuardedCallFits(g: Scope, vs: seq<Value>)
    requires g == [TFun([TNum]), TNum] && vs == [Fn(Inverse()), Num(0.0)]
    ensures LambdaFits(GuardedCall(), g) && FrameFits(vs, g) && OrderOf(g) == 1
  {
    assert Fits(Reciprocal(0), [TNum], TNum);
    assert LambdaFits(Inverse(), [TNum]);
    assert g[1..] == [TNum];
  }

  lemma GuardedCallDivides(vs: seq<Value>)
    requires vs == [Fn(Inverse()), Num(0.0)]
    ensures BuildDivides(2, GuardedCall(), vs)
  {
    GuardedCallFlattens(vs);
    assert ConstantDivision(Flatten(2, GuardedCall(), vs).value.yes);
  }

  lemma GuardedCallReturns(vs: seq<Value>)
    requires vs == [Fn(Inverse()), Num(0.0)]
    ensures Invoke(false, 2, 2, Const(Null), Fn(GuardedCall()), vs) == Ok(Num(1.0))
  {
    assert Eval(false, 2, 1, GuardedCall().body, vs) == Ok(Num(1.0));
  }

  /**
   lambda(f, x)(CASE WHEN x THEN f(0) ELSE 1 END) with f = lambda(y)(1 / y) and x false:
   nested evaluation never calls f, the hoisted call divides while it is built.
   */
  lemma GuardedDivisionDiffers()
    ensures exists l: LambdaValue, g: Scope, vs: seq<Value> ::
      && LambdaFits(l, g) && FrameFits(vs, g) && BuildDivides(2, l, vs)
      && Invoke(false, 2, 2, Const(Null), Fn(l), vs) == Ok(Num(1.0))
      && Invoke(true, 2, 2, Const(Null), Fn(l), vs) == Err(DivisionByZero)
  {
    var g, vs := [TFun([TNum]), TNum], [Fn(Inverse()), Num(0.0)];
    GuardedCallFits(g, vs);
    GuardedCallDivides(vs);
    GuardedCallReturns(vs);
    ModesAgree(2, 2, Const(Null), GuardedCall(), g, vs);
  }
}
