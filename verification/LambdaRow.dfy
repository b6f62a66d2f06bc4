/**
 The row-context injector: the mother lambda of a table function reads data columns
 and calls lambdas that were fetched from a table. Columns and stored lambdas share
 one flat numbering here; a call without arguments that stands as an argument passes
 the stored lambda itself.
 */
module LambdaRow {
  import opened Lambda
  import opened LambdaMeaning
  import opened LambdaTyping
  import opened Wrappers

  predicate ByName(e: Expr) {
    e.Call? && e.args == []
  }

  /** The injector binds call arguments as they stand, without walking them. */
  function ArgumentBinding(es: seq<Expr>, lams: seq<Option<LambdaValue>>): Result<Binding> {
    if es == [] then Ok([])
    else
      var rest :- ArgumentBinding(es[1..], lams);
      if !ByName(es[0]) then Ok([Some(es[0])] + rest)
      else if es[0].callee >= |lams| then Err(BadSlot)
      else if lams[es[0].callee].None? then Ok([None] + rest)
      else Ok([Some(LambdaConst(lams[es[0].callee].value))] + rest)
  }

  function RowInject(stack: nat, e: Expr, lams: seq<Option<LambdaValue>>): Result<Expr>
    decreases e, 1
  {
    match e
    case Const(_) => Ok(e)
    case Param(_, _) => Ok(e)
    case OpExpr(op, es) => var xs :- RowInjectAll(stack, es, lams); Ok(OpExpr(op, xs))
    case CaseExpr(t, y, n) =>
      var t' :- RowInject(stack, t, lams);
      var y' :- RowInject(stack, y, lams);
      var n' :- RowInject(stack, n, lams);
      Ok(CaseExpr(t', y', n'))
    case Call(k, es) =>
      if k >= |lams| then Err(BadSlot)
      else if lams[k].None? then Err(NotAFunction)
      else
        var child := lams[k].value;
        if |es| != child.arity then Err(WrongArity)
        else
          var b :- ArgumentBinding(es, lams);
          if stack == 0 then Err(TooDeep) else Inline(stack - 1, child.body, b)
    case LambdaConst(_) => Err(NotAFunction)
  }

  function RowInjectAll(stack: nat, es: seq<Expr>, lams: seq<Option<LambdaValue>>): (r: Result<seq<Expr>>)
    ensures r.Ok? ==> |r.value| == |es|
    decreases es, 0
  {
    if es == [] then Ok([])
    else
      var x :- RowInject(stack, es[0], lams);
      var xs :- RowInjectAll(stack, es[1..], lams);
      Ok([x] + xs)
  }

  // ---------------------------------------------------------------- meaning of a row mother

  /** The mother as a scalar body: passing a lambda by name is a reference to that input. */
  function ScalarForm(e: Expr): Expr
    decreases e, 1
  {
    match e
    case OpExpr(op, es) => OpExpr(op, ScalarForms(es))
    case CaseExpr(t, y, n) => CaseExpr(ScalarForm(t), ScalarForm(y), ScalarForm(n))
    case Call(k, es) => Call(k, ScalarArguments(es))
    case _ => e
  }

  function ScalarForms(es: seq<Expr>): (r: seq<Expr>)
    ensures |r| == |es|
    ensures forall i :: 0 <= i < |es| ==> r[i] == ScalarForm(es[i])
    decreases es, 0
  {
    if es == [] then [] else [ScalarForm(es[0])] + ScalarForms(es[1..])
  }

  function ScalarArguments(es: seq<Expr>): (r: seq<Expr>)
    ensures |r| == |es|
    ensures forall i :: 0 <= i < |es| ==>
      r[i] == if ByName(es[i]) then Param(es[i].callee, true) else ScalarForm(es[i])
    decreases es, 0
  {
    if es == [] then []
    else [if ByName(es[0]) then Param(es[0].callee, true) else ScalarForm(es[0])] + ScalarArguments(es[1..])
  }

  function LambdaBinding(lams: seq<Option<LambdaValue>>): (b: Binding)
    ensures |b| == |lams|
    ensures forall k :: 0 <= k < |lams| ==>
      b[k] == if lams[k].Some? then Some(LambdaConst(lams[k].value)) else None
  {
    seq(|lams|, k requires 0 <= k < |lams| => if lams[k].Some? then Some(LambdaConst(lams[k].value)) else None)
  }

  /** Neither calls nor embedded lambdas. */
  predicate Plain(e: Expr) {
    match e
    case Const(_) => true
    case Param(_, _) => true
    case OpExpr(_, es) => forall i :: 0 <= i < |es| ==> Plain(es[i])
    case CaseExpr(t, y, n) => Plain(t) && Plain(y) && Plain(n)
    case _ => false
  }

  /** No call has a call, other than a lambda passed by name, inside an argument. */
  predicate NestedFree(e: Expr) {
    match e
    case Const(_) => true
    case Param(_, _) => true
    case OpExpr(_, es) => forall i :: 0 <= i < |es| ==> NestedFree(es[i])
    case CaseExpr(t, y, n) => NestedFree(t) && NestedFree(y) && NestedFree(n)
    case Call(_, es) => forall i :: 0 <= i < |es| ==> ByName(es[i]) || Plain(es[i])
    case _ => false
  }

  /** Columns are columns: a parameter of the mother is never a lambda column. */
  predicate ReadsColumns(e: Expr, lams: seq<Option<LambdaValue>>) {
    match e
    case Param(i, isFn) => !isFn && (i < |lams| ==> lams[i].None?)
    case OpExpr(_, es) => forall i :: 0 <= i < |es| ==> ReadsColumns(es[i], lams)
    case CaseExpr(t, y, n) => ReadsColumns(t, lams) && ReadsColumns(y, lams) && ReadsColumns(n, lams)
    case Call(_, es) => forall i :: 0 <= i < |es| ==> ReadsColumns(es[i], lams)
    case _ => true
  }

  lemma {:induction false} PlainUntouched(stack: nat, e: Expr, lams: seq<Option<LambdaValue>>)
    requires Plain(e) && ReadsColumns(e, lams)
    ensures ScalarForm(e) == e
    ensures Inline(stack, e, LambdaBinding(lams)) == Ok(e)
    decreases e, 1
  {
    match e
    case OpExpr(_, es) => PlainUntouchedAll(stack, es, lams);
    case CaseExpr(t, y, n) =>
      PlainUntouched(stack, t, lams); PlainUntouched(stack, y, lams); PlainUntouched(stack, n, lams);
    case _ =>
  }

  lemma {:induction false} PlainUntouchedAll(stack: nat, es: seq<Expr>, lams: seq<Option<LambdaValue>>)
    requires forall i :: 0 <= i < |es| ==> Plain(es[i]) && ReadsColumns(es[i], lams)
    ensures ScalarForms(es) == es
    ensures InlineAll(stack, es, LambdaBinding(lams)) == Ok(es)
    decreases es, 0
  {
    if es != [] {
      PlainUntouched(stack, es[0], lams);
      PlainUntouchedAll(stack, es[1..], lams);
      assert [es[0]] + es[1..] == es;
    }
  }

  lemma {:induction false} ArgumentsAsScalar(stack: nat, es: seq<Expr>, lams: seq<Option<LambdaValue>>)
    requires forall i :: 0 <= i < |es| ==> ByName(es[i]) || Plain(es[i])
    requires forall i :: 0 <= i < |es| ==> ReadsColumns(es[i], lams)
    requires forall i :: 0 <= i < |es| && ByName(es[i]) ==> es[i].callee < |lams| && lams[es[i].callee].Some?
    ensures InlineAll(stack, ScalarArguments(es), LambdaBinding(lams)).Ok?
    ensures ArgumentBinding(es, lams) == Ok(AllBound(InlineAll(stack, ScalarArguments(es), LambdaBinding(lams)).value))
  {
    if es != [] {
      var xs := ScalarArguments(es);
      assert xs[1..] == ScalarArguments(es[1..]);
      ArgumentsAsScalar(stack, es[1..], lams);
      if !ByName(es[0]) { PlainUntouched(stack, es[0], lams); }
      assert ArgumentBinding(es, lams).value == AllBound(InlineAll(stack, xs, LambdaBinding(lams)).value);
    }
  }

  /** Every name passed as an argument names a stored lambda. */
  predicate NamesLambdas(e: Expr, lams: seq<Option<LambdaValue>>) {
    match e
    case OpExpr(_, es) => forall i :: 0 <= i < |es| ==> NamesLambdas(es[i], lams)
    case CaseExpr(t, y, n) => NamesLambdas(t, lams) && NamesLambdas(y, lams) && NamesLambdas(n, lams)
    case Call(_, es) =>
      forall i :: 0 <= i < |es| ==>
        if ByName(es[i]) then es[i].callee < |lams| && lams[es[i].callee].Some? else NamesLambdas(es[i], lams)
    case _ => true
  }

  /** Without nested calls, the row injector does exactly what the scalar inliner does. */
  lemma {:induction false} RowInjectIsInline(stack: nat, e: Expr, lams: seq<Option<LambdaValue>>)
    requires NestedFree(e) && ReadsColumns(e, lams) && NamesLambdas(e, lams)
    ensures RowInject(stack, e, lams) == Inline(stack, ScalarForm(e), LambdaBinding(lams))
    decreases e, 1
  {
    match e
    case OpExpr(_, es) => RowInjectAllIsInline(stack, es, lams);
    case CaseExpr(t, y, n) =>
      RowInjectIsInline(stack, t, lams); RowInjectIsInline(stack, y, lams); RowInjectIsInline(stack, n, lams);
    case Call(k, es) => ArgumentsAsScalar(stack, es, lams);
    case _ =>
  }

  lemma {:induction false} RowInjectAllIsInline(stack: nat, es: seq<Expr>, lams: seq<Option<LambdaValue>>)
    requires forall i :: 0 <= i < |es| ==> NestedFree(es[i]) && ReadsColumns(es[i], lams) && NamesLambdas(es[i], lams)
    ensures RowInjectAll(stack, es, lams) == InlineAll(stack, ScalarForms(es), LambdaBinding(lams))
    decreases es, 0
  {
    if es != [] {
      RowInjectIsInline(stack, es[0], lams);
      RowInjectAllIsInline(stack, es[1..], lams);
    }
  }

  /** The frame of a row: data columns as given, lambda columns as their lambdas. */
  ghost predicate RowFrame(lams: seq<Option<LambdaValue>>, row: seq<Value>) {
    |row| == |lams| && forall k :: 0 <= k < |lams| && lams[k].Some? ==> row[k] == Fn(lams[k].value)
  }

  /** One injected body, evaluated on any row, gives what the higher-order mother means on that row. */
  lemma {:induction false} RowInjectKeepsMeaning(stack: nat, fuel: nat, e: Expr, lams: seq<Option<LambdaValue>>, row: seq<Value>)
    requires NestedFree(e) && ReadsColumns(e, lams) && NamesLambdas(e, lams)
    requires RowFrame(lams, row)
    requires RowInject(stack, e, lams).Ok?
    requires Eval(false, stack, fuel, ScalarForm(e), row).Ok?
    ensures Eval(false, stack, fuel, RowInject(stack, e, lams).value, row) == Eval(false, stack, fuel, ScalarForm(e), row)
  {
    RowInjectIsInline(stack, e, lams);
    WithinAll(ScalarForm(e));
    var b := LambdaBinding(lams);
    forall m: nat ensures RepresentsAt(stack, fuel, b, row, row, m) { }
    InlineKeepsMeaning(stack, stack, fuel, fuel, ScalarForm(e), AllInputs, b, row, row);
  }

  // ---------------------------------------------------------------- when nothing is left to call

  /** The language of mothers: data columns, operators, calls of lambda columns. */
  predicate RowBody(e: Expr) {
    match e
    case Const(_) => true
    case Param(_, isFn) => !isFn
    case OpExpr(_, es) => forall i :: 0 <= i < |es| ==> RowBody(es[i])
    case CaseExpr(t, y, n) => RowBody(t) && RowBody(y) && RowBody(n)
    case Call(_, es) => forall i :: 0 <= i < |es| ==> ByName(es[i]) || RowBody(es[i])
    case _ => false
  }

  /** Lambda columns hold lambdas of their signature. */
  predicate StoredFit(lams: seq<Option<LambdaValue>>, g: Scope) {
    && |lams| == |g|
    && forall k :: 0 <= k < |g| ==>
      if g[k].TFun? then lams[k].Some? && LambdaFits(lams[k].value, g[k].inputs) else lams[k].None?
  }

  lemma {:induction false} FittingMother(e: Expr, g: Scope, lams: seq<Option<LambdaValue>>)
    requires RowBody(e) && Fits(ScalarForm(e), g, TNum) && StoredFit(lams, g)
    ensures ReadsColumns(e, lams) && NamesLambdas(e, lams)
  {
    match e
    case OpExpr(_, es) =>
      forall i | 0 <= i < |es| ensures ReadsColumns(es[i], lams) && NamesLambdas(es[i], lams) {
        assert ScalarForms(es)[i] == ScalarForm(es[i]);
        FittingMother(es[i], g, lams);
      }
    case CaseExpr(t, y, n) => FittingMother(t, g, lams); FittingMother(y, g, lams); FittingMother(n, g, lams);
    case Call(k, es) =>
      forall i | 0 <= i < |es|
        ensures ReadsColumns(es[i], lams)
        ensures if ByName(es[i]) then es[i].callee < |lams| && lams[es[i].callee].Some? else NamesLambdas(es[i], lams)
      {
        var x := ScalarArguments(es)[i];
        assert Fits(x, g, g[k].inputs[i]);
        if !ByName(es[i]) {
          FitsNumeric(es[i], g, g[k].inputs[i]);
          FittingMother(es[i], g, lams);
        }
      }
    case _ =>
  }

  lemma FitsNumeric(e: Expr, g: Scope, t: Type)
    requires RowBody(e) && Fits(ScalarForm(e), g, t)
    ensures t.TNum?
  {
  }

  lemma {:induction false} NestedFreeFlattens(stack: nat, e: Expr, g: Scope, lams: seq<Option<LambdaValue>>)
    requires RowBody(e) && NestedFree(e)
    requires Fits(ScalarForm(e), g, TNum) && StoredFit(lams, g) && OrderOf(g) <= stack
    ensures RowInject(stack, e, lams).Ok? && FirstOrder(RowInject(stack, e, lams).value)
    ensures Fits(RowInject(stack, e, lams).value, g, TNum)
  {
    FittingMother(e, g, lams);
    RowInjectIsInline(stack, e, lams);
    WithinAll(ScalarForm(e));
    InlineFits(stack, ScalarForm(e), g, g, TNum, LambdaBinding(lams), AllInputs);
    InlineFits(stack, ScalarForm(e), g, OpenScope(g), TNum, LambdaBinding(lams), AllInputs);
    NumericScopeFirstOrder(RowInject(stack, e, lams).value, OpenScope(g), TNum);
  }

  lemma {:induction false} PlainOrCalls(e: Expr)
    requires RowBody(e)
    ensures Plain(e) <==> FirstOrder(e)
  {
    match e
    case OpExpr(_, es) => forall i | 0 <= i < |es| ensures Plain(es[i]) <==> FirstOrder(es[i]) { PlainOrCalls(es[i]); }
    case CaseExpr(t, y, n) => PlainOrCalls(t); PlainOrCalls(y); PlainOrCalls(n);
    case _ =>
  }

  /** Bodies with nothing to walk into. */
  predicate Shallow(lams: seq<Option<LambdaValue>>) {
    forall k :: 0 <= k < |lams| && lams[k].Some? ==> lams[k].value.body.Param? || lams[k].value.body.Const?
  }

  lemma {:induction false} ArgumentsBind(es: seq<Expr>, lams: seq<Option<LambdaValue>>)
    requires forall i :: 0 <= i < |es| && ByName(es[i]) ==> es[i].callee < |lams|
    ensures ArgumentBinding(es, lams).Ok?
  {
    if es != [] { ArgumentsBind(es[1..], lams); }
  }

  /** Such lambdas are injected into every fitting mother. */
  lemma {:induction false} ShallowInjects(stack: nat, e: Expr, g: Scope, lams: seq<Option<LambdaValue>>)
    requires RowBody(e) && Fits(ScalarForm(e), g, TNum) && StoredFit(lams, g) && Shallow(lams) && stack > 0
    ensures RowInject(stack, e, lams).Ok?
    decreases e, 1
  {
    match e
    case OpExpr(_, es) =>
      forall i | 0 <= i < |es| ensures Fits(ScalarForm(es[i]), g, TNum) { assert ScalarForms(es)[i] == ScalarForm(es[i]); }
      ShallowInjectsAll(stack, es, g, lams);
    case CaseExpr(t, y, n) =>
      ShallowInjects(stack, t, g, lams); ShallowInjects(stack, y, g, lams); ShallowInjects(stack, n, g, lams);
    case Call(k, es) =>
      FittingMother(e, g, lams);
      ArgumentsBind(es, lams);
      assert LambdaFits(lams[k].value, g[k].inputs);
    case _ =>
  }

  lemma {:induction false} ShallowInjectsAll(stack: nat, es: seq<Expr>, g: Scope, lams: seq<Option<LambdaValue>>)
    requires forall i :: 0 <= i < |es| ==> RowBody(es[i]) && Fits(ScalarForm(es[i]), g, TNum)
    requires StoredFit(lams, g) && Shallow(lams) && stack > 0
    ensures RowInjectAll(stack, es, lams).Ok?
    decreases es, 0
  {
    if es != [] {
      ShallowInjects(stack, es[0], g, lams);
      ShallowInjectsAll(stack, es[1..], g, lams);
    }
  }

  /** Stored lambdas of the right signatures: column k returns its m-th argument, the others NULL. */
  function Probe(g: Scope, k: nat, m: nat): (lams: seq<Option<LambdaValue>>)
    requires k < |g| && g[k].TFun? && m < |g[k].inputs| && g[k].inputs[m].TNum?
    ensures StoredFit(lams, g) && Shallow(lams)
    ensures lams[k] == Some(LambdaValue(|g[k].inputs|, Param(m, false)))
  {
    seq(|g|, c requires 0 <= c < |g| =>
      if !g[c].TFun? then None
      else if c == k then Some(LambdaValue(|g[c].inputs|, Param(m, false)))
      else Some(LambdaValue(|g[c].inputs|, Const(Null))))
  }

  lemma {:induction false} NestedArgumentSurvives(stack: nat, k: nat, es: seq<Expr>, g: Scope)
    returns (lams: seq<Option<LambdaValue>>)
    requires RowBody(Call(k, es)) && !NestedFree(Call(k, es))
    requires Fits(ScalarForm(Call(k, es)), g, TNum) && OrderOf(g) <= stack
    ensures StoredFit(lams, g) && Shallow(lams) && stack > 0
    ensures Survives(stack, Call(k, es), lams)
  {
    var m :| 0 <= m < |es| && !ByName(es[m]) && !Plain(es[m]);
    assert ScalarArguments(es)[m] == ScalarForm(es[m]);
    FitsNumeric(es[m], g, g[k].inputs[m]);
    lams := Probe(g, k, m);
    PlainOrCalls(es[m]);
    assert Order(g[k]) >= 1;
    ShallowInjects(stack, Call(k, es), g, lams);
    ArgumentBindingAt(es, lams, m);
    assert Inline(stack - 1, Param(m, false), ArgumentBinding(es, lams).value) == Ok(es[m]);
  }

  /** The part of a body that stays higher-order makes the body stay so. */
  ghost predicate Survives(stack: nat, e: Expr, lams: seq<Option<LambdaValue>>) {
    RowInject(stack, e, lams).Ok? && !FirstOrder(RowInject(stack, e, lams).value)
  }

  lemma {:induction false} OperandSurvives(stack: nat, op: Operator, es: seq<Expr>, lams: seq<Option<LambdaValue>>, i: nat)
    requires i < |es| && Survives(stack, es[i], lams) && RowInject(stack, OpExpr(op, es), lams).Ok?
    ensures Survives(stack, OpExpr(op, es), lams)
  {
    RowInjectAllAt(stack, es, lams, i);
  }

  lemma BranchSurvives(stack: nat, t: Expr, y: Expr, n: Expr, lams: seq<Option<LambdaValue>>)
    requires Survives(stack, t, lams) || Survives(stack, y, lams) || Survives(stack, n, lams)
    requires RowInject(stack, CaseExpr(t, y, n), lams).Ok?
    ensures Survives(stack, CaseExpr(t, y, n), lams)
  {
  }

  /** A nested call: some lambdas make the injector leave it in place. */
  lemma {:induction false} NestedCallSurvives(stack: nat, e: Expr, g: Scope) returns (lams: seq<Option<LambdaValue>>)
    requires RowBody(e) && !NestedFree(e)
    requires Fits(ScalarForm(e), g, TNum) && OrderOf(g) <= stack
    ensures StoredFit(lams, g) && Shallow(lams) && stack > 0
    ensures Survives(stack, e, lams)
  {
    match e
    case OpExpr(op, es) =>
      var i :| 0 <= i < |es| && !NestedFree(es[i]);
      assert ScalarForms(es)[i] == ScalarForm(es[i]);
      lams := NestedCallSurvives(stack, es[i], g);
      ShallowInjects(stack, e, g, lams);
      OperandSurvives(stack, op, es, lams, i);
    case CaseExpr(t, y, n) =>
      if !NestedFree(t) { lams := NestedCallSurvives(stack, t, g); }
      else if !NestedFree(y) { lams := NestedCallSurvives(stack, y, g); }
      else { lams := NestedCallSurvives(stack, n, g); }
      ShallowInjects(stack, e, g, lams);
      BranchSurvives(stack, t, y, n, lams);
    case Call(k, es) =>
      lams := NestedArgumentSurvives(stack, k, es, g);
  }

  lemma {:induction false} RowInjectAllAt(stack: nat, es: seq<Expr>, lams: seq<Option<LambdaValue>>, i: nat)
    requires i < |es| && RowInjectAll(stack, es, lams).Ok?
    ensures RowInject(stack, es[i], lams) == Ok(RowInjectAll(stack, es, lams).value[i])
  {
    if i > 0 { RowInjectAllAt(stack, es[1..], lams, i - 1); }
  }

  lemma {:induction false} ArgumentBindingAt(es: seq<Expr>, lams: seq<Option<LambdaValue>>, m: nat)
    requires m < |es| && !ByName(es[m]) && ArgumentBinding(es, lams).Ok?
    ensures |ArgumentBinding(es, lams).value| == |es| && ArgumentBinding(es, lams).value[m] == Some(es[m])
  {
    if m > 0 { ArgumentBindingAt(es[1..], lams, m - 1); }
    else { ArgumentBindingLength(es, lams); }
  }

  lemma {:induction false} ArgumentBindingLength(es: seq<Expr>, lams: seq<Option<LambdaValue>>)
    requires ArgumentBinding(es, lams).Ok?
    ensures |ArgumentBinding(es, lams).value| == |es|
  {
    if es != [] { ArgumentBindingLength(es[1..], lams); }
  }

  ghost predicate AlwaysFlattens(stack: nat, e: Expr, g: Scope) {
    forall lams :: StoredFit(lams, g) ==> RowInject(stack, e, lams).Ok? && FirstOrder(RowInject(stack, e, lams).value)
  }

  /** The injected body is first-order for every choice of stored lambdas exactly if no call is nested in an argument. */
  lemma {:induction false} FlattensIffNestedFree(stack: nat, e: Expr, g: Scope)
    requires RowBody(e) && Fits(ScalarForm(e), g, TNum)
    requires OrderOf(g) <= stack
    ensures AlwaysFlattens(stack, e, g) <==> NestedFree(e)
  {
    if NestedFree(e) {
      forall lams | StoredFit(lams, g) ensures RowInject(stack, e, lams).Ok? && FirstOrder(RowInject(stack, e, lams).value) {
        NestedFreeFlattens(stack, e, g, lams);
      }
    } else {
      var lams := NestedCallSurvives(stack, e, g);
    }
  }
}
