/**
 Partial application. Calling a stored residual f(_, h) later with the held
 arguments gives what calling f directly with all arguments gives, provided the
 residual can be built: it is folded when it is made, so a constant division by zero
 that the direct call would never reach is raised at once.
 */
module LambdaPartial {
  import opened Lambda
  import opened LambdaMeaning
  import opened LambdaTyping
  import opened LambdaModes
  import opened Wrappers

  /** The full argument frame: held positions from `rest`, in order, the others from `vals`. */
  function Merge(n: nat, held: set<nat>, vals: seq<Value>, rest: seq<Value>): (r: seq<Value>)
    requires |vals| == n
    requires |rest| == HeldBefore(held, n)
    ensures |r| == n
    ensures forall p :: 0 <= p < n && p !in held ==> r[p] == vals[p]
  {
    seq(n, p requires 0 <= p < n =>
      if p in held then HeldSlotInRange(held, p, n); rest[HeldBefore(held, p)] else vals[p])
  }

  lemma {:induction false} HeldSlotInRange(held: set<nat>, p: nat, n: nat)
    requires p < n
    ensures HeldBefore(held, p) <= HeldBefore(held, n)
    ensures p in held ==> HeldBefore(held, p) < HeldBefore(held, n)
  {
    if p + 1 < n { HeldSlotInRange(held, p, n - 1); }
  }

  /** Residual slots are dense and in order: held positions keep their order and never share a slot. */
  lemma {:induction false} HeldSlotsDistinct(held: set<nat>, p: nat, q: nat)
    requires p < q && p in held && q in held
    ensures HeldBefore(held, p) < HeldBefore(held, q)
  {
    HeldSlotInRange(held, p, q);
  }

  ghost predicate Refers(e: Expr, p: nat) {
    Prototype(e, p).Some? || IsFunctionInput(e, p)
  }

  lemma {:induction false} PrototypeInSome(es: seq<Expr>, i: nat, p: nat)
    requires i < |es| && Prototype(es[i], p).Some?
    ensures PrototypeIn(es, p).Some?
  {
    if i > 0 {
      assert es[1..][i - 1] == es[i];
      PrototypeInSome(es[1..], i - 1, p);
    }
  }

  lemma {:induction false} WithinReferred(e: Expr, u: iset<nat>)
    requires forall p: nat :: Refers(e, p) ==> p in u
    ensures Within(e, u)
  {
    match e
    case Const(_) =>
    case LambdaConst(_) =>
    case Param(i, _) => assert Refers(e, i);
    case OpExpr(_, es) => WithinReferredAll(e, es, u);
    case CaseExpr(t, y, n) =>
      forall p: nat | Refers(t, p) ensures p in u { assert Refers(e, p); }
      forall p: nat | Refers(y, p) ensures p in u { assert Refers(e, p); }
      forall p: nat | Refers(n, p) ensures p in u { assert Refers(e, p); }
      WithinReferred(t, u); WithinReferred(y, u); WithinReferred(n, u);
    case Call(k, es) =>
      assert Refers(e, k);
      WithinReferredAll(e, es, u);
  }

  lemma {:induction false} WithinReferredAll(e: Expr, es: seq<Expr>, u: iset<nat>)
    requires (e.OpExpr? && es == e.operands) || (e.Call? && es == e.args)
    requires forall p: nat :: Refers(e, p) ==> p in u
    ensures forall i :: 0 <= i < |es| ==> Within(es[i], u)
    decreases e, 0
  {
    forall i | 0 <= i < |es| ensures Within(es[i], u) {
      forall p: nat | Refers(es[i], p) ensures p in u {
        if Prototype(es[i], p).Some? { PrototypeInSome(es, i, p); }
        assert Refers(e, p);
      }
      WithinReferred(es[i], u);
    }
  }

  /** The residual body, run on the held arguments, means what the mother body means on the merged frame. */
  lemma {:induction false} ResidualKeepsMeaning(stack: nat, fuel: nat, l: LambdaValue, held: set<nat>,
                                                vals: seq<Value>, rest: seq<Value>)
    requires |vals| == l.arity
    requires |rest| == HeldBefore(held, l.arity)
    requires PartialApply(stack, l, held, vals).Ok?
    requires Eval(false, stack, fuel, l.body, Merge(l.arity, held, vals, rest)).Ok?
    ensures Eval(false, stack, fuel, PartialApply(stack, l, held, vals).value.body, rest).Ok?
    ensures Same(Eval(false, stack, fuel, l.body, Merge(l.arity, held, vals, rest)).value,
                 Eval(false, stack, fuel, PartialApply(stack, l, held, vals).value.body, rest).value)
  {
    var u := iset p: nat | Refers(l.body, p);
    var b := ResidualBinding(l, held, vals);
    var env := Merge(l.arity, held, vals, rest);
    WithinReferred(l.body, u);
    forall m: nat | m in u ensures RepresentsAt(stack, fuel, b, env, rest, m) {
      if m < l.arity && m in held { HeldSlotInRange(held, m, l.arity); }
    }
    InlineKeepsMeaning(stack, stack, fuel, fuel, l.body, u, b, env, rest);
    var baked := Bake(stack, l, held, vals).value;
    FoldKeepsMeaning(stack, fuel, baked, Fold(baked).value, rest, rest);
  }

  // ---------------------------------------------------------------- signatures of residuals

  /** The signature of the residual: the held inputs among the first n, in order. */
  function HeldScope(g: Scope, held: set<nat>, n: nat): (d: Scope)
    requires n <= |g|
    ensures |d| == HeldBefore(held, n)
  {
    if n == 0 then [] else HeldScope(g, held, n - 1) + (if n - 1 in held then [g[n - 1]] else [])
  }

  lemma {:induction false} HeldScopeAt(g: Scope, held: set<nat>, n: nat, p: nat)
    requires p < n <= |g| && p in held
    ensures HeldBefore(held, p) < HeldBefore(held, n) && HeldScope(g, held, n)[HeldBefore(held, p)] == g[p]
  {
    if p < n - 1 {
      HeldScopeAt(g, held, n - 1, p);
      assert HeldScope(g, held, n)[HeldBefore(held, p)] == HeldScope(g, held, n - 1)[HeldBefore(held, p)];
    }
  }

  lemma {:induction false} HeldScopeFrom(g: Scope, held: set<nat>, n: nat, i: nat) returns (p: nat)
    requires n <= |g| && i < HeldBefore(held, n)
    ensures p < n && p in held && HeldBefore(held, p) == i
    ensures HeldScope(g, held, n)[i] == g[p]
  {
    if i < HeldBefore(held, n - 1) {
      p := HeldScopeFrom(g, held, n - 1, i);
    } else {
      p := n - 1;
    }
  }

  lemma {:induction false} OrderBound(ts: seq<Type>, n: nat)
    requires forall i :: 0 <= i < |ts| ==> Order(ts[i]) <= n
    ensures OrderOf(ts) <= n
  {
    if ts != [] {
      assert forall i :: 0 <= i < |ts[1..]| ==> ts[1..][i] == ts[i + 1];
      OrderBound(ts[1..], n);
    }
  }

  /** Holding inputs back never raises the order of the signature. */
  lemma {:induction false} HeldScopeOrder(g: Scope, held: set<nat>)
    ensures OrderOf(HeldScope(g, held, |g|)) <= OrderOf(g)
  {
    var d := HeldScope(g, held, |g|);
    forall i | 0 <= i < |d| ensures Order(d[i]) <= OrderOf(g) {
      var p := HeldScopeFrom(g, held, |g|, i);
    }
    OrderBound(d, OrderOf(g));
  }

  /** The reference found for an input has the type the signature gives the input. */
  lemma {:induction false} PrototypeFits(e: Expr, g: Scope, t: Type, p: nat)
    requires Fits(e, g, t) && Prototype(e, p).Some?
    ensures p < |g| && Prototype(e, p).value.isFn == g[p].TFun?
    ensures Prototype(e, p).value.isFn ==> IsFunctionInput(e, p)
    decreases e, 1
  {
    match e
    case Param(_, _) =>
    case OpExpr(_, es) => PrototypeInFits(es, g, seq(|es|, _ => TNum), p);
    case CaseExpr(c, y, n) =>
      if Prototype(c, p).Some? { PrototypeFits(c, g, TNum, p); }
      else if Prototype(y, p).Some? { PrototypeFits(y, g, TNum, p); }
      else { PrototypeFits(n, g, TNum, p); }
    case Call(k, es) => PrototypeInFits(es, g, g[k].inputs, p);
  }

  lemma {:induction false} PrototypeInFits(es: seq<Expr>, g: Scope, ts: seq<Type>, p: nat)
    requires |ts| == |es| && PrototypeIn(es, p).Some?
    requires forall i :: 0 <= i < |es| ==> Fits(es[i], g, ts[i])
    ensures p < |g| && PrototypeIn(es, p).value.isFn == g[p].TFun?
    ensures PrototypeIn(es, p).value.isFn ==> exists i :: 0 <= i < |es| && IsFunctionInput(es[i], p)
    decreases es, 0
  {
    if Prototype(es[0], p).Some? {
      PrototypeFits(es[0], g, ts[0], p);
    } else {
      PrototypeInFits(es[1..], g, ts[1..], p);
      if PrototypeIn(es, p).value.isFn {
        var i :| 0 <= i < |es[1..]| && IsFunctionInput(es[1..][i], p);
        assert IsFunctionInput(es[i + 1], p);
      }
    }
  }

  /** The filled arguments fit the signature; what stands at held positions does not matter. */
  predicate FilledFits(vals: seq<Value>, g: Scope, held: set<nat>) {
    |vals| == |g| && forall p :: 0 <= p < |g| && p !in held ==> ValueFits(vals[p], g[p])
  }

  /**
   A residual of fitting arguments fits the signature of what is held, and it can be
   built exactly if the baked body holds no constant division by zero.
   */
  lemma {:induction false} ResidualFits(stack: nat, l: LambdaValue, g: Scope, held: set<nat>, vals: seq<Value>)
    requires LambdaFits(l, g) && FilledFits(vals, g, held) && OrderOf(g) <= stack
    ensures Bake(stack, l, held, vals).Ok?
    ensures PartialApply(stack, l, held, vals).Ok? <==> !ConstantDivision(Bake(stack, l, held, vals).value)
    ensures PartialApply(stack, l, held, vals).Ok? ==>
      LambdaFits(PartialApply(stack, l, held, vals).value, HeldScope(g, held, |g|))
    ensures PartialApply(stack, l, held, vals).Err? ==> PartialApply(stack, l, held, vals) == Err(DivisionByZero)
  {
    var d, b, u := HeldScope(g, held, |g|), ResidualBinding(l, held, vals), iset p: nat | Refers(l.body, p);
    WithinReferred(l.body, u);
    forall m: nat | m in u && m < |g| ensures b[m].Some? && Fits(b[m].value, d, g[m]) {
      if IsFunctionInput(l.body, m) { FunctionInputIsFunction(l.body, g, TNum, m); }
      if Prototype(l.body, m).Some? { PrototypeFits(l.body, g, TNum, m); }
      if m in held { HeldScopeAt(g, held, |g|, m); }
    }
    InlineFits(stack, l.body, g, d, TNum, b, u);
    forall p | 0 <= p < l.arity && p !in held && IsFunctionInput(l.body, p) ensures vals[p].Fn? {
      FunctionInputIsFunction(l.body, g, TNum, p);
    }
    var baked := Bake(stack, l, held, vals).value;
    FoldsIff(baked, d, TNum);
    FoldFits(baked, d, TNum);
  }

  lemma {:induction false} MergeFits(l: LambdaValue, g: Scope, held: set<nat>, vals: seq<Value>, rest: seq<Value>)
    requires |g| == l.arity && FilledFits(vals, g, held) && FrameFits(rest, HeldScope(g, held, |g|))
    ensures FrameFits(Merge(l.arity, held, vals, rest), g)
  {
    forall p | 0 <= p < |g| ensures ValueFits(Merge(l.arity, held, vals, rest)[p], g[p]) {
      if p in held { HeldScopeAt(g, held, |g|, p); }
    }
  }

  // ---------------------------------------------------------------- direct against staged

  lemma {:induction false} NestedStages(stack: nat, fuel: nat, site: Expr, l: LambdaValue, g: Scope, held: set<nat>,
                                        vals: seq<Value>, rest: seq<Value>)
    requires LambdaFits(l, g) && FilledFits(vals, g, held) && FrameFits(rest, HeldScope(g, held, |g|))
    requires OrderOf(g) < fuel && PartialApply(stack, l, held, vals).Ok?
    requires Invoke(false, stack, fuel, site, Fn(l), Merge(l.arity, held, vals, rest)).Ok?
    ensures Invoke(false, stack, fuel, site, Fn(PartialApply(stack, l, held, vals).value), rest)
         == Invoke(false, stack, fuel, site, Fn(l), Merge(l.arity, held, vals, rest))
  {
    MergeFits(l, g, held, vals, rest);
    InvokeOutcome(false, stack, fuel, site, l, g, Merge(l.arity, held, vals, rest));
    ResidualKeepsMeaning(stack, fuel - 1, l, held, vals, rest);
  }

  /**
   Direct call against staged call. The residual can be built exactly if baking leaves
   no constant division by zero; then, wherever the direct call returns a value, the
   staged call returns it, in either mode, unless flattening the residual for its
   later arguments brings such a division about.
   */
  lemma {:induction false} StagedCallAgrees(stack: nat, fuel: nat, site: Expr, l: LambdaValue, g: Scope, held: set<nat>,
                                            vals: seq<Value>, rest: seq<Value>)
    requires LambdaFits(l, g) && FilledFits(vals, g, held) && FrameFits(rest, HeldScope(g, held, |g|))
    requires OrderOf(g) < fuel && OrderOf(g) <= stack
    ensures Bake(stack, l, held, vals).Ok?
    ensures var r := PartialApply(stack, l, held, vals);
            r == Err(DivisionByZero) <==> ConstantDivision(Bake(stack, l, held, vals).value)
    ensures var direct, r := Invoke(false, stack, fuel, site, Fn(l), Merge(l.arity, held, vals, rest)), PartialApply(stack, l, held, vals);
            r.Ok? && direct.Ok? ==>
              && Invoke(false, stack, fuel, site, Fn(r.value), rest) == direct
              && Invoke(true, stack, fuel, site, Fn(r.value), rest)
                 == if BuildDivides(stack, r.value, rest) then Err(DivisionByZero) else direct
  {
    ResidualFits(stack, l, g, held, vals);
    if PartialApply(stack, l, held, vals).Ok? && Invoke(false, stack, fuel, site, Fn(l), Merge(l.arity, held, vals, rest)).Ok? {
      NestedStages(stack, fuel, site, l, g, held, vals, rest);
      HeldScopeOrder(g, held);
      ModesAgree(stack, fuel, site, PartialApply(stack, l, held, vals).value, HeldScope(g, held, |g|), rest);
    }
  }

  /** Holes filled in two stages: a residual of a residual still means the mother. */
  lemma {:induction false} TwoStagesAgree(stack: nat, fuel: nat, site: Expr, l: LambdaValue, g: Scope,
                                          held: set<nat>, vals: seq<Value>, held': set<nat>, vals': seq<Value>, rest: seq<Value>)
    requires LambdaFits(l, g) && FilledFits(vals, g, held) && PartialApply(stack, l, held, vals).Ok?
    requires var d := HeldScope(g, held, |g|);
             FilledFits(vals', d, held') && FrameFits(rest, HeldScope(d, held', |d|))
    requires OrderOf(g) < fuel && OrderOf(g) <= stack
    ensures var d, r := HeldScope(g, held, |g|), PartialApply(stack, l, held, vals).value;
            && LambdaFits(r, d)
            && (var direct, r' := Invoke(false, stack, fuel, site, Fn(l), Merge(l.arity, held, vals, Merge(|d|, held', vals', rest))),
                                  PartialApply(stack, r, held', vals');
                r'.Ok? && direct.Ok? ==>
                  && Invoke(false, stack, fuel, site, Fn(r'.value), rest) == direct
                  && Invoke(true, stack, fuel, site, Fn(r'.value), rest)
                     == if BuildDivides(stack, r'.value, rest) then Err(DivisionByZero) else direct)
  {
    var d, r := HeldScope(g, held, |g|), PartialApply(stack, l, held, vals).value;
    ResidualFits(stack, l, g, held, vals);
    MergeFits(r, d, held', vals', rest);
    HeldScopeOrder(g, held);
    StagedCallAgrees(stack, fuel, site, l, g, held, vals, Merge(|d|, held', vals', rest));
    StagedCallAgrees(stack, fuel, site, r, d, held', vals', rest);
  }

  /**
   A call with holes, from the arguments written in it: it is refused exactly on a constant division by
   zero, and otherwise yields a lambda that, given the rest, returns what the full call returns.
   */
  lemma {:induction false} HoleCallAgrees(stack: nat, fuel: nat, site: Expr, l: LambdaValue, g: Scope, held: set<nat>,
                                          filled: seq<Value>, rest: seq<Value>)
    requires LambdaFits(l, g) && Spread(l.arity, held, filled).Ok? && FilledFits(Spread(l.arity, held, filled).value, g, held)
    requires FrameFits(rest, HeldScope(g, held, |g|)) && OrderOf(g) < fuel && OrderOf(g) <= stack
    ensures var full, r := Spread(l.arity, held, filled).value, CallWithHoles(stack, Fn(l), held, filled);
            && Bake(stack, l, held, full).Ok?
            && (r == Err(DivisionByZero) <==> ConstantDivision(Bake(stack, l, held, full).value))
            && (r.Err? ==> r == Err(DivisionByZero)) && (r.Ok? ==> r.value.Fn?)
            && (var direct := Invoke(false, stack, fuel, site, Fn(l), Merge(l.arity, held, full, rest));
                r.Ok? && direct.Ok? ==> Invoke(false, stack, fuel, site, r.value, rest) == direct)
  {
    var full := Spread(l.arity, held, filled).value;
    ResidualFits(stack, l, g, held, full);
    StagedCallAgrees(stack, fuel, site, l, g, held, full, rest);
  }

  /** lambda(x, y)(CASE WHEN x THEN 1 / y ELSE 1 END). */
  function GuardedInverse(): LambdaValue {
    LambdaValue(2, CaseExpr(Param(0, false), Reciprocal(1), Const(Num(1.0))))
  }

  lemma FirstHeld(g: Scope)
    requires |g| == 2
    ensures HeldBefore({0}, 0) == 0 && HeldBefore({0}, 1) == 1 && HeldBefore({0}, 2) == 1
    ensures HeldScope(g, {0}, 2) == [g[0]]
  {
    assert HeldScope(g, {0}, 0) == [] && HeldScope(g, {0}, 1) == [g[0]];
  }

  lemma GuardedInverseBinding(vals: seq<Value>)
    requires vals == [Null, Num(0.0)]
    ensures ResidualBinding(GuardedInverse(), {0}, vals) == [Some(Param(0, false)), Some(Const(Num(0.0)))]
  {
    var l, es := GuardedInverse(), [Const(Num(1.0)), Param(1, false)];
    FirstHeld([TNum, TNum]);
    assert es[1..] == [Param(1, false)];
    assert Prototype(es[0], 1) == None && Prototype(es[1], 1) == Some(es[1]);
    assert PrototypeIn(es, 1) == Some(es[1]);
    assert Prototype(Reciprocal(1), 1) == Some(es[1]);
    assert Prototype(l.body, 1) == Some(es[1]) && Prototype(l.body, 0) == Some(Param(0, false));
    assert !IsFunctionInput(Reciprocal(1), 1);
  }

  lemma GuardedInverseBakes(vals: seq<Value>)
    requires vals == [Null, Num(0.0)]
    ensures PartialApply(2, GuardedInverse(), {0}, vals) == Err(DivisionByZero)
  {
    var l, g := GuardedInverse(), [TNum, TNum];
    GuardedInverseBinding(vals);
    var b := ResidualBinding(l, {0}, vals);
    ReciprocalOfZero(false, 2, 1, 1, b, vals);
    assert Fits(Reciprocal(1), g, TNum);
    ResidualFits(2, l, g, {0}, vals);
    assert ConstantDivision(Bake(2, l, {0}, vals).value.yes);
  }

  lemma GuardedInverseFits(g: Scope)
    requires g == [TNum, TNum]
    ensures LambdaFits(GuardedInverse(), g)
  {
    assert Fits(Reciprocal(1), g, TNum);
  }

  lemma GuardedInverseMerges(n: nat, vals: seq<Value>, rest: seq<Value>)
    requires n == 2 && vals == [Null, Num(0.0)] && rest == [Num(0.0)]
    ensures HeldBefore({0}, 2) == 1 && Merge(n, {0}, vals, rest) == [Num(0.0), Num(0.0)]
  {
    FirstHeld([TNum, TNum]);
  }

  lemma GuardedInverseReturns(env: seq<Value>)
    requires env == [Num(0.0), Num(0.0)]
    ensures Invoke(false, 2, 2, Const(Null), Fn(GuardedInverse()), env) == Ok(Num(1.0))
  {
    assert Eval(false, 2, 1, GuardedInverse().body, env) == Ok(Num(1.0));
  }

  /** f(_, 0) of that lambda cannot be built, while f(false, 0) returns 1. */
  lemma StagingDivides()
    ensures exists l: LambdaValue, g: Scope, held: set<nat>, vals: seq<Value>, rest: seq<Value> ::
      && LambdaFits(l, g) && FilledFits(vals, g, held) && FrameFits(rest, HeldScope(g, held, |g|))
      && PartialApply(2, l, held, vals) == Err(DivisionByZero)
      && Invoke(false, 2, 2, Const(Null), Fn(l), Merge(l.arity, held, vals, rest)) == Ok(Num(1.0))
  {
    var l, g, held, vals, rest := GuardedInverse(), [TNum, TNum], {0 as nat}, [Null, Num(0.0)], [Num(0.0)];
    GuardedInverseBakes(vals);
    GuardedInverseFrames(g, held, vals, rest);
    GuardedInverseFits(g);
    GuardedInverseMerges(l.arity, vals, rest);
    GuardedInverseReturns(Merge(l.arity, held, vals, rest));
  }

  lemma GuardedInverseFrames(g: Scope, held: set<nat>, vals: seq<Value>, rest: seq<Value>)
    requires g == [TNum, TNum] && held == {0} && vals == [Null, Num(0.0)] && rest == [Num(0.0)]
    ensures FilledFits(vals, g, held) && FrameFits(rest, HeldScope(g, held, |g|))
  {
    FirstHeld(g);
  }

  /** The arguments of a call with holes reach the positions they were written for. */
  lemma {:induction false} SpreadPlaces(n: nat, held: set<nat>, filled: seq<Value>, p: nat)
    requires p < n && p !in held
    requires Spread(n, held, filled).Ok?
    ensures 0 <= p - HeldBefore(held, p) < |filled|
    ensures Spread(n, held, filled).value[p] == filled[p - HeldBefore(held, p)]
  {
    if p < n - 1 {
      SpreadPlaces(n - 1, held, filled, p);
      assert Spread(n, held, filled).value[p] == Spread(n - 1, held, filled).value[p];
    }
  }
}
