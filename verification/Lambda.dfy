/**
 Column-stored ("scalar") lambdas: their bodies, how a call is evaluated, the
 inliner that flattens a higher-order body into a first-order one, and the constant
 folding every flattened or residual body goes through.

 A body calls its own function-valued inputs and nothing else: the parser resolves
 every other call of a lambda to a table column, which a body cannot name, and
 refuses a hole in a call of an input. Calls with holes therefore stand at query level.
 */
module Lambda {
  import opened Wrappers

  /** Why an evaluation or an injection stopped with an SQL error. */
  datatype Error =
    | DivisionByZero
    | BadSlot          // parameter or callee outside the argument frame
    | NotAFunction
    | WrongArity
    | NullFunction     // a NULL handed to the inliner at a function position
    | TooDeep          // the call or inlining depth allowed by the caller is used up
    | Injection        // the inliner gave up while a call was being prepared

  datatype Result<+T> = Ok(value: T) | Err(error: Error) {
    predicate IsFailure() { Err? }
    function PropagateFailure<U>(): Result<U>
      requires Err?
    {
      Err(error)
    }
    function Extract(): T
      requires Ok?
    {
      value
    }
  }

  datatype Operator = Add | Subtract | Multiply | Divide | Negate | Absolute

  datatype Value = Null | Num(n: real) | Fn(fn: LambdaValue)

  datatype LambdaValue = LambdaValue(arity: nat, body: Expr)

  datatype Expr =
    | Const(val: Value)
    | LambdaConst(lam: LambdaValue)                       // an embedded lambda, opaque to the inliner
    | Param(slot: nat, isFn: bool)                        // an input; isFn says it is of type lambda
    | OpExpr(op: Operator, operands: seq<Expr>)
    | CaseExpr(test: Expr, yes: Expr, no: Expr)
    | Call(callee: nat, args: seq<Expr>)                  // a call of a function-valued input

  // ---------------------------------------------------------------- operators

  function Operate(op: Operator, vs: seq<Value>): Result<Value> {
    if exists i :: 0 <= i < |vs| && vs[i].Null? then Ok(Null)     // strict
    else if exists i :: 0 <= i < |vs| && vs[i].Fn? then Err(NotAFunction)
    else if |vs| == 2 then
      (match op
       case Add => Ok(Num(vs[0].n + vs[1].n))
       case Subtract => Ok(Num(vs[0].n - vs[1].n))
       case Multiply => Ok(Num(vs[0].n * vs[1].n))
       case Divide => if vs[1].n == 0.0 then Err(DivisionByZero) else Ok(Num(vs[0].n / vs[1].n))
       case _ => Err(WrongArity))
    else if |vs| == 1 then
      (match op
       case Negate => Ok(Num(-vs[0].n))
       case Absolute => Ok(Num(if vs[0].n < 0.0 then -vs[0].n else vs[0].n))
       case _ => Err(WrongArity))
    else Err(WrongArity)
  }

  predicate Holds(v: Value) {
    v.Num? && v.n != 0.0
  }

  // ---------------------------------------------------------------- scans of a body

  /** Does the body call an input anywhere, also inside embedded lambdas? */
  predicate HasCall(e: Expr) {
    match e
    case Const(_) => false
    case LambdaConst(l) => HasCall(l.body)
    case Param(_, _) => false
    case OpExpr(_, es) => exists i :: 0 <= i < |es| && HasCall(es[i])
    case CaseExpr(t, y, n) => HasCall(t) || HasCall(y) || HasCall(n)
    case Call(_, _) => true
  }

  /** Is input p function-valued in this body: referenced as a lambda, or called? */
  predicate IsFunctionInput(e: Expr, p: nat) {
    match e
    case Const(_) => false
    case LambdaConst(_) => false
    case Param(i, isFn) => i == p && isFn
    case OpExpr(_, es) => exists i :: 0 <= i < |es| && IsFunctionInput(es[i], p)
    case CaseExpr(t, y, n) => IsFunctionInput(t, p) || IsFunctionInput(y, p) || IsFunctionInput(n, p)
    case Call(k, es) => k == p || exists i :: 0 <= i < |es| && IsFunctionInput(es[i], p)
  }

  /** The first reference to input p, left to right. */
  function Prototype(e: Expr, p: nat): (r: Option<Expr>)
    ensures r.Some? ==> r.value.Param? && r.value.slot == p
    decreases e, 1
  {
    match e
    case Const(_) => None
    case LambdaConst(_) => None
    case Param(i, _) => if i == p then Some(e) else None
    case OpExpr(_, es) => PrototypeIn(es, p)
    case CaseExpr(t, y, n) =>
      var r := Prototype(t, p);
      if r.Some? then r else var r' := Prototype(y, p); if r'.Some? then r' else Prototype(n, p)
    case Call(_, es) => PrototypeIn(es, p)
  }

  function PrototypeIn(es: seq<Expr>, p: nat): (r: Option<Expr>)
    ensures r.Some? ==> r.value.Param? && r.value.slot == p
    decreases es, 0
  {
    if es == [] then None
    else var r := Prototype(es[0], p); if r.Some? then r else PrototypeIn(es[1..], p)
  }

  // ---------------------------------------------------------------- the inliner

  /** What each input of the scope being walked stands for; None leaves a reference alone. */
  type Binding = seq<Option<Expr>>

  /**
   One walk of the inliner. `stack` bounds the nesting of inlined bodies: the
   recursion itself has no bound.
   */
  function Inline(stack: nat, e: Expr, b: Binding): Result<Expr>
    decreases stack, e, 1
  {
    match e
    case Const(_) => Ok(e)
    case LambdaConst(_) => Ok(e)
    case Param(i, _) => Ok(if i < |b| && b[i].Some? then b[i].value else e)
    case OpExpr(op, es) => var xs :- InlineAll(stack, es, b); Ok(OpExpr(op, xs))
    case CaseExpr(t, y, n) =>
      var t' :- Inline(stack, t, b);
      var y' :- Inline(stack, y, b);
      var n' :- Inline(stack, n, b);
      Ok(CaseExpr(t', y', n'))
    case Call(k, es) =>
      if k >= |b| then Err(BadSlot)
      else if b[k].Some? && b[k].value.LambdaConst? then
        var child := b[k].value.lam;
        if |es| != child.arity then Err(WrongArity)
        else
          var xs :- InlineAll(stack, es, b);
          if stack == 0 then Err(TooDeep)
          else Inline(stack - 1, child.body, AllBound(xs))
      else if b[k].Some? && b[k].value.Param? then
        var xs :- InlineAll(stack, es, b);
        Ok(Call(b[k].value.slot, xs))
      else Err(NotAFunction)
  }

  function InlineAll(stack: nat, es: seq<Expr>, b: Binding): (r: Result<seq<Expr>>)
    ensures r.Ok? ==> |r.value| == |es|
    decreases stack, es, 0
  {
    if es == [] then Ok([])
    else
      var x :- Inline(stack, es[0], b);
      var xs :- InlineAll(stack, es[1..], b);
      Ok([x] + xs)
  }

  function AllBound(xs: seq<Expr>): (b: Binding)
    ensures |b| == |xs|
    ensures forall i :: 0 <= i < |b| ==> b[i] == Some(xs[i])
  {
    seq(|xs|, i requires 0 <= i < |xs| => Some(xs[i]))
  }

  /** Every function input bound to its lambda value; atomic inputs are left for the row. */
  function FlattenBinding(body: Expr, vals: seq<Value>): (b: Binding)
    ensures |b| == |vals|
    ensures forall i :: 0 <= i < |b| ==>
      b[i] == if IsFunctionInput(body, i) && vals[i].Fn? then Some(LambdaConst(vals[i].fn)) else None
  {
    seq(|vals|, i requires 0 <= i < |vals| =>
      if IsFunctionInput(body, i) && vals[i].Fn? then Some(LambdaConst(vals[i].fn)) else None)
  }

  /** Flatten a called lambda: inline the lambda values found in its argument frame. */
  function Flatten(stack: nat, l: LambdaValue, vals: seq<Value>): Result<Expr> {
    if exists i :: 0 <= i < |vals| && IsFunctionInput(l.body, i) && !vals[i].Fn? then Err(NullFunction)
    else Inline(stack, l.body, FlattenBinding(l.body, vals))
  }

  // ---------------------------------------------------------------- constant folding

  /**
   Simplify what does not depend on the row. Operators are strict: one constant NULL
   operand makes the result NULL, constant operands are computed here and now. A
   constant test keeps one branch of a CASE and drops the other unseen; otherwise
   both branches are simplified, the one no row will take included. Embedded lambdas
   are simplified too.
   */
  function Fold(e: Expr): Result<Expr>
    decreases e, 1
  {
    match e
    case Const(_) => Ok(e)
    case LambdaConst(l) => var body :- Fold(l.body); Ok(LambdaConst(LambdaValue(l.arity, body)))
    case Param(_, _) => Ok(e)
    case OpExpr(op, es) => var xs :- FoldAll(es); FoldOperator(op, xs)
    case CaseExpr(t, y, n) =>
      var t' :- Fold(t);
      if t'.Const? then if Holds(t'.val) then Fold(y) else Fold(n)
      else
        var y' :- Fold(y);
        var n' :- Fold(n);
        Ok(CaseExpr(t', y', n'))
    case Call(k, es) => var xs :- FoldAll(es); Ok(Call(k, xs))
  }

  function FoldAll(es: seq<Expr>): (r: Result<seq<Expr>>)
    ensures r.Ok? ==> |r.value| == |es|
    decreases es, 0
  {
    if es == [] then Ok([])
    else
      var x :- Fold(es[0]);
      var xs :- FoldAll(es[1..]);
      Ok([x] + xs)
  }

  function FoldOperator(op: Operator, xs: seq<Expr>): Result<Expr> {
    if exists i :: 0 <= i < |xs| && xs[i] == Const(Null) then Ok(Const(Null))
    else if exists i :: 0 <= i < |xs| && !xs[i].Const? then Ok(OpExpr(op, xs))
    else
      var v :- Operate(op, seq(|xs|, i requires 0 <= i < |xs| => if xs[i].Const? then xs[i].val else Null));
      Ok(Const(v))
  }

  // ---------------------------------------------------------------- partial application

  /** How many held positions come before p: the dense residual slot of a held p. */
  function HeldBefore(held: set<nat>, p: nat): (n: nat)
    ensures n <= p
  {
    if p == 0 then 0 else HeldBefore(held, p - 1) + (if p - 1 in held then 1 else 0)
  }

  function ResidualBinding(l: LambdaValue, held: set<nat>, vals: seq<Value>): (b: Binding)
    requires |vals| == l.arity
    ensures |b| == l.arity
    ensures forall p :: 0 <= p < l.arity ==> b[p] == ResidualBindingAt(l, held, vals, p)
  {
    seq(l.arity, p requires 0 <= p < l.arity => ResidualBindingAt(l, held, vals, p))
  }

  function ResidualBindingAt(l: LambdaValue, held: set<nat>, vals: seq<Value>, p: nat): Option<Expr>
    requires |vals| == l.arity
    requires p < l.arity
  {
    var proto := Prototype(l.body, p);
    if p in held then
      Some(Param(HeldBefore(held, p), if proto.Some? then proto.value.isFn else true))
    else if IsFunctionInput(l.body, p) then
      if vals[p].Fn? then Some(LambdaConst(vals[p].fn)) else None
    else if proto.Some? then Some(Const(vals[p]))
    else None
  }

  /** The body of l with the filled positions baked in and the held ones renumbered. */
  function Bake(stack: nat, l: LambdaValue, held: set<nat>, vals: seq<Value>): Result<Expr>
    requires |vals| == l.arity
  {
    if exists p :: 0 <= p < l.arity && p !in held && IsFunctionInput(l.body, p) && !vals[p].Fn? then
      Err(NullFunction)
    else Inline(stack, l.body, ResidualBinding(l, held, vals))
  }

  /** The residual lambda of l with the positions in `held` left open; vals is full length. */
  function PartialApply(stack: nat, l: LambdaValue, held: set<nat>, vals: seq<Value>): Result<LambdaValue>
    requires |vals| == l.arity
  {
    var baked :- Bake(stack, l, held, vals);
    var body :- Fold(baked);
    Ok(LambdaValue(HeldBefore(held, l.arity), body))
  }

  /** Lay the filled arguments, in order, over the positions that are not held. */
  function Spread(n: nat, held: set<nat>, filled: seq<Value>): (r: Result<seq<Value>>)
    ensures r.Ok? ==> |r.value| == n
  {
    if n == 0 then Ok([])
    else
      var front :- Spread(n - 1, held, filled);
      if n - 1 in held then Ok(front + [Null])
      else
        var cursor := n - 1 - HeldBefore(held, n - 1);
        if cursor >= |filled| then Err(WrongArity) else Ok(front + [filled[cursor]])
  }

  /** A call with holes, at query level: the residual as a value, NULL for a NULL lambda. */
  function CallWithHoles(stack: nat, f: Value, held: set<nat>, filled: seq<Value>): Result<Value> {
    match f
    case Null => Ok(Null)
    case Num(_) => Err(NotAFunction)
    case Fn(l) =>
      var full :- Spread(l.arity, held, filled);
      var residual :- PartialApply(stack, l, held, full);
      Ok(Fn(residual))
  }

  // ---------------------------------------------------------------- evaluation

  /**
   Evaluate a body in an argument frame. With `hoist`, a callee that calls its own
   inputs is flattened and folded before its body runs; without, the calls nest.
   `fuel` bounds the depth of nested calls, `stack` the depth of inlining.
   */
  function Eval(hoist: bool, stack: nat, fuel: nat, e: Expr, env: seq<Value>): Result<Value>
    decreases fuel, e, 1
  {
    match e
    case Const(v) => Ok(v)
    case LambdaConst(l) => Ok(Fn(l))
    case Param(i, _) => if i < |env| then Ok(env[i]) else Err(BadSlot)
    case OpExpr(op, es) => var vs :- EvalAll(hoist, stack, fuel, es, env); Operate(op, vs)
    case CaseExpr(t, y, n) =>
      var c :- Eval(hoist, stack, fuel, t, env);
      if Holds(c) then Eval(hoist, stack, fuel, y, env) else Eval(hoist, stack, fuel, n, env)
    case Call(k, es) =>
      if k >= |env| then Err(BadSlot)
      else
        var vs :- EvalAll(hoist, stack, fuel, es, env);
        Invoke(hoist, stack, fuel, e, env[k], vs)
  }

  function EvalAll(hoist: bool, stack: nat, fuel: nat, es: seq<Expr>, env: seq<Value>): (r: Result<seq<Value>>)
    ensures r.Ok? ==> |r.value| == |es|
    decreases fuel, es, 0
  {
    if es == [] then Ok([])
    else
      var v :- Eval(hoist, stack, fuel, es[0], env);
      var vs :- EvalAll(hoist, stack, fuel, es[1..], env);
      Ok([v] + vs)
  }

  /** Run a lambda value on evaluated arguments; a NULL lambda yields NULL. */
  function Invoke(hoist: bool, stack: nat, fuel: nat, site: Expr, f: Value, vs: seq<Value>): Result<Value>
    decreases fuel, site, 0
  {
    match f
    case Null => Ok(Null)
    case Num(_) => Err(NotAFunction)
    case Fn(l) =>
      if l.arity > |vs| then Err(WrongArity)
      else if fuel == 0 then Err(TooDeep)
      else if hoist && HasCall(l.body) then
        var flat := Flatten(stack, l, vs);
        if flat.Err? then Err(Injection)
        else
          var body :- Fold(flat.value);
          Eval(hoist, stack, fuel - 1, body, vs)
      else Eval(hoist, stack, fuel - 1, l.body, vs)
  }
}
