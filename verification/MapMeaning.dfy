/**
 The map operator end to end: the mother lambda is injected and folded once per stored
 row of lambdas, the workers evaluate those bodies, and what comes out is what the
 higher-order mother means wherever that is a number.
 */
module MapMeaning {
  import opened Lambda
  import opened LambdaMeaning
  import opened LambdaTyping
  import opened LambdaRow
  import opened LambdaModes
  import MP = MapProtocol
  import MapProofs
  import opened Wrappers

  /** Data columns first, then the lambda columns. */
  function Columns(data: nat, lambdas: seq<LambdaValue>): (lams: seq<Option<LambdaValue>>)
    ensures |lams| == data + |lambdas|
    ensures forall k :: 0 <= k < data ==> lams[k] == None
    ensures forall k :: data <= k < |lams| ==> lams[k] == Some(lambdas[k - data])
  {
    seq(data, _ => None) + seq(|lambdas|, k requires 0 <= k < |lambdas| => Some(lambdas[k]))
  }

  function Frame(row: seq<Value>, lambdas: seq<LambdaValue>): (env: seq<Value>)
    ensures |env| == |row| + |lambdas|
    ensures forall k :: 0 <= k < |row| ==> env[k] == row[k]
    ensures forall k :: |row| <= k < |env| ==> env[k] == Fn(lambdas[k - |row|])
  {
    row + seq(|lambdas|, k requires 0 <= k < |lambdas| => Fn(lambdas[k]))
  }

  // ---------------------------------------------------------------- the leader's loop over the lambdas

  /** One body per stored row of lambdas: injected, then folded. An error ends the operator before any worker runs. */
  function Bodies(stack: nat, mother: Expr, data: nat, table: seq<seq<LambdaValue>>): (r: Result<seq<Expr>>)
    ensures r.Ok? ==> |r.value| == |table|
  {
    if table == [] then Ok([])
    else
      var front :- Bodies(stack, mother, data, table[..|table| - 1]);
      var injected :- RowInject(stack, mother, Columns(data, table[|table| - 1]));
      var body :- Fold(injected);
      Ok(front + [body])
  }

  lemma {:induction false} BodiesAt(stack: nat, mother: Expr, data: nat, table: seq<seq<LambdaValue>>, l: nat)
    requires l < |table| && Bodies(stack, mother, data, table).Ok?
    ensures var injected := RowInject(stack, mother, Columns(data, table[l]));
            injected.Ok? && Fold(injected.value) == Ok(Bodies(stack, mother, data, table).value[l])
  {
    if l < |table| - 1 {
      BodiesAt(stack, mother, data, table[..|table| - 1], l);
    }
  }

  /** What every stored row of lambdas must be for the signature. */
  ghost predicate TableFits(data: nat, table: seq<seq<LambdaValue>>, g: Scope) {
    forall l :: 0 <= l < |table| ==> StoredFit(Columns(data, table[l]), g)
  }

  /** The body injected for one stored row holds a constant division by zero. */
  ghost predicate Divides(stack: nat, mother: Expr, lams: seq<Option<LambdaValue>>) {
    RowInject(stack, mother, lams).Ok? && ConstantDivision(RowInject(stack, mother, lams).value)
  }

  lemma {:induction false} BodyIff(stack: nat, mother: Expr, lams: seq<Option<LambdaValue>>, g: Scope)
    requires RowBody(mother) && NestedFree(mother) && Fits(ScalarForm(mother), g, TNum)
    requires OrderOf(g) <= stack && StoredFit(lams, g)
    ensures RowInject(stack, mother, lams).Ok? && (Fold(RowInject(stack, mother, lams).value).Err? <==> Divides(stack, mother, lams))
  {
    NestedFreeFlattens(stack, mother, g, lams);
    FoldsIff(RowInject(stack, mother, lams).value, g, TNum);
  }

  /** One more stored row. */
  lemma BodiesNext(stack: nat, mother: Expr, data: nat, table: seq<seq<LambdaValue>>, lams: seq<Option<LambdaValue>>)
    requires table != [] && lams == Columns(data, table[|table| - 1]) && RowInject(stack, mother, lams).Ok?
    ensures Bodies(stack, mother, data, table).Ok? <==>
      Bodies(stack, mother, data, table[..|table| - 1]).Ok? && Fold(RowInject(stack, mother, lams).value).Ok?
  {
  }

  ghost predicate NoneDivides(stack: nat, mother: Expr, data: nat, table: seq<seq<LambdaValue>>) {
    forall l :: 0 <= l < |table| ==> !Divides(stack, mother, Columns(data, table[l]))
  }

  lemma NoneDividesNext(stack: nat, mother: Expr, data: nat, table: seq<seq<LambdaValue>>)
    requires table != []
    ensures var n := |table| - 1;
            NoneDivides(stack, mother, data, table) <==> NoneDivides(stack, mother, data, table[..n]) && !Divides(stack, mother, Columns(data, table[n]))
  {
    var n := |table| - 1;
    assert forall l :: 0 <= l < n ==> table[..n][l] == table[l];
  }

  /** The bodies can be built exactly if no injected body holds a constant division by zero. */
  lemma {:induction false} BodiesIff(stack: nat, mother: Expr, data: nat, table: seq<seq<LambdaValue>>, g: Scope)
    requires RowBody(mother) && NestedFree(mother) && Fits(ScalarForm(mother), g, TNum)
    requires OrderOf(g) <= stack && TableFits(data, table, g)
    ensures Bodies(stack, mother, data, table).Ok? <==> NoneDivides(stack, mother, data, table)
  {
    if table != [] {
      var n := |table| - 1;
      var lams := Columns(data, table[n]);
      BodiesIff(stack, mother, data, table[..n], g);
      BodyIff(stack, mother, lams, g);
      BodiesNext(stack, mother, data, table, lams);
      NoneDividesNext(stack, mother, data, table);
    }
  }

  // ---------------------------------------------------------------- the workers' cells

  /**
   A result cell holds a number and no null flag: an evaluation that yields NULL
   leaves whatever number the evaluator's result register held.
   */
  function Cell(r: Result<Value>, leftover: real): (c: Result<Value>)
    ensures c.Ok? ==> c.value.Num?
  {
    match r
    case Ok(Num(n)) => r
    case Ok(_) => Ok(Num(leftover))
    case Err(_) => r
  }

  /** One evaluation by a worker: body l on one data row, stored. */
  function Work(stack: nat, fuel: nat, bodies: seq<Expr>, table: seq<seq<LambdaValue>>, leftover: (nat, seq<Value>) -> real)
    : (nat, seq<Value>) -> Result<Value>
  {
    (l: nat, row: seq<Value>) =>
      if l >= |bodies| || l >= |table| then Err(BadSlot)
      else Cell(Eval(false, stack, fuel, bodies[l], Frame(row, table[l])), leftover(l, row))
  }

  /** One evaluation gives the cell of what the mother means. */
  lemma {:induction false} WorkIsMeaning(mother: Expr, g: Scope, row: seq<Value>, table: seq<seq<LambdaValue>>, stack: nat, fuel: nat,
                                         leftover: (nat, seq<Value>) -> real, l: nat)
    requires RowBody(mother) && NestedFree(mother) && Fits(ScalarForm(mother), g, TNum)
    requires OrderOf(g) <= stack && l < |table| && StoredFit(Columns(|row|, table[l]), g)
    requires Bodies(stack, mother, |row|, table).Ok?
    requires forall k :: 0 <= k < |row| ==> row[k].Num?
    ensures var meaning := Eval(false, stack, fuel, ScalarForm(mother), Frame(row, table[l]));
            meaning.Ok? ==>
              && !meaning.value.Fn?
              && Work(stack, fuel, Bodies(stack, mother, |row|, table).value, table, leftover)(l, row) == Cell(meaning, leftover(l, row))
  {
    var lams, env := Columns(|row|, table[l]), Frame(row, table[l]);
    FittingMother(mother, g, lams);
    BodiesAt(stack, mother, |row|, table, l);
    if Eval(false, stack, fuel, ScalarForm(mother), env).Ok? {
      RowInjectKeepsMeaning(stack, fuel, mother, lams, env);
      var injected := RowInject(stack, mother, lams).value;
      FoldKeepsMeaning(stack, fuel, injected, Fold(injected).value, env, env);
      NestedFreeFlattens(stack, mother, g, lams);
      assert FrameFits(env, g);
      EvalOutcome(false, stack, fuel, injected, g, TNum, env);
    }
  }

  // ---------------------------------------------------------------- whole runs

  predicate HoldsNull(row: seq<Value>) {
    exists k :: 0 <= k < |row| && row[k].Null?
  }

  /** What the leader reads from the data: a row with a NULL in any column is refused. */
  function Published(rows: seq<seq<Value>>): (r: seq<Option<seq<Value>>>)
    ensures |r| == |rows|
    ensures forall i :: 0 <= i < |rows| ==> r[i] == if HoldsNull(rows[i]) then None else Some(rows[i])
  {
    seq(|rows|, i requires 0 <= i < |rows| => if HoldsNull(rows[i]) then None else Some(rows[i]))
  }

  /** The plan of one call of the operator, with its bodies built. */
  function MapPlan(rows: seq<seq<Value>>, lambdas: nat, chunks: nat, f: (nat, seq<Value>) -> Result<Value>): MP.Plan<seq<Value>, Result<Value>>
    requires chunks > 0
  {
    MP.LeaderPlan(false, Published(rows), lambdas, chunks, Ok(Null), (x: Result<Value>, y: Result<Value>) => x, f)
  }

  ghost predicate Completes(p: MP.Plan<seq<Value>, Result<Value>>, launched: nat, steps: seq<MP.Step>, end: MP.State<seq<Value>, Result<Value>>) {
    launched > 0 && MapProofs.Runs(p, MP.Initial(p, launched), steps, end) && MapProofs.AllDone(end)
  }

  /** A run that completes has met no NULL in the data. */
  lemma {:induction false} CompleteMeansNoNull(rows: seq<seq<Value>>, lambdas: nat, chunks: nat, f: (nat, seq<Value>) -> Result<Value>,
                                               launched: nat, steps: seq<MP.Step>, end: MP.State<seq<Value>, Result<Value>>)
    requires chunks > 0 && lambdas > 0
    requires Completes(MapPlan(rows, lambdas, chunks, f), launched, steps, end)
    ensures forall i :: 0 <= i < |rows| ==> !HoldsNull(rows[i])
    ensures Published(rows) == MapProofs.Present(rows)
  {
    var p := MapPlan(rows, lambdas, chunks, f);
    MP.LeaderPlanValid(false, Published(rows), lambdas, chunks, Ok(Null), (x: Result<Value>, y: Result<Value>) => x, f);
    assert |p.jobs| == lambdas * chunks > 0;
    forall i | 0 <= i < |rows| ensures !HoldsNull(rows[i]) {
      if HoldsNull(rows[i]) { MapProofs.NullNeverCompletes(p, launched, steps, end, i); }
    }
  }

  /**
   Every tuple of every complete run holds the row and a number. It is what the mother
   means on that row with those lambdas exactly if that is a number: where the mother
   means NULL, the tuple holds a number all the same.
   */
  lemma {:induction false} MapComputesMother(mother: Expr, g: Scope, data: nat, rows: seq<seq<Value>>, table: seq<seq<LambdaValue>>,
                                             stack: nat, fuel: nat, leftover: (nat, seq<Value>) -> real, chunks: nat, launched: nat,
                                             steps: seq<MP.Step>, end: MP.State<seq<Value>, Result<Value>>, l: nat, i: nat)
    requires RowBody(mother) && NestedFree(mother) && Fits(ScalarForm(mother), g, TNum)
    requires OrderOf(g) <= stack && TableFits(data, table, g)
    requires l < |table| && i < |rows| && |rows[i]| == data && (forall k :: 0 <= k < data ==> !rows[i][k].Fn?)
    requires Bodies(stack, mother, data, table).Ok?
    requires chunks > 0
    requires Completes(MapPlan(rows, |table|, chunks, Work(stack, fuel, Bodies(stack, mother, data, table).value, table, leftover)),
                       launched, steps, end)
    ensures l * |rows| + i in end.out
    ensures end.out[l * |rows| + i].0 == rows[i]
    ensures var meaning, cell := Eval(false, stack, fuel, ScalarForm(mother), Frame(rows[i], table[l])), end.out[l * |rows| + i].1;
            meaning.Ok? ==> cell.Ok? && cell.value.Num? && (cell == meaning <==> meaning.value != Null)
  {
    var f := Work(stack, fuel, Bodies(stack, mother, data, table).value, table, leftover);
    CompleteMeansNoNull(rows, |table|, chunks, f, launched, steps, end);
    MapProofs.SequentialAt(rows, |table|, f, l, i);
    MapProofs.MapEqualsSequential(rows, |table|, chunks, Ok(Null), (x: Result<Value>, y: Result<Value>) => x, f,
                                  launched, steps, end, l * |rows| + i);
    assert !HoldsNull(rows[i]);
    WorkIsMeaning(mother, g, rows[i], table, stack, fuel, leftover, l);
  }

  /** The mother NULL: on every complete run every tuple holds a number. */
  lemma {:induction false} NullComesOutAsNumber(rows: seq<seq<Value>>, data: nat, table: seq<seq<LambdaValue>>, g: Scope,
                                                leftover: (nat, seq<Value>) -> real, chunks: nat, launched: nat,
                                                steps: seq<MP.Step>, end: MP.State<seq<Value>, Result<Value>>, l: nat, i: nat)
    requires TableFits(data, table, g) && chunks > 0
    requires l < |table| && i < |rows| && |rows[i]| == data && (forall k :: 0 <= k < data ==> !rows[i][k].Fn?)
    requires var bodies := Bodies(OrderOf(g), Const(Null), data, table);
             bodies.Ok? && Completes(MapPlan(rows, |table|, chunks, Work(OrderOf(g), 0, bodies.value, table, leftover)), launched, steps, end)
    ensures Eval(false, OrderOf(g), 0, Const(Null), Frame(rows[i], table[l])) == Ok(Null)
    ensures l * |rows| + i in end.out && end.out[l * |rows| + i].1.Ok? && end.out[l * |rows| + i].1.value.Num?
  {
    assert ScalarForm(Const(Null)) == Const(Null);
    MapComputesMother(Const(Null), g, data, rows, table, OrderOf(g), 0, leftover, chunks, launched, steps, end, l, i);
  }
}
