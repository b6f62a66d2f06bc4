/**
 What every run of the map operator keeps, that every run ends, and what is in
 shared memory when it has ended.
 */
module MapProofs {
  import opened Arithmetic
  import opened ParallelMap
  import opened MapProtocol
  import opened Wrappers

  // ---------------------------------------------------------------- the invariant

  ghost predicate DataInv<Row, V>(p: Plan<Row, V>, s: State<Row, V>) {
    && |s.data| == |p.rows| && s.copied <= |p.rows|
    && (forall i :: 0 <= i < s.copied ==> p.rows[i].Some? && s.data[i] == p.rows[i])
    && (s.ready ==> s.copied == |p.rows|)
  }

  /** Claimed jobs are numbered below the counter, and held by one worker or finished, never both. */
  ghost predicate JobInv<Row, V>(p: Plan<Row, V>, s: State<Row, V>) {
    && (forall j :: j in s.finished ==> j < s.nextJob && j < |p.jobs|)
    && (forall w :: 0 <= w < |s.workers| && s.workers[w].Busy() ==>
          s.workers[w].job < s.nextJob && s.workers[w].job < |p.jobs| && s.workers[w].job !in s.finished)
    && (forall w, w' :: 0 <= w < w' < |s.workers| && s.workers[w].Busy() && s.workers[w'].Busy() ==>
          s.workers[w].job != s.workers[w'].job)
  }

  ghost predicate Held<Row, V>(s: State<Row, V>, j: nat) {
    exists w :: 0 <= w < |s.workers| && s.workers[w].Busy() && s.workers[w].job == j
  }

  ghost predicate NoJobLost<Row, V>(p: Plan<Row, V>, s: State<Row, V>) {
    forall j: nat :: j < s.nextJob && j < |p.jobs| && j !in s.finished ==> Held(s, j)
  }

  ghost predicate CounterInv<Row, V>(p: Plan<Row, V>, s: State<Row, V>) {
    s.nextJob <= |p.jobs| + Finished(s.workers)
  }

  ghost predicate ProgressInv<Row, V>(p: Plan<Row, V>, s: State<Row, V>) {
    && |s.progress| == |p.jobs|
    && (forall j: nat :: j < |p.jobs| && j >= s.nextJob ==> s.progress[j] == p.jobs[j].start)
    && (forall j :: j in s.finished && j < |p.jobs| ==> FinishedInv(p, s, j))
    && (forall w :: 0 <= w < |s.workers| ==> WorkerInv(p, s, s.workers[w]))
  }

  ghost predicate FinishedInv<Row, V>(p: Plan<Row, V>, s: State<Row, V>, j: nat)
    requires j < |p.jobs| == |s.progress|
  {
    && s.ready && s.progress[j] == p.jobs[j].end
    && (p.agg ==> j in s.partial && s.partial[j] == p.Fold(p.jobs[j].lambda, p.jobs[j].start, p.jobs[j].end))
  }

  ghost predicate WorkerInv<Row, V>(p: Plan<Row, V>, s: State<Row, V>, k: Worker<V>)
    requires |s.progress| == |p.jobs|
  {
    match k
    case Claimed(j) => j < |p.jobs| && s.progress[j] == p.jobs[j].start
    case Running(j, at, sum) =>
      && s.ready && j < |p.jobs| && s.progress[j] == at
      && p.jobs[j].start <= at <= p.jobs[j].end
      && (p.agg ==> sum == p.Fold(p.jobs[j].lambda, p.jobs[j].start, at))
    case _ => true
  }

  /** Exactly the results below their job's progress are in place, each with the right value. */
  ghost predicate OutInv<Row, V>(p: Plan<Row, V>, s: State<Row, V>) {
    |s.progress| == |p.jobs| && (!p.agg ==> forall j, i: nat :: 0 <= j < |p.jobs| && Covers(p.jobs[j], p.jobs[j].lambda, i) ==> OutAt(p, s, j, i))
  }

  ghost predicate OutAt<Row, V>(p: Plan<Row, V>, s: State<Row, V>, j: nat, i: nat)
    requires j < |p.jobs| == |s.progress|
  {
    var l := p.jobs[j].lambda;
    && (p.slot(l, i) in s.out <==> i < s.progress[j])
    && (p.slot(l, i) in s.out ==>
          i < |p.rows| && p.rows[i].Some? && s.out[p.slot(l, i)] == (p.rows[i].value, p.f(l, p.rows[i].value)))
  }

  ghost predicate Inv<Row, V>(p: Plan<Row, V>, s: State<Row, V>) {
    DataInv(p, s) && JobInv(p, s) && NoJobLost(p, s) && CounterInv(p, s) && ProgressInv(p, s) && OutInv(p, s)
  }

  function Finished<V>(ws: seq<Worker<V>>): (n: nat)
    ensures n <= |ws|
  {
    if ws == [] then 0 else Finished(ws[1..]) + (if ws[0].Done? then 1 else 0)
  }

  lemma {:induction false} FinishedUpdate<V>(ws: seq<Worker<V>>, w: nat, k: Worker<V>)
    requires w < |ws|
    ensures Finished(ws[w := k]) == Finished(ws) - (if ws[w].Done? then 1 else 0) + (if k.Done? then 1 else 0)
  {
    if w > 0 {
      assert ws[w := k][1..] == ws[1..][w - 1 := k];
      FinishedUpdate(ws[1..], w - 1, k);
    } else {
      assert ws[w := k][1..] == ws[1..];
    }
  }

  // ---------------------------------------------------------------- every step keeps it

  lemma {:induction false} InitialInv<Row, V>(p: Plan<Row, V>, launched: nat)
    requires p.Valid()
    ensures Inv(p, Initial(p, launched))
  {
    var s := Initial(p, launched);
    assert forall w :: 0 <= w < |s.workers| ==> s.workers[w] == Idle;
  }

  /** No worker ever reads a row the leader has not copied. */
  lemma {:induction false} ReadsAreSafe<Row, V>(p: Plan<Row, V>, s: State<Row, V>, step: Step)
    requires p.Valid() && Inv(p, s) && Enabled(p, s, step)
    ensures Reads(p, s, step)
  {
    if step.Evaluates? { assert WorkerInv(p, s, s.workers[step.w]); }
  }

  lemma {:induction false} OutUntouched<Row, V>(p: Plan<Row, V>, s: State<Row, V>, s': State<Row, V>)
    requires OutInv(p, s) && s'.out == s.out && s'.progress == s.progress
    ensures OutInv(p, s')
  {
    forall j, i: nat | !p.agg && 0 <= j < |p.jobs| && Covers(p.jobs[j], p.jobs[j].lambda, i) ensures OutAt(p, s', j, i) {
      assert OutAt(p, s, j, i);
    }
  }

  lemma {:induction false} LeaderKeeps<Row, V>(p: Plan<Row, V>, s: State<Row, V>, step: Step)
    requires p.Valid() && Inv(p, s) && Enabled(p, s, step) && Reads(p, s, step)
    requires step.LeaderCopies? || step.LeaderRejects? || step.LeaderPublishes?
    ensures Inv(p, Next(p, s, step))
  {
    var s' := Next(p, s, step);
    OutUntouched(p, s, s');
    forall j: nat | Held(s, j) ensures Held(s', j) { }
    forall w | 0 <= w < |s'.workers| ensures WorkerInv(p, s', s'.workers[w]) { assert WorkerInv(p, s, s.workers[w]); }
  }

  /** A worker that keeps its job, or parts with it as finished, loses none. */
  lemma {:induction false} HeldKept<Row, V>(p: Plan<Row, V>, s: State<Row, V>, s': State<Row, V>, w: nat)
    requires NoJobLost(p, s) && w < |s.workers| && |s'.workers| == |s.workers|
    requires s'.workers == s.workers[w := s'.workers[w]]
    requires s.finished <= s'.finished && s.nextJob <= s'.nextJob <= s.nextJob + 1
    requires s.workers[w].Busy() ==>
      s.workers[w].job in s'.finished || (s'.workers[w].Busy() && s'.workers[w].job == s.workers[w].job)
    requires s.nextJob < s'.nextJob && s.nextJob < |p.jobs| ==> s'.workers[w].Busy() && s'.workers[w].job == s.nextJob
    ensures NoJobLost(p, s')
  {
    forall j: nat | j < s'.nextJob && j < |p.jobs| && j !in s'.finished ensures Held(s', j) {
      if j < s.nextJob {
        assert Held(s, j);
        var v :| 0 <= v < |s.workers| && s.workers[v].Busy() && s.workers[v].job == j;
        assert s'.workers[v].Busy() && s'.workers[v].job == j;
      } else {
        assert s'.workers[w].Busy() && s'.workers[w].job == j;
      }
    }
  }

  lemma {:induction false} ClaimKeeps<Row, V>(p: Plan<Row, V>, s: State<Row, V>, w: nat)
    requires p.Valid() && Inv(p, s) && Enabled(p, s, Claims(w))
    ensures Inv(p, Next(p, s, Claims(w)))
  {
    var s' := Next(p, s, Claims(w));
    FinishedUpdate(s.workers, w, s'.workers[w]);
    OutUntouched(p, s, s');
    HeldKept(p, s, s', w);
    ClaimProgress(p, s, w);
  }

  lemma {:induction false} ClaimProgress<Row, V>(p: Plan<Row, V>, s: State<Row, V>, w: nat)
    requires ProgressInv(p, s) && Enabled(p, s, Claims(w))
    ensures ProgressInv(p, Next(p, s, Claims(w)))
  {
    var s' := Next(p, s, Claims(w));
    forall v | 0 <= v < |s'.workers| ensures WorkerInv(p, s', s'.workers[v]) { assert WorkerInv(p, s, s.workers[v]); }
    forall j | j in s'.finished && j < |p.jobs| ensures FinishedInv(p, s', j) { assert FinishedInv(p, s, j); }
  }

  lemma {:induction false} StartKeeps<Row, V>(p: Plan<Row, V>, s: State<Row, V>, w: nat)
    requires p.Valid() && Inv(p, s) && Enabled(p, s, Starts(w))
    ensures Inv(p, Next(p, s, Starts(w)))
  {
    var s' := Next(p, s, Starts(w));
    FinishedUpdate(s.workers, w, s'.workers[w]);
    OutUntouched(p, s, s');
    HeldKept(p, s, s', w);
    forall v | 0 <= v < |s'.workers| ensures WorkerInv(p, s', s'.workers[v]) { assert WorkerInv(p, s, s.workers[v]); }
    forall j | j in s'.finished && j < |p.jobs| ensures FinishedInv(p, s', j) { assert FinishedInv(p, s, j); }
  }

  lemma {:induction false} FinishKeeps<Row, V>(p: Plan<Row, V>, s: State<Row, V>, w: nat)
    requires p.Valid() && Inv(p, s) && Enabled(p, s, Finishes(w))
    ensures Inv(p, Next(p, s, Finishes(w)))
  {
    var s' := Next(p, s, Finishes(w));
    FinishedUpdate(s.workers, w, s'.workers[w]);
    OutUntouched(p, s, s');
    HeldKept(p, s, s', w);
    FinishProgress(p, s, w);
    FinishJobs(p, s, w);
  }

  lemma {:induction false} FinishJobs<Row, V>(p: Plan<Row, V>, s: State<Row, V>, w: nat)
    requires JobInv(p, s) && Enabled(p, s, Finishes(w))
    ensures JobInv(p, Next(p, s, Finishes(w)))
  {
    var s', j := Next(p, s, Finishes(w)), s.workers[w].job;
    assert s.workers[w].Busy();
    forall v | 0 <= v < |s'.workers| && s'.workers[v].Busy()
      ensures s'.workers[v].job < s'.nextJob && s'.workers[v].job < |p.jobs| && s'.workers[v].job !in s'.finished
    {
      assert v != w && s.workers[v].Busy() && s.workers[v].job != j;
    }
  }

  lemma {:induction false} FinishProgress<Row, V>(p: Plan<Row, V>, s: State<Row, V>, w: nat)
    requires p.Valid() && JobInv(p, s) && ProgressInv(p, s) && Enabled(p, s, Finishes(w))
    ensures ProgressInv(p, Next(p, s, Finishes(w)))
  {
    var s' := Next(p, s, Finishes(w));
    var j := s.workers[w].job;
    assert WorkerInv(p, s, s.workers[w]);
    forall v | 0 <= v < |s'.workers| ensures WorkerInv(p, s', s'.workers[v]) { assert WorkerInv(p, s, s.workers[v]); }
    forall k | k in s'.finished && k < |p.jobs| ensures FinishedInv(p, s', k) {
      if k != j { assert FinishedInv(p, s, k); }
    }
  }

  /** One row: the result goes to a place nobody has written, and nobody else's place changes. */
  lemma {:induction false} EvaluateWrites<Row, V>(p: Plan<Row, V>, s: State<Row, V>, w: nat)
    requires p.Valid() && Inv(p, s) && Enabled(p, s, Evaluates(w)) && Reads(p, s, Evaluates(w))
    ensures var k := s.workers[w]; !p.agg ==> p.slot(p.jobs[k.job].lambda, k.at) !in s.out
    ensures OutInv(p, Next(p, s, Evaluates(w)))
  {
    var s' := Next(p, s, Evaluates(w));
    var k := s.workers[w];
    assert WorkerInv(p, s, k);
    if !p.agg {
      assert Covers(p.jobs[k.job], p.jobs[k.job].lambda, k.at);
      assert OutAt(p, s, k.job, k.at);
      forall j, i: nat | 0 <= j < |p.jobs| && Covers(p.jobs[j], p.jobs[j].lambda, i) ensures OutAt(p, s', j, i) {
        assert OutAt(p, s, j, i);
        if p.slot(p.jobs[j].lambda, i) == p.slot(p.jobs[k.job].lambda, k.at) {
          assert Covers(p.jobs[j], p.jobs[k.job].lambda, k.at);
        }
      }
    }
  }

  lemma {:induction false} EvaluateKeeps<Row, V>(p: Plan<Row, V>, s: State<Row, V>, w: nat)
    requires p.Valid() && Inv(p, s) && Enabled(p, s, Evaluates(w)) && Reads(p, s, Evaluates(w))
    ensures Inv(p, Next(p, s, Evaluates(w)))
  {
    var s' := Next(p, s, Evaluates(w));
    var j := s.workers[w].job;
    assert WorkerInv(p, s, s.workers[w]);
    EvaluateWrites(p, s, w);
    FinishedUpdate(s.workers, w, s'.workers[w]);
    HeldKept(p, s, s', w);
    forall v | 0 <= v < |s'.workers| ensures WorkerInv(p, s', s'.workers[v]) { assert WorkerInv(p, s, s.workers[v]); }
    forall k | k in s'.finished && k < |p.jobs| ensures FinishedInv(p, s', k) { assert FinishedInv(p, s, k); }
  }

  lemma {:induction false} StepKeeps<Row, V>(p: Plan<Row, V>, s: State<Row, V>, step: Step)
    requires p.Valid() && Inv(p, s) && Enabled(p, s, step)
    ensures Reads(p, s, step) && Inv(p, Next(p, s, step)) && |Next(p, s, step).workers| == |s.workers|
  {
    ReadsAreSafe(p, s, step);
    match step
    case Claims(w) => ClaimKeeps(p, s, w);
    case Starts(w) => StartKeeps(p, s, w);
    case Evaluates(w) => EvaluateKeeps(p, s, w);
    case Finishes(w) => FinishKeeps(p, s, w);
    case _ => LeaderKeeps(p, s, step);
  }

  // ---------------------------------------------------------------- whole runs

  /** Steps taken from s, one after the other, each enabled where it is taken. */
  ghost predicate Runs<Row, V>(p: Plan<Row, V>, s: State<Row, V>, steps: seq<Step>, end: State<Row, V>)
    decreases |steps|
  {
    if steps == [] then s == end
    else Enabled(p, s, steps[0]) && Reads(p, s, steps[0]) && Runs(p, Next(p, s, steps[0]), steps[1..], end)
  }

  lemma {:induction false} RunKeeps<Row, V>(p: Plan<Row, V>, s: State<Row, V>, steps: seq<Step>, end: State<Row, V>)
    requires p.Valid() && Inv(p, s) && Runs(p, s, steps, end)
    ensures Inv(p, end) && |end.workers| == |s.workers|
    decreases |steps|
  {
    if steps != [] {
      StepKeeps(p, s, steps[0]);
      RunKeeps(p, Next(p, s, steps[0]), steps[1..], end);
    }
  }

  ghost predicate AllDone<Row, V>(s: State<Row, V>) {
    forall w :: 0 <= w < |s.workers| ==> s.workers[w].Done?
  }

  /** Unless it has failed or every worker has left, somebody can take a step: no deadlock. */
  lemma {:induction false} AlwaysAStep<Row, V>(p: Plan<Row, V>, s: State<Row, V>) returns (step: Step)
    requires p.Valid() && Inv(p, s) && !s.failed && !AllDone(s)
    ensures Enabled(p, s, step)
  {
    var w :| 0 <= w < |s.workers| && !s.workers[w].Done?;
    assert WorkerInv(p, s, s.workers[w]);
    match s.workers[w]
    case Idle => step := Claims(w);
    case Running(j, at, _) => step := if at < p.jobs[j].end then Evaluates(w) else Finishes(w);
    case Claimed(j) =>
      if s.ready { step := Starts(w); }
      else if s.copied == |p.rows| { step := LeaderPublishes; }
      else if p.rows[s.copied].Some? { step := LeaderCopies; }
      else { step := LeaderRejects; }
  }

  // ---------------------------------------------------------------- every run ends

  function JobCost(j: Job): nat {
    4 + (if j.start <= j.end then j.end - j.start else 0)
  }

  function Unclaimed(jobs: seq<Job>, next: nat): nat
    decreases |jobs| - next
  {
    if next >= |jobs| then 0 else JobCost(jobs[next]) + Unclaimed(jobs, next + 1)
  }

  function WorkerCost<V>(jobs: seq<Job>, k: Worker<V>): nat {
    match k
    case Idle => 1
    case Claimed(j) => if j < |jobs| then JobCost(jobs[j]) else 0
    case Running(j, at, _) => if j < |jobs| && at <= jobs[j].end then 3 + (jobs[j].end - at) else 0
    case Done => 0
  }

  function WorkersCost<V>(jobs: seq<Job>, ws: seq<Worker<V>>): nat {
    if ws == [] then 0 else WorkerCost(jobs, ws[0]) + WorkersCost(jobs, ws[1..])
  }

  /** Steps still to be taken, at most. */
  function Remaining<Row, V>(p: Plan<Row, V>, s: State<Row, V>): int {
    (if s.failed then 0 else 1) + (|p.rows| - s.copied) + (if s.ready then 0 else 1)
    + Unclaimed(p.jobs, s.nextJob) + WorkersCost(p.jobs, s.workers)
  }

  lemma {:induction false} CostUpdate<V>(jobs: seq<Job>, ws: seq<Worker<V>>, w: nat, k: Worker<V>)
    requires w < |ws|
    ensures WorkersCost(jobs, ws[w := k]) == WorkersCost(jobs, ws) - WorkerCost(jobs, ws[w]) + WorkerCost(jobs, k)
  {
    if w > 0 {
      assert ws[w := k][1..] == ws[1..][w - 1 := k];
      CostUpdate(jobs, ws[1..], w - 1, k);
    } else {
      assert ws[w := k][1..] == ws[1..];
    }
  }

  lemma {:induction false} StepCosts<Row, V>(p: Plan<Row, V>, s: State<Row, V>, step: Step)
    requires p.Valid() && Inv(p, s) && Enabled(p, s, step) && Reads(p, s, step)
    ensures Remaining(p, Next(p, s, step)) < Remaining(p, s)
  {
    var s' := Next(p, s, step);
    if step.Claims? || step.Starts? || step.Evaluates? || step.Finishes? {
      assert WorkerInv(p, s, s.workers[step.w]);
      CostUpdate(p.jobs, s.workers, step.w, s'.workers[step.w]);
    }
  }

  /** No schedule takes more steps than the work there is. */
  lemma {:induction false} RunsEnd<Row, V>(p: Plan<Row, V>, s: State<Row, V>, steps: seq<Step>, end: State<Row, V>)
    requires p.Valid() && Inv(p, s) && Runs(p, s, steps, end)
    ensures |steps| <= Remaining(p, s) - Remaining(p, end) && 0 <= Remaining(p, end)
    decreases |steps|
  {
    if steps != [] {
      StepKeeps(p, s, steps[0]);
      StepCosts(p, s, steps[0]);
      RunsEnd(p, Next(p, s, steps[0]), steps[1..], end);
    }
  }

  /** The claim counter, a 32-bit word, never wraps. */
  lemma {:induction false} CounterFits<Row, V>(p: Plan<Row, V>, s: State<Row, V>)
    requires p.Valid() && Inv(p, s) && |p.jobs| <= INT_MAX && |s.workers| <= INT_MAX
    ensures s.nextJob < UINT32_LIMIT
  {
  }

  // ---------------------------------------------------------------- what a run leaves behind

  lemma {:induction false} AllDoneMeansAllJobs<Row, V>(p: Plan<Row, V>, s: State<Row, V>)
    requires p.Valid() && Inv(p, s) && AllDone(s) && s.nextJob >= |p.jobs|
    ensures forall j: nat :: j < |p.jobs| ==> j in s.finished
  {
    forall j: nat | j < |p.jobs| ensures j in s.finished {
      assert j in s.finished || Held(s, j);
    }
  }

  /** Leaving means having seen the end of the job list. */
  ghost predicate LeftAtEnd<Row, V>(p: Plan<Row, V>, s: State<Row, V>) {
    forall w :: 0 <= w < |s.workers| && s.workers[w].Done? ==> s.nextJob > |p.jobs|
  }

  lemma {:induction false} RunLeavesAtEnd<Row, V>(p: Plan<Row, V>, s: State<Row, V>, steps: seq<Step>, end: State<Row, V>)
    requires p.Valid() && Inv(p, s) && LeftAtEnd(p, s) && Runs(p, s, steps, end)
    ensures LeftAtEnd(p, end)
    decreases |steps|
  {
    if steps != [] {
      StepKeeps(p, s, steps[0]);
      RunLeavesAtEnd(p, Next(p, s, steps[0]), steps[1..], end);
    }
  }

  /** Lambda l on row i is in its place. */
  ghost predicate ResultThere<Row, V>(p: Plan<Row, V>, s: State<Row, V>, l: nat, i: nat) {
    && i < |p.rows| && p.rows[i].Some? && p.slot(l, i) in s.out
    && s.out[p.slot(l, i)] == (p.rows[i].value, p.f(l, p.rows[i].value))
  }

  /** The partial sum of job j is. */
  ghost predicate SumThere<Row, V>(p: Plan<Row, V>, s: State<Row, V>, j: nat) {
    j < |p.jobs| && j in s.partial && s.partial[j] == p.Fold(p.jobs[j].lambda, p.jobs[j].start, p.jobs[j].end)
  }

  lemma {:induction false} ResultInPlace<Row, V>(p: Plan<Row, V>, s: State<Row, V>, l: nat, i: nat)
    requires p.Valid() && Inv(p, s) && !p.agg && l < p.lambdas && i < |p.rows| && forall j: nat :: j < |p.jobs| ==> j in s.finished
    ensures ResultThere(p, s, l, i)
  {
    assert p.Covered(l, i);
    var j :| 0 <= j < |p.jobs| && Covers(p.jobs[j], l, i);
    assert FinishedInv(p, s, j);
    assert OutAt(p, s, j, i);
  }

  /**
   Every complete run, whatever the interleaving and however many workers were
   launched (at least one): all N x M results are in place and each is lambda l
   applied to row i; with agg, every job's partial sum is its fold.
   */
  lemma {:induction false} CompleteRun<Row, V>(p: Plan<Row, V>, launched: nat, steps: seq<Step>, end: State<Row, V>)
    requires p.Valid() && launched > 0
    requires Runs(p, Initial(p, launched), steps, end) && AllDone(end)
    ensures !p.agg ==> forall l: nat, i: nat | l < p.lambdas && i < |p.rows| :: ResultThere(p, end, l, i)
    ensures p.agg ==> forall j: nat | j < |p.jobs| :: SumThere(p, end, j)
  {
    var s := Initial(p, launched);
    InitialInv(p, launched);
    RunKeeps(p, s, steps, end);
    RunLeavesAtEnd(p, s, steps, end);
    assert end.workers[0].Done?;
    AllDoneMeansAllJobs(p, end);
    if !p.agg {
      forall l: nat, i: nat | l < p.lambdas && i < |p.rows| ensures ResultThere(p, end, l, i) { ResultInPlace(p, end, l, i); }
    } else {
      forall j: nat | j < |p.jobs| ensures SumThere(p, end, j) { assert FinishedInv(p, end, j); }
    }
  }

  lemma FinishedMeansCopied<Row, V>(p: Plan<Row, V>, s: State<Row, V>, j: nat)
    requires Inv(p, s) && j in s.finished
    ensures s.ready && s.copied == |p.rows|
  {
    assert FinishedInv(p, s, j);
  }

  /** A NULL anywhere in the data: no run completes, the operator can only fail. */
  lemma {:induction false} NullNeverCompletes<Row, V>(p: Plan<Row, V>, launched: nat, steps: seq<Step>, end: State<Row, V>, i: nat)
    requires p.Valid() && launched > 0 && |p.jobs| > 0
    requires i < |p.rows| && p.rows[i].None?
    requires Runs(p, Initial(p, launched), steps, end)
    ensures !AllDone(end)
  {
    if AllDone(end) {
      var s := Initial(p, launched);
      InitialInv(p, launched);
      RunKeeps(p, s, steps, end);
      RunLeavesAtEnd(p, s, steps, end);
      assert end.workers[0].Done?;
      AllDoneMeansAllJobs(p, end);
      FinishedMeansCopied(p, end, 0);
    }
  }

  // ---------------------------------------------------------------- the result relation

  /** One lambda on every row. */
  function OneLambda<Row, V>(rows: seq<Row>, l: nat, f: (nat, Row) -> V): (r: seq<(Row, V)>)
    ensures |r| == |rows| && forall i :: 0 <= i < |rows| ==> r[i] == (rows[i], f(l, rows[i]))
  {
    seq(|rows|, i requires 0 <= i < |rows| => (rows[i], f(l, rows[i])))
  }

  /** What the sequential operator returns: lambda by lambda, row by row. */
  function Sequential<Row, V>(rows: seq<Row>, lambdas: nat, f: (nat, Row) -> V): (r: seq<(Row, V)>)
    ensures |r| == lambdas * |rows|
  {
    if lambdas == 0 then []
    else
      assert lambdas * |rows| == (lambdas - 1) * |rows| + |rows|;
      Sequential(rows, lambdas - 1, f) + OneLambda(rows, lambdas - 1, f)
  }

  lemma {:induction false} SequentialAt<Row, V>(rows: seq<Row>, lambdas: nat, f: (nat, Row) -> V, l: nat, i: nat)
    requires l < lambdas && i < |rows|
    ensures 0 <= l * |rows| + i < lambdas * |rows|
    ensures Sequential(rows, lambdas, f)[l * |rows| + i] == (rows[i], f(l, rows[i]))
  {
    IndexInRange(l, i, lambdas, |rows|);
    if l < lambdas - 1 {
      IndexInRange(l, i, lambdas - 1, |rows|);
      SequentialAt(rows, lambdas - 1, f, l, i);
    } else {
      assert |Sequential(rows, lambdas - 1, f)| == l * |rows|;
    }
  }

  /** A place in the result segment is that of one lambda on one row. */
  lemma Apart(c: nat, lambdas: nat, rows: nat) returns (l: nat, i: nat)
    requires c < lambdas * rows
    ensures l < lambdas && i < rows && c == l * rows + i
  {
    if rows > 0 {
      Division(c, rows);
      l, i := c / rows, c % rows;
      if l >= lambdas { ProductMonotone(lambdas, l, rows); }
    }
  }

  /** The result segment of a complete run, read front to back, is the sequential result. */
  lemma {:induction false} MapEqualsSequential<Row, V>(rows: seq<Row>, lambdas: nat, chunks: nat, zero: V, plus: (V, V) -> V,
                                                       f: (nat, Row) -> V, launched: nat, steps: seq<Step>, end: State<Row, V>, c: nat)
    requires chunks > 0 && launched > 0
    requires c < lambdas * |rows|
    requires var p := LeaderPlan(false, Present(rows), lambdas, chunks, zero, plus, f);
             Runs(p, Initial(p, launched), steps, end) && AllDone(end)
    ensures c in end.out && end.out[c] == Sequential(rows, lambdas, f)[c]
  {
    var p := LeaderPlan(false, Present(rows), lambdas, chunks, zero, plus, f);
    LeaderPlanValid(false, Present(rows), lambdas, chunks, zero, plus, f);
    CompleteRun(p, launched, steps, end);
    var l, i := Apart(c, lambdas, |rows|);
    SequentialAt(rows, lambdas, f, l, i);
    assert ResultThere(p, end, l, i) && p.slot(l, i) == c;
  }

  function Present<Row>(rows: seq<Row>): (r: seq<Option<Row>>)
    ensures |r| == |rows| && forall i :: 0 <= i < |rows| ==> r[i] == Some(rows[i])
  {
    seq(|rows|, i requires 0 <= i < |rows| => Some(rows[i]))
  }

  // ---------------------------------------------------------------- the aggregate

  /** The partial sums added up in job order; says nothing of workers or schedules. */
  function Total<Row, V>(p: Plan<Row, V>, n: nat): V
    requires n <= |p.jobs|
  {
    if n == 0 then p.zero
    else p.plus(Total(p, n - 1), p.Fold(p.jobs[n - 1].lambda, p.jobs[n - 1].start, p.jobs[n - 1].end))
  }

  /** The leader's final loop: the same sum for every run. */
  method AddUp<Row, V>(p: Plan<Row, V>, end: State<Row, V>, ghost launched: nat, ghost steps: seq<Step>) returns (total: V)
    requires p.Valid() && p.agg && launched > 0
    requires Runs(p, Initial(p, launched), steps, end) && AllDone(end)
    ensures total == Total(p, |p.jobs|)
  {
    CompleteRun(p, launched, steps, end);
    total := p.zero;
    for i := 0 to |p.jobs|
      invariant total == Total(p, i)
    {
      assert SumThere(p, end, i);
      total := p.plus(total, end.partial[i]);
    }
  }

  lemma {:induction false} FoldJoins<Row>(p: Plan<Row, real>, l: nat, a: nat, b: nat, c: nat)
    requires a <= b <= c <= |p.rows|
    requires p.zero == 0.0 && (forall x, y :: p.plus(x, y) == x + y)
    requires forall i :: 0 <= i < |p.rows| ==> p.rows[i].Some?
    ensures p.Fold(l, a, b) + p.Fold(l, b, c) == p.Fold(l, a, c)
  {
    if b < c { FoldJoins(p, l, a, b, c - 1); }
  }

  /** The leader's plan for the aggregate, over exact numbers. */
  function AggregatePlan<Row>(rows: seq<Row>, lambdas: nat, chunks: nat, f: (nat, Row) -> real): Plan<Row, real>
    requires chunks > 0
  {
    LeaderPlan(true, Present(rows), lambdas, chunks, 0.0, (x: real, y: real) => x + y, f)
  }

  /** Jobs in order: lambda l's chunks from number first(l) on, chunk c from row cut(c) to cut(c + 1). */
  ghost predicate SplitBy<Row>(p: Plan<Row, real>, cut: nat -> nat, first: nat -> nat, lambdas: nat, chunks: nat) {
    && chunks > 0 && cut(0) == 0 && cut(chunks) == |p.rows| && (forall c: nat, d: nat :: c <= d <= chunks ==> cut(c) <= cut(d))
    && first(0) == 0 && (forall l: nat, k: nat :: k == l + 1 ==> first(k) == first(l) + chunks)
    && (forall l: nat, c: nat, d: nat :: l < lambdas && c < chunks && d == c + 1 ==> JobIs(p, first(l) + c, l, cut(c), cut(d)))
  }

  ghost predicate JobIs<Row>(p: Plan<Row, real>, j: nat, l: nat, start: nat, end: nat) {
    j < |p.jobs| && p.jobs[j].lambda == l && p.jobs[j].start == start && p.jobs[j].end == end
  }

  /** Sums are exact, and there is a number for every row. */
  ghost predicate Exact<Row>(p: Plan<Row, real>) {
    p.zero == 0.0 && (forall x, y :: p.plus(x, y) == x + y) && forall i :: 0 <= i < |p.rows| ==> p.rows[i].Some?
  }

  /** In exact arithmetic the aggregate is the sum over all N x M results, however the rows were split. */
  lemma {:induction false} TotalIsFlatSum<Row>(p: Plan<Row, real>, cut: nat -> nat, first: nat -> nat, lambdas: nat, chunks: nat, l: nat, c: nat, j: nat)
    requires SplitBy(p, cut, first, lambdas, chunks) && Exact(p) && l < lambdas && c <= chunks && j == first(l) + c
    ensures j <= |p.jobs| && cut(c) <= |p.rows| && Total(p, j) == SumOfLambdas(p, l) + p.Fold(l, 0, cut(c))
    decreases l, c
  {
    assert cut(c) <= cut(chunks);
    if c > 0 {
      var b, i := c - 1, j - 1;
      TotalIsFlatSum(p, cut, first, lambdas, chunks, l, b, i);
      assert cut(b) <= cut(c) && JobIs(p, i, l, cut(b), cut(c));
      FoldJoins(p, l, 0, cut(b), cut(c));
    } else if l > 0 {
      var k := l - 1;
      assert first(l) == first(k) + chunks;
      TotalIsFlatSum(p, cut, first, lambdas, chunks, k, chunks, j);
    }
  }

  ghost function Cutter(rows: nat, chunks: nat): nat -> nat
    requires chunks > 0
  {
    (c: nat) => Cut(rows, chunks, c)
  }

  ghost function Numbers(chunks: nat): nat -> nat {
    (l: nat) => l * chunks
  }

  lemma {:induction false} CutterCuts(rows: nat, chunks: nat)
    requires chunks > 0
    ensures Cutter(rows, chunks)(0) == 0 && Cutter(rows, chunks)(chunks) == rows
    ensures forall c: nat, d: nat :: c <= d <= chunks ==> Cutter(rows, chunks)(c) <= Cutter(rows, chunks)(d)
  {
    CutEnds(rows, chunks);
    forall c: nat, d: nat | c <= d <= chunks ensures Cutter(rows, chunks)(c) <= Cutter(rows, chunks)(d) { CutMonotone(rows, chunks, c, d); }
  }

  lemma {:induction false} NumbersCount(chunks: nat)
    ensures Numbers(chunks)(0) == 0 && forall l: nat, k: nat :: k == l + 1 ==> Numbers(chunks)(k) == Numbers(chunks)(l) + chunks
  {
    forall l: nat, k: nat | k == l + 1 ensures Numbers(chunks)(k) == Numbers(chunks)(l) + chunks { NextProduct(l, chunks); }
  }

  lemma NextProduct(l: nat, chunks: nat)
    ensures (l + 1) * chunks == l * chunks + chunks
  {
  }

  lemma {:induction false} LeaderJobs<Row>(rows: seq<Row>, lambdas: nat, chunks: nat, f: (nat, Row) -> real)
    requires chunks > 0
    ensures var p, cut, first := AggregatePlan(rows, lambdas, chunks, f), Cutter(|rows|, chunks), Numbers(chunks);
            forall l: nat, c: nat, d: nat :: l < lambdas && c < chunks && d == c + 1 ==> JobIs(p, first(l) + c, l, cut(c), cut(d))
  {
    var p, cut, first := AggregatePlan(rows, lambdas, chunks, f), Cutter(|rows|, chunks), Numbers(chunks);
    forall l: nat, c: nat, d: nat | l < lambdas && c < chunks && d == c + 1 ensures JobIs(p, first(l) + c, l, cut(c), cut(d)) {
      LeaderJob(rows, lambdas, chunks, f, l, c, first(l) + c);
    }
  }

  /** The leader's plan is split that way. */
  lemma {:induction false} LeaderSplits<Row>(rows: seq<Row>, lambdas: nat, chunks: nat, f: (nat, Row) -> real)
    requires chunks > 0
    ensures SplitBy(AggregatePlan(rows, lambdas, chunks, f), Cutter(|rows|, chunks), Numbers(chunks), lambdas, chunks)
    ensures Exact(AggregatePlan(rows, lambdas, chunks, f))
  {
    CutterCuts(|rows|, chunks);
    NumbersCount(chunks);
    LeaderJobs(rows, lambdas, chunks, f);
  }

  lemma {:induction false} LeaderJob<Row>(rows: seq<Row>, lambdas: nat, chunks: nat, f: (nat, Row) -> real, l: nat, c: nat, j: nat)
    requires chunks > 0 && l < lambdas && c < chunks && j == l * chunks + c
    ensures JobIs(AggregatePlan(rows, lambdas, chunks, f), j, l, Cut(|rows|, chunks, c), Cut(|rows|, chunks, c + 1))
  {
    var p := AggregatePlan(rows, lambdas, chunks, f);
    IndexInRange(l, c, lambdas, chunks);
    JobAtIndex(|rows|, chunks, l, c, j);
    assert p.jobs[j] == JobAt(|rows|, chunks, j);
  }

  lemma CutEnds(rows: nat, chunks: nat)
    requires chunks > 0
    ensures Cut(rows, chunks, 0) == 0 && Cut(rows, chunks, chunks) == rows
  {
    IndexParts(0, 0, chunks);
    IndexParts(rows, 0, chunks);
  }

  /** Lambda by lambda, the sum over all rows. */
  function SumOfLambdas<Row>(p: Plan<Row, real>, l: nat): real {
    if l == 0 then 0.0 else SumOfLambdas(p, l - 1) + p.Fold(l - 1, 0, |p.rows|)
  }

  /** The results of a list of tuples, added front to back. */
  function ResultSum<Row>(rs: seq<(Row, real)>): real {
    if rs == [] then 0.0 else ResultSum(rs[..|rs| - 1]) + rs[|rs| - 1].1
  }

  lemma {:induction false} ResultSumAppends<Row>(a: seq<(Row, real)>, b: seq<(Row, real)>)
    ensures ResultSum(a + b) == ResultSum(a) + ResultSum(b)
  {
    if b == [] {
      assert a + b == a;
    } else {
      assert (a + b)[..|a + b| - 1] == a + b[..|b| - 1];
      ResultSumAppends(a, b[..|b| - 1]);
    }
  }

  lemma {:induction false} FoldIsResultSum<Row>(p: Plan<Row, real>, rows: seq<Row>, l: nat, n: nat)
    requires p.rows == Present(rows) && n <= |rows|
    requires p.zero == 0.0 && (forall x, y :: p.plus(x, y) == x + y)
    ensures p.Fold(l, 0, n) == ResultSum(OneLambda(rows, l, p.f)[..n])
  {
    if n > 0 {
      var rs := OneLambda(rows, l, p.f);
      assert rs[..n][..n - 1] == rs[..n - 1];
      FoldIsResultSum(p, rows, l, n - 1);
    }
  }

  lemma {:induction false} LambdaSum<Row>(p: Plan<Row, real>, rows: seq<Row>, l: nat)
    requires p.rows == Present(rows)
    requires p.zero == 0.0 && (forall x, y :: p.plus(x, y) == x + y)
    ensures p.Fold(l, 0, |p.rows|) == ResultSum(OneLambda(rows, l, p.f))
  {
    var rs := OneLambda(rows, l, p.f);
    FoldIsResultSum(p, rows, l, |rows|);
    assert rs[..|rows|] == rs;
  }

  lemma SequentialNext<Row>(rows: seq<Row>, l: nat, f: (nat, Row) -> real)
    ensures ResultSum(Sequential(rows, l + 1, f)) == ResultSum(Sequential(rows, l, f)) + ResultSum(OneLambda(rows, l, f))
  {
    var a, b := Sequential(rows, l, f), OneLambda(rows, l, f);
    ResultSumAppends(a, b);
    assert Sequential(rows, l + 1, f) == a + b;
  }

  /** The results of the first l lambdas, added lambda by lambda. */
  function SumTo<Row>(rows: seq<Row>, l: nat, f: (nat, Row) -> real): real {
    if l == 0 then 0.0 else SumTo(rows, l - 1, f) + ResultSum(OneLambda(rows, l - 1, f))
  }

  lemma {:induction false} SequentialSum<Row>(rows: seq<Row>, l: nat, f: (nat, Row) -> real)
    ensures ResultSum(Sequential(rows, l, f)) == SumTo(rows, l, f)
  {
    if l > 0 {
      var k := l - 1;
      SequentialSum(rows, k, f);
      SequentialNext(rows, k, f);
    }
  }

  lemma {:induction false} LambdaSums<Row>(p: Plan<Row, real>, rows: seq<Row>, l: nat)
    requires p.rows == Present(rows)
    requires p.zero == 0.0 && (forall x, y :: p.plus(x, y) == x + y)
    ensures SumOfLambdas(p, l) == SumTo(rows, l, p.f)
  {
    if l > 0 {
      LambdaSums(p, rows, l - 1);
      LambdaSum(p, rows, l - 1);
    }
  }

  lemma LastJob(lambdas: nat, chunks: nat)
    requires lambdas > 0
    ensures Numbers(chunks)(lambdas - 1) + chunks == lambdas * chunks
  {
  }

  lemma {:induction false} TotalIsResultSum<Row>(rows: seq<Row>, lambdas: nat, chunks: nat, f: (nat, Row) -> real)
    requires chunks > 0 && lambdas > 0
    ensures var p := AggregatePlan(rows, lambdas, chunks, f);
            Total(p, |p.jobs|) == ResultSum(Sequential(rows, lambdas, f))
  {
    var p := AggregatePlan(rows, lambdas, chunks, f);
    LeaderSplits(rows, lambdas, chunks, f);
    LastJob(lambdas, chunks);
    TotalIsFlatSum(p, Cutter(|rows|, chunks), Numbers(chunks), lambdas, chunks, lambdas - 1, chunks, |p.jobs|);
    LambdaSums(p, rows, lambdas);
    SequentialSum(rows, lambdas, f);
  }

  /**
   What the aggregate returns: the flat average over all N x M results of the
   sequential operator, in exact arithmetic; without results it is not a number (None).
   */
  method Average<Row>(rows: seq<Row>, lambdas: nat, chunks: nat, f: (nat, Row) -> real,
                      end: State<Row, real>, ghost launched: nat, ghost steps: seq<Step>) returns (r: Option<real>)
    requires chunks > 0 && launched > 0
    requires var p := AggregatePlan(rows, lambdas, chunks, f); Runs(p, Initial(p, launched), steps, end) && AllDone(end)
    ensures var n := lambdas * |rows|;
            r == if n == 0 then None else Some(ResultSum(Sequential(rows, lambdas, f)) / n as real)
  {
    var p := AggregatePlan(rows, lambdas, chunks, f);
    LeaderPlanValid(true, Present(rows), lambdas, chunks, 0.0, (x: real, y: real) => x + y, f);
    var total := AddUp(p, end, launched, steps);
    var n := lambdas * |rows|;
    if n == 0 { return None; }
    TotalIsResultSum(rows, lambdas, chunks, f);
    r := Some(total / n as real);
  }
}
