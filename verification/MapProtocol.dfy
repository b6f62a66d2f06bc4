/** The runs of the parallel map operator: leader and workers, in any interleaving. */
module MapProtocol {
  import opened Arithmetic
  import opened ParallelMap
  import opened Wrappers

  /**
   One call of the operator: a row that holds a NULL is None; f is lambda l, injected
   and compiled, on a row; slot is the place of result (l, i) in the result segment.
   */
  datatype Plan<!Row, !V> = Plan(
    agg: bool,
    rows: seq<Option<Row>>,
    lambdas: nat,
    jobs: seq<Job>,
    slot: (nat, nat) -> nat,
    zero: V,
    plus: (V, V) -> V,
    f: (nat, Row) -> V)
  {
    /** The jobs cut the N x M results into disjoint pieces and the places are distinct. */
    ghost predicate Valid() {
      && (forall j :: 0 <= j < |jobs| ==> jobs[j].lambda < lambdas && jobs[j].start <= jobs[j].end <= |rows|)
      && (forall j, j', i: nat | 0 <= j < |jobs| && 0 <= j' < |jobs| ::
            Covers(jobs[j], jobs[j].lambda, i) && Covers(jobs[j'], jobs[j].lambda, i) ==> j == j')
      && (forall l: nat, i: nat | l < lambdas && i < |rows| :: Covered(l, i))
      && (forall l: nat, i: nat, l': nat, i': nat | l < lambdas && i < |rows| && l' < lambdas && i' < |rows| ::
            slot(l, i) == slot(l', i') ==> l == l' && i == i')
    }

    ghost predicate Covered(l: nat, i: nat) {
      exists j :: 0 <= j < |jobs| && Covers(jobs[j], l, i)
    }

    /** The accumulator of lambda l over rows [from, to), in row order; plus need not be associative. */
    function Fold(l: nat, from: nat, to: nat): V {
      if to <= from || to > |rows| || rows[to - 1].None? then zero
      else plus(Fold(l, from, to - 1), f(l, rows[to - 1].value))
    }
  }

  function FlatSlot(rows: nat): (nat, nat) -> nat {
    (l: nat, i: nat) => l * rows + i
  }

  /** The plan the leader builds. */
  function LeaderPlan<Row, V>(agg: bool, rows: seq<Option<Row>>, lambdas: nat, chunks: nat,
                              zero: V, plus: (V, V) -> V, f: (nat, Row) -> V): Plan<Row, V>
    requires chunks > 0
  {
    Plan(agg, rows, lambdas, seq(lambdas * chunks, j requires 0 <= j < lambdas * chunks => JobAt(|rows|, chunks, j)),
         FlatSlot(|rows|), zero, plus, f)
  }

  lemma JobShape(rows: nat, lambdas: nat, chunks: nat, j: nat)
    requires chunks > 0 && j < lambdas * chunks
    ensures var job := JobAt(rows, chunks, j); job.lambda < lambdas && job.start <= job.end <= rows
  {
    Division(j, chunks);
    var c := j % chunks;
    CutMonotone(rows, chunks, c, c + 1);
    if lambdas <= j / chunks { ProductMonotone(lambdas, j / chunks, chunks); }
  }

  lemma SlotInjective(rows: nat, l: nat, i: nat, l': nat, i': nat)
    requires i < rows && i' < rows && FlatSlot(rows)(l, i) == FlatSlot(rows)(l', i')
    ensures l == l' && i == i'
  {
    QuotientUnique(FlatSlot(rows)(l, i), l, i, l', i', rows);
  }

  lemma {:induction false} LeaderPlanValid<Row, V>(agg: bool, rows: seq<Option<Row>>, lambdas: nat, chunks: nat,
                                                   zero: V, plus: (V, V) -> V, f: (nat, Row) -> V)
    requires chunks > 0
    ensures LeaderPlan(agg, rows, lambdas, chunks, zero, plus, f).Valid()
  {
    var p := LeaderPlan(agg, rows, lambdas, chunks, zero, plus, f);
    forall j | 0 <= j < |p.jobs|
      ensures p.jobs[j].lambda < lambdas && p.jobs[j].start <= p.jobs[j].end <= |rows|
    {
      JobShape(|rows|, lambdas, chunks, j);
    }
    forall j, j', i: nat | 0 <= j < |p.jobs| && 0 <= j' < |p.jobs|
      && Covers(p.jobs[j], p.jobs[j].lambda, i) && Covers(p.jobs[j'], p.jobs[j].lambda, i)
      ensures j == j'
    {
      JobsPartition(|rows|, lambdas, chunks, p.jobs[j].lambda, i);
    }
    forall l: nat, i: nat | l < lambdas && i < |rows| ensures p.Covered(l, i) {
      JobsPartition(|rows|, lambdas, chunks, l, i);
      assert Covers(p.jobs[Owner(|rows|, chunks, l, i)], l, i);
    }
    forall l: nat, i: nat, l': nat, i': nat | l < lambdas && i < |rows| && l' < lambdas && i' < |rows|
      && p.slot(l, i) == p.slot(l', i')
      ensures l == l' && i == i'
    {
      SlotInjective(|rows|, l, i, l', i');
    }
  }

  datatype Worker<!V> = Idle | Claimed(job: nat) | Running(job: nat, at: nat, sum: V) | Done {
    predicate Busy() {
      Claimed? || Running?
    }
  }

  /**
   The shared segment and the processes. `progress` and `finished` are history: how
   far each job has got and which are complete; no step reads them.
   */
  datatype State<!Row, !V> = State(
    nextJob: nat,
    copied: nat,
    ready: bool,
    failed: bool,
    data: seq<Option<Row>>,
    out: map<nat, (Row, V)>,
    partial: map<nat, V>,
    workers: seq<Worker<V>>,
    progress: seq<nat>,
    finished: set<nat>)

  datatype Step =
    | LeaderCopies      // one row into shared memory
    | LeaderRejects     // a NULL in the next row: the operator raises an error
    | LeaderPublishes   // data_ready
    | Claims(w: nat)    // fetch-add on the job counter
    | Starts(w: nat)    // sees data_ready
    | Evaluates(w: nat) // one row
    | Finishes(w: nat)  // the job's last row is done

  function Initial<Row, V>(p: Plan<Row, V>, launched: nat): State<Row, V>
  {
    State(0, 0, false, false, seq(|p.rows|, _ => None), map[], map[], seq(launched, _ => Idle),
          seq(|p.jobs|, j requires 0 <= j < |p.jobs| => p.jobs[j].start), {})
  }

  predicate Enabled<Row, V>(p: Plan<Row, V>, s: State<Row, V>, step: Step)
  {
    && !s.failed
    && match step
       case LeaderCopies => !s.ready && s.copied < |p.rows| && s.copied < |s.data| && p.rows[s.copied].Some?
       case LeaderRejects => !s.ready && s.copied < |p.rows| && p.rows[s.copied].None?
       case LeaderPublishes => !s.ready && s.copied == |p.rows|
       case Claims(w) => w < |s.workers| && s.workers[w].Idle?
       case Starts(w) => w < |s.workers| && s.workers[w].Claimed? && s.workers[w].job < |p.jobs| && s.ready
       case Evaluates(w) =>
         && w < |s.workers| && s.workers[w].Running? && s.workers[w].job < |p.jobs|
         && s.workers[w].at < p.jobs[s.workers[w].job].end && s.workers[w].at < |p.rows|
       case Finishes(w) =>
         && w < |s.workers| && s.workers[w].Running? && s.workers[w].job < |p.jobs|
         && !(s.workers[w].at < p.jobs[s.workers[w].job].end && s.workers[w].at < |p.rows|)
  }

  /** A worker only ever reads a row that is there. */
  predicate Reads<Row, V>(p: Plan<Row, V>, s: State<Row, V>, step: Step) {
    step.Evaluates? && step.w < |s.workers| && s.workers[step.w].Running? ==>
      s.workers[step.w].at < |s.data| && s.data[s.workers[step.w].at].Some?
      && s.workers[step.w].job < |s.progress|
  }

  function Next<Row, V>(p: Plan<Row, V>, s: State<Row, V>, step: Step): State<Row, V>
    requires Enabled(p, s, step) && Reads(p, s, step)
  {
    match step
    case LeaderCopies => s.(data := s.data[s.copied := p.rows[s.copied]], copied := s.copied + 1)
    case LeaderRejects => s.(failed := true)
    case LeaderPublishes => s.(ready := true)
    case Claims(w) =>
      s.(nextJob := s.nextJob + 1,
         workers := s.workers[w := if s.nextJob >= |p.jobs| then Done else Claimed(s.nextJob)])
    case Starts(w) =>
      var j := s.workers[w].job;
      s.(workers := s.workers[w := Running(j, p.jobs[j].start, p.zero)])
    case Evaluates(w) =>
      var Running(j, i, sum) := s.workers[w];
      var l, row := p.jobs[j].lambda, s.data[i].value;
      var result := p.f(l, row);
      s.(out := if p.agg then s.out else s.out[p.slot(l, i) := (row, result)],
         workers := s.workers[w := Running(j, i + 1, if p.agg then p.plus(sum, result) else sum)],
         progress := s.progress[j := i + 1])
    case Finishes(w) =>
      var j := s.workers[w].job;
      s.(partial := if p.agg then s.partial[j := s.workers[w].sum] else s.partial,
         workers := s.workers[w := Idle],
         finished := s.finished + {j})
  }
}
