/**
 The parallel map operator: a leader splits N rows x M lambdas into jobs, workers
 claim jobs off one atomic counter, wait until the leader has published the rows,
 and write one result per (lambda, row), or one partial sum per job. Every
 interleaving of the leader and the workers is a run of the state machine below.
 */
module ParallelMap {
  import opened Arithmetic

  const INT_MAX := 0x7fff_ffff
  const UINT32_LIMIT := 0x1_0000_0000

  datatype Mode = Checked | Fast | FastTuple

  datatype Job = Job(lambda: nat, start: nat, end: nat)

  // ---------------------------------------------------------------- splitting the work

  /** A sum of two 32-bit integers, wrapped around once at most. */
  function Wrap(x: int): int {
    if x > INT_MAX then x - UINT32_LIMIT else x
  }

  /** Integer division that truncates toward zero. */
  function Quotient(x: int, d: int): int
    requires d > 0
  {
    if x >= 0 then x / d else -(-x / d)
  }

  /** Rows are split only on the checked path with fewer lambdas than workers. */
  function ChunksPerLambda(mode: Mode, workers: int, lambdas: nat, rows: nat): (c: nat)
    ensures 1 <= c
    ensures c == 1 || c <= rows
  {
    var asked := if workers < 1 then 1 else workers;
    var split := if mode.Checked? && 0 < lambdas < asked then Quotient(Wrap(asked + lambdas - 1), lambdas) else 1;
    var capped := if split > rows then rows else split;
    if capped < 1 then 1 else capped
  }

  function Cut(rows: nat, chunks: nat, c: nat): nat
    requires chunks > 0
  {
    rows * c / chunks
  }

  function JobAt(rows: nat, chunks: nat, j: nat): Job
    requires chunks > 0
  {
    Job(j / chunks, Cut(rows, chunks, j % chunks), Cut(rows, chunks, j % chunks + 1))
  }

  /** The leader's job array; products stay inside 64 bits. */
  method BuildJobs(rows: nat, lambdas: nat, chunks: nat) returns (jobs: seq<Job>)
    requires rows <= INT_MAX && 0 < chunks < INT_MAX
    ensures |jobs| == lambdas * chunks
    ensures forall j :: 0 <= j < |jobs| ==> jobs[j] == JobAt(rows, chunks, j)
  {
    jobs := [];
    for l := 0 to lambdas
      invariant |jobs| == l * chunks
      invariant forall j :: 0 <= j < |jobs| ==> jobs[j] == JobAt(rows, chunks, j)
    {
      for c := 0 to chunks
        invariant |jobs| == l * chunks + c
        invariant forall j :: 0 <= j < |jobs| ==> jobs[j] == JobAt(rows, chunks, j)
      {
        JobAtIndex(rows, chunks, l, c, |jobs|);
        jobs := jobs + [Job(l, Cut(rows, chunks, c), Cut(rows, chunks, c + 1))];
      }
      assert (l + 1) * chunks == l * chunks + chunks;
    }
  }

  lemma JobAtIndex(rows: nat, chunks: nat, l: nat, c: nat, j: nat)
    requires c < chunks && j == l * chunks + c
    ensures JobAt(rows, chunks, j) == Job(l, Cut(rows, chunks, c), Cut(rows, chunks, c + 1))
  {
    JobParts(chunks, l, c, j);
  }

  lemma JobParts(chunks: nat, l: nat, c: nat, j: nat)
    requires c < chunks && j == l * chunks + c
    ensures j / chunks == l && j % chunks == c
  {
    IndexParts(l, c, chunks);
  }

  lemma {:induction false} CutMonotone(rows: nat, chunks: nat, c: nat, c': nat)
    requires chunks > 0 && c <= c' <= chunks
    ensures Cut(rows, chunks, c) <= Cut(rows, chunks, c') <= rows
  {
    ProductMonotone(c, c', rows);
    ProductMonotone(c', chunks, rows);
    DivideMonotone(rows * c, rows * c', chunks);
    DivideMonotone(rows * c', rows * chunks, chunks);
    IndexParts(rows, 0, chunks);
  }

  /** The chunk of the cut that row i falls into. */
  function ChunkOf(rows: nat, chunks: nat, i: nat): (c: nat)
    requires chunks > 0 && i < rows
    ensures c < chunks && Cut(rows, chunks, c) <= i < Cut(rows, chunks, c + 1)
  {
    IndexParts(rows, 0, chunks);
    IndexParts(0, 0, chunks);
    ChunkFrom(rows, chunks, i, 0)
  }

  function ChunkFrom(rows: nat, chunks: nat, i: nat, c: nat): (r: nat)
    requires chunks > 0 && c < chunks && i < Cut(rows, chunks, chunks)
    requires Cut(rows, chunks, c) <= i
    ensures r < chunks && Cut(rows, chunks, r) <= i < Cut(rows, chunks, r + 1)
    decreases chunks - c
  {
    if i < Cut(rows, chunks, c + 1) then c else ChunkFrom(rows, chunks, i, c + 1)
  }

  /** The job that owns the result of lambda l on row i. */
  function Owner(rows: nat, chunks: nat, l: nat, i: nat): nat
    requires chunks > 0 && i < rows
  {
    l * chunks + ChunkOf(rows, chunks, i)
  }

  predicate Covers(job: Job, l: nat, i: nat) {
    job.lambda == l && job.start <= i < job.end
  }

  /** The jobs partition the N x M results: each is covered by exactly one job. */
  lemma {:induction false} JobsPartition(rows: nat, lambdas: nat, chunks: nat, l: nat, i: nat)
    requires chunks > 0 && l < lambdas && i < rows
    ensures Owner(rows, chunks, l, i) < lambdas * chunks
    ensures forall j: nat :: Covers(JobAt(rows, chunks, j), l, i) <==> j == Owner(rows, chunks, l, i)
  {
    var c := ChunkOf(rows, chunks, i);
    IndexInRange(l, c, lambdas, chunks);
    IndexParts(l, c, chunks);
    forall j: nat ensures Covers(JobAt(rows, chunks, j), l, i) <==> j == l * chunks + c {
      if Covers(JobAt(rows, chunks, j), l, i) {
        Division(j, chunks);
        OneChunk(rows, chunks, i, c, j % chunks);
      }
    }
  }

  /** All cuts of the rows, first to last. */
  function Cuts(rows: nat, chunks: nat): (r: seq<nat>)
    requires chunks > 0
    ensures |r| == chunks + 1 && forall k :: 0 <= k <= chunks ==> r[k] == Cut(rows, chunks, k)
  {
    seq(chunks + 1, (k: nat) requires k <= chunks => Cut(rows, chunks, k))
  }

  lemma {:induction false} CutsAscend(rows: nat, chunks: nat)
    requires chunks > 0
    ensures forall a, b :: 0 <= a <= b <= chunks ==> Cuts(rows, chunks)[a] <= Cuts(rows, chunks)[b]
  {
    forall a, b | 0 <= a <= b <= chunks ensures Cuts(rows, chunks)[a] <= Cuts(rows, chunks)[b] {
      CutMonotone(rows, chunks, a, b);
    }
  }

  /** Between ascending cuts a row falls once. */
  lemma OneInterval(cuts: seq<nat>, i: nat, c: nat, c': nat)
    requires forall a, b :: 0 <= a <= b < |cuts| ==> cuts[a] <= cuts[b]
    requires c + 1 < |cuts| && c' + 1 < |cuts| && cuts[c] <= i < cuts[c + 1] && cuts[c'] <= i < cuts[c' + 1]
    ensures c == c'
  {
  }

  lemma {:induction false} OneChunk(rows: nat, chunks: nat, i: nat, c: nat, c': nat)
    requires chunks > 0 && c < chunks && c' < chunks
    requires Cut(rows, chunks, c) <= i < Cut(rows, chunks, c + 1)
    requires Cut(rows, chunks, c') <= i < Cut(rows, chunks, c' + 1)
    ensures c == c'
  {
    CutsAscend(rows, chunks);
    OneInterval(Cuts(rows, chunks), i, c, c');
  }

  /** The least number of chunks that gives every worker a job, as far as there are rows. */
  function ChunksMeant(workers: nat, lambdas: nat, rows: nat): nat
    requires lambdas > 0
  {
    var split := (workers + lambdas - 1) / lambdas;
    if rows < 1 then 1 else if split > rows then rows else split
  }

  lemma {:induction false} WrappedSplit(workers: nat, lambdas: nat)
    requires 0 < lambdas < workers <= INT_MAX
    ensures (workers + lambdas - 1) / lambdas >= 2
    ensures workers + lambdas - 1 > INT_MAX ==> Quotient(Wrap(workers + lambdas - 1), lambdas) <= 0
  {
    var x := workers + lambdas - 1;
    IndexParts(2, 0, lambdas);
    DivideMonotone(2 * lambdas, x, lambdas);
    if x > INT_MAX {
      IndexParts(0, 0, lambdas);
      DivideMonotone(0, -Wrap(x), lambdas);
    }
  }

  /**
   Rows are split as meant exactly if the sum under the division does not wrap around;
   if it does, the negative quotient ends as one chunk and the extra workers stay idle.
   */
  lemma {:induction false} SplitsAsMeantIff(workers: nat, lambdas: nat, rows: nat)
    requires 0 < lambdas < workers <= INT_MAX
    ensures ChunksPerLambda(Checked, workers, lambdas, rows) == ChunksMeant(workers, lambdas, rows)
       <==> workers + lambdas - 1 <= INT_MAX || rows <= 1
  {
    WrappedSplit(workers, lambdas);
  }

  /** The job count stays inside a 32-bit integer, whatever the caller asks for. */
  lemma {:induction false} JobCountFits(mode: Mode, workers: int, lambdas: nat, rows: nat)
    requires workers <= INT_MAX && lambdas <= INT_MAX
    ensures 0 <= lambdas * ChunksPerLambda(mode, workers, lambdas, rows) <= INT_MAX
  {
    var c := ChunksPerLambda(mode, workers, lambdas, rows);
    if c != 1 {
      var x := workers + lambdas - 1;
      WrappedSplit(workers, lambdas);
      Division(x, lambdas);
      ProductMonotone(c, x / lambdas, lambdas);
    }
  }
}
