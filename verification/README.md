# Lambdas in a database server, and the extensions around them: a verified model

A Dafny model of the hard parts of a PostgreSQL fork in which functions are values stored
in tables, and of the contributed modules and benchmark scripts that ship with it.
`dafny verify dfyconfig.toml` checks the whole project.

What is modelled, in the system's own terms:

- **Lambda values** (`Lambda`, `LambdaMeaning`, `LambdaTyping`, `LambdaModes`, `LambdaPartial`,
  `LambdaRow`, `LambdaCache`). A body is an expression tree over numbered inputs; a call
  evaluates it with nested calls, or first flattens it by inlining the lambdas found in the
  arguments and folds its constants ("hoisting"). Partial application leaves positions open and
  folds the residual. The per-call-site cache keeps built bodies by the raw bytes of the lambdas
  involved.
- **The parallel map operator** (`ParallelMap`, `MapProtocol`, `MapProofs`, `MapWaiting`,
  `MapMeaning`, `Arithmetic`): a leader copies rows into shared memory while workers claim jobs,
  modelled as a state machine whose runs are all interleavings, and refined by one in which workers
  sleep on a condition variable until the leader's broadcast.
- **The bloom index** (`BloomSignature`, `BloomPage`, `BloomProtocol`, `BloomProofs`,
  `BloomBuild`): generator arithmetic, page space and compaction, the index as a state machine at
  buffer-lock granularity, and the build it starts from.
- **GiST keys** (`Bytes`, `GistVar`, `GistVarLayout`, `GistVarSearch`, `GistNum`, `GistTree`,
  `GistRuns`, `GistNearest`): prefix-truncated and fixed-width interval keys, the pruned search
  and the nearest-first scan over any tree of such keys, and the tree as a state machine under
  inserts, page splits, removals and unlinked pages.
- **Cubes** (`Cube`, `CubeOrder`, `CubeSearch`, `CubeDistance`, `CubeSplit`, `CubeRuns`): boxes of
  mixed dimension, their index support functions, Guttman's split, and the index under change.
- **The checkers** (`BtreeKeys`, `BtreeLinks`, `BtreeWalk`, `BtreeProofs`, `BtreeEnds`,
  `HeapChains`, `HeapRoots`, `HeapXid`, `HeapToast`): what silence of the B-tree and heap checks
  means on arbitrary, possibly corrupt input, and when their walks end.
- **Benchmark files** (`Text`, `Sections`, `Blobs`, `BlobRoundTrip`, `BlobSecond`,
  `BlobLineEnds`): the printer and the two parsers of one text format.

## Where the code does not do what one would expect

Each of these has a lemma that shows it, and one that says exactly when the expected property
does hold.

- Folding looks into CASE branches no row will take, so a call that returns a value by nested
  evaluation may divide by zero while the hoisted body is built (`LambdaModes.GuardedDivisionDiffers`),
  and a residual may not be built although the full call returns (`LambdaPartial.StagingDivides`).
  Folding fails exactly on a constant division by zero (`LambdaModes.FoldsIff`); without one in the
  flattened body the hoisted call returns what the nested call returns (`LambdaModes.ModesAgree`),
  and without one in the baked body staging agrees (`LambdaPartial.StagedCallAgrees`).
- Hoisting turns a NULL function argument into an error, and may skip a failing argument that
  the callee ignores (`LambdaModes.NullFunctionDiffers`, `LambdaModes.UnusedArgumentDiffers`);
  it refuses exactly when a mentioned function input is NULL (`LambdaTyping.FlattenFits`), and
  without division both modes agree (`LambdaModes.ModesEqualWithoutDivision`).
- The row-context injector does not look for calls inside call arguments, so a nested call
  survives injection (`LambdaRow.NestedCallSurvives`); the injected body is first-order for all
  stored lambdas exactly if no call is nested (`LambdaRow.FlattensIffNestedFree`).
- The parallel map stores results without a null flag: a NULL comes out as a number
  (`MapMeaning.NullComesOutAsNumber`), and a result is right exactly if it is a number
  (`MapMeaning.MapComputesMother`).
- Asking the parallel map for so many workers that workers + lambdas - 1 passes 2^31 - 1 turns
  splitting off; otherwise rows are split as meant (`ParallelMap.SplitsAsMeantIff`).
- Splitting an inner page of cut keys can make an indexed value unfindable
  (`GistVarSearch.InnerSplitMisses`); a side keeps covering an entry exactly if its upper bound does
  not outgrow the entry's (`GistVar.SplitCoversIff`), and the value lost is pruned exactly if the
  lower bound is no prefix of it (`GistVarSearch.LostIsPrunedIff`). Leaf splits always keep covering
  (`GistVarSearch.LeafSplitAllowed`).
- Two hash values per column make every bit number -1 (`BloomSignature.BitInSignature`): the
  range comment on the seeding function holds for every other seed (`BloomSignature.SeedProper`).
- The cube comparison behind the B-tree operator class is transitive as long as at most one
  number of dimensions other than zero occurs (`CubeOrder.CmpTransitive`), and runs in a circle
  as soon as two do (`CubeOrder.CmpCycle`).
- A "contained by" search skips pages exactly when the query reaches into further dimensions
  away from zero (`CubeSearch.ContainedByIff`, `CubeSearch.ContainedByMisses`).
- The check of a B-tree level never ends on some circles of half-dead pages
  (`BtreeEnds.HalfDeadCircleNeverEnds`). For every page graph it ends exactly if the chain of right
  links comes, behind pages that let it pass, to its end or to a page the check refuses, within
  twice as many steps as there are blocks (`BtreeEnds.EndsIff`); a check that never ends comes to
  some block twice (`BtreeEnds.EndlessCircle`), and between two visits lies a half-dead page
  (`BtreeProofs.CircleHasHalfDead`).
- The level walk by itself accepts disorder across empty pages (`BtreeProofs.EmptyPagesHideDisorder`);
  without such a gap an accepted level is ordered (`BtreeProofs.AcceptedIsOrdered`). The checks of
  downlinks and high keys against the parent level, which the same mode makes and this model leaves
  out, would refuse that input. What the walk accepts on a level without half-dead and deleted pages
  is stated exactly by `BtreeProofs.AcceptsIffWellFormed`.
- A toast pointer of size zero is checked as if it were four gigabytes
  (`HeapToast.CheckToastedAttribute`, `HeapToast.ExactAddsUp`).
- Heap-only tuples that update each other in a circle, however long, are not reported
  (`HeapRoots.CircleIsClean`). On a page without a report a chain has a beginning exactly if the walk
  back does not return (`HeapRoots.BeginsIffNotReturns`), and it does not return where every updater
  is newer than what it updates (`HeapRoots.NewerUpdatersHaveRoots`).
- A carriage return in a benchmark statement is read back as a newline, and may put a marker at the
  start of a line (`BlobLineEnds.ReturnMakesMarker`), on which the runner refuses the file
  (`BlobLineEnds.ReturnRefused`). A file of printable blobs comes back as it was written exactly if no statement holds a
  carriage return and no line of one is a marker (`BlobLineEnds.RunnerRoundTrip`).

## Model

| member | source | states |
|---|---|---|
| LambdaMeaning.InlineKeepsMeaning | hol-lambdas/src/backend/utils/adt/lambda_injector.c:461-549 | the walk that inlines lambda inputs keeps the meaning of every body: in the new row the result evaluates to what the body evaluated to in its frame, through inlined, open and embedded lambdas |
| LambdaMeaning.FoldKeepsMeaning | hol-lambdas/src/backend/optimizer/util/clauses.c:3119-3250 | where folding succeeds the folded body evaluates to what the body evaluates to, also in frames whose lambdas are folded |
| LambdaTyping.FoldFits | hol-lambdas/src/backend/optimizer/util/clauses.c:4426-4518 | folding keeps the signature, adds no call, and can fail by a division by zero only |
| LambdaModes.FoldsIff | hol-lambdas/src/backend/optimizer/util/clauses.c:4426-4518 | folding fails exactly if a number is divided by zero, both constant, outside branches a constant test rules out; what it leaves is the known value or no constant |
| LambdaModes.KnownIsMeaning | hol-lambdas/src/backend/optimizer/util/clauses.c:3119-3250 | what folding computes early is the value on every row that gives one |
| LambdaModes.HoistedIsFolded | hol-lambdas/src/backend/utils/adt/lambda_cache.c:174-208 | the hoisted call of a fitting lambda is its flattened, folded, first-order body on the same frame, or the division by zero met while folding |
| LambdaModes.ModesAgree | hol-lambdas/src/backend/utils/adt/lambda_cache.c:174-208 | where nested evaluation returns a value, the hoisted call returns it exactly if the flattened body holds no constant division by zero, and raises that division otherwise; where nested evaluation divides by zero, the hoisted call does too or returns a value |
| LambdaPartial.HeldSlotsDistinct | hol-lambdas/src/backend/utils/adt/lambda_injector.c:681-789 | held positions keep their order in the residual and never share a slot |
| LambdaPartial.ResidualKeepsMeaning | hol-lambdas/src/backend/utils/adt/lambda_injector.c:681-789 | the folded residual body on the held arguments means what the mother means on the merged frame |
| LambdaPartial.ResidualFits | hol-lambdas/src/backend/executor/execExprInterp.c:2619-2627 | a residual fits the signature of what is held, and is built exactly if the baked body holds no constant division by zero |
| LambdaPartial.StagedCallAgrees | hol-lambdas/src/ext/lambda-partials-tester.sql:179-187 | wherever the direct call returns a value and the residual can be built, the staged call returns that value by nested calls, and with hoisting exactly if flattening the residual leaves no constant division by zero |
| LambdaPartial.HoleCallAgrees | hol-lambdas/src/backend/executor/execExprInterp.c:2579-2629 | a call with holes yields a lambda that, given the rest, returns what the full call returns; it is refused exactly on a constant division by zero |
| LambdaPartial.StagingDivides | hol-lambdas/src/backend/executor/execExprInterp.c:2619-2627 | a residual that cannot be built, of a lambda whose full call returns |
| LambdaPartial.TwoStagesAgree | hol-lambdas/src/ext/lambda-partials-tester.sql:298-316 | a residual of a residual still means the mother, in either mode, under the same condition |
| LambdaPartial.SpreadPlaces | hol-lambdas/src/backend/executor/execExprInterp.c:2601-2617 | the arguments written in a call with holes reach the positions they were written for, in order |
| LambdaTyping.InlineFits | hol-lambdas/src/backend/utils/adt/lambda_injector.c:461-549 | inlining any body that fits its signature succeeds within a recursion depth given by the signature's order, and fits the new scope |
| LambdaTyping.FlattenFits | hol-lambdas/src/backend/utils/adt/lambda_injector.c:611-661 | flattening refuses exactly when a function input that is mentioned is NULL; otherwise what is left is first-order and fits |
| LambdaTyping.EvalOutcome | hol-lambdas/src/backend/executor/execExprInterp.c:2555-2663 | evaluating a fitting body returns a value of its type or a division by zero, in either mode, and never another error |
| LambdaModes.ModesEqualWithoutDivision | hol-lambdas/src/backend/utils/adt/lambda_cache.c:174-208 | where nothing divides the two modes return the same value, always |
| LambdaModes.UnusedArgumentDiffers | hol-lambdas/src/backend/utils/adt/lambda_injector.c:461-549 | an argument the callee ignores is evaluated by nested evaluation only: a body on which one mode fails and the other returns |
| LambdaModes.NullFunctionDiffers | hol-lambdas/src/backend/utils/adt/lambda_injector.c:611-661 | a NULL function argument gives NULL by nested evaluation and an error when flattened |
| LambdaModes.GuardedDivisionDiffers | hol-lambdas/src/backend/utils/adt/lambda_cache.c:200-205 | a CASE that guards a division: nested evaluation returns, the hoisted call divides by zero while it is built |
| LambdaRow.RowInjectIsInline | hol-lambdas/src/backend/utils/adt/lambda_injector.c:154-212 | without nested calls the row-context injector does exactly what the scalar inliner does |
| LambdaRow.RowInjectKeepsMeaning | hol-lambdas/src/backend/utils/adt/lambda_injector.c:232-298 | one injected body, on any row, gives what the higher-order mother means on that row |
| LambdaRow.NestedFreeFlattens | hol-lambdas/src/backend/utils/adt/lambda_injector.c:559-609 | a fitting mother without nested calls is injected without error and what comes out is first-order |
| LambdaRow.NestedCallSurvives | hol-lambdas/src/backend/utils/adt/lambda_injector.c:154-212 | for every mother with a nested call there are stored lambdas that are injected without error and leave a call in the injected body |
| LambdaRow.FlattensIffNestedFree | hol-lambdas/src/backend/utils/adt/lambda_injector.c:154-212 | the injected body is first-order for every choice of stored lambdas exactly if no call is nested in an argument |
| LambdaCache.KeyDeterminesBody | hol-lambdas/src/backend/utils/adt/lambda_cache.c:45-70 | the key is enough: rows with one key get one body, whatever their other arguments |
| LambdaCache.LargerCacheHoldsMore | hol-lambdas/src/backend/utils/adt/lambda_cache.c:238-265 | after any requests a larger cache holds all a smaller one holds, in the same order of use |
| LambdaCache.Cache.Evict | hol-lambdas/src/backend/utils/adt/lambda_cache.c:238-255 | eviction keeps the most recently used entries that fit with one more, unchanged, and counts the others |
| LambdaCache.Cache.Insert | hol-lambdas/src/backend/utils/adt/lambda_cache.c:137-265 | a miss builds the body, flattened and folded, makes room and puts the entry in front; a build error, folding included, leaves the cache usable |
| LambdaCache.Cache.BodyOf | hol-lambdas/src/backend/utils/adt/lambda_cache.c:295-343 | the body returned is the one a fresh build would give, the order is that of least recently used, no other entry is touched |
| ParallelMap.BuildJobs | hol-lambdas/src/ext/apply_mt_pw_ext.c:488-524 | the leader's job array: job j is chunk j mod c of lambda j div c |
| ParallelMap.JobsPartition | hol-lambdas/src/ext/apply_mt_pw_ext.c:488-524 | every result is covered by exactly one job |
| ParallelMap.SplitsAsMeantIff | hol-lambdas/src/ext/apply_mt_pw_ext.c:488-499 | rows are split into the least number of chunks that gives every worker a job exactly if workers + lambdas - 1 does not wrap around, or there is nothing to split |
| ParallelMap.JobCountFits | hol-lambdas/src/ext/apply_mt_pw_ext.c:488-501 | the job count stays inside a 32-bit integer, whatever number of workers is asked for |
| MapProtocol.LeaderPlanValid | hol-lambdas/src/ext/apply_mt_pw_ext.c:545-661 | the plan the leader sets up has disjoint jobs and distinct places for all results |
| MapProofs.ReadsAreSafe | hol-lambdas/src/ext/apply_mt_pw_ext.c:125-309 | in no interleaving does a worker read a row the leader has not copied |
| MapProofs.EvaluateWrites | hol-lambdas/src/ext/apply_mt_pw_ext.c:125-309 | a result goes to a place nobody has written, and nobody else's place changes |
| MapProofs.StepKeeps | hol-lambdas/src/ext/apply_mt_pw_ext.c:125-309 | every step of leader or worker keeps the invariant: jobs claimed once, exactly the results below a job's progress in place, each with its value |
| MapProofs.RunKeeps | hol-lambdas/src/ext/apply_mt_pw_ext.c:125-309 | the invariant holds after any run |
| MapProofs.AlwaysAStep | hol-lambdas/src/ext/apply_mt_pw_ext.c:125-309 | unless the operator failed or all workers left, somebody can take a step: no deadlock |
| MapProofs.RunsEnd | hol-lambdas/src/ext/apply_mt_pw_ext.c:125-309 | no schedule takes more steps than the work there is |
| MapProofs.CounterFits | hol-lambdas/src/ext/apply_mt_pw_ext.c:125-309 | the shared claim counter never wraps |
| MapWaiting.MoveKeeps | hol-lambdas/src/backend/storage/lmgr/condition_variable.c:282-360 | every read of the flag, entry into and exit from the wait list, reset of a latch and step of the broadcast keeps this: a sleeper on the list is ahead of the leader's sentinel, one taken off has been signalled or is about to be |
| MapWaiting.MovesRefine | hol-lambdas/src/ext/apply_mt_pw_ext.c:234-245 | every run with the wait in it is, the wait left out, a run of the operator's protocol |
| MapWaiting.NoLostWakeup | hol-lambdas/src/backend/storage/lmgr/condition_variable.c:111-216 | in every run, once the broadcast is over, every worker that has not left can move: nobody is left asleep |
| MapWaiting.StopsWhenDone | hol-lambdas/src/ext/apply_mt_pw_ext.c:682-687 | a run that cannot go on has failed, or its broadcast is over and every worker has left |
| MapWaiting.MovesEnd | hol-lambdas/src/ext/apply_mt_pw_ext.c:234-245 | no run makes more moves than there is work, plus four for each time somebody else sets a latch |
| MapWaiting.WaitingRunComplete | hol-lambdas/src/ext/apply_mt_pw_ext.c:662-688 | when all workers have left, every result is in its place, whatever the waits were |
| MapProofs.CompleteRun | hol-lambdas/src/ext/apply_mt_pw_ext.c:662-688 | when all workers have left, every result of every lambda on every row is in its place |
| MapProofs.NullNeverCompletes | hol-lambdas/src/ext/apply_mt_pw_ext.c:662-684 | with a NULL row no run completes |
| MapProofs.MapEqualsSequential | hol-lambdas/src/ext/apply_mt_pw_ext.c:714-742 | the result segment of every complete run, front to back, is the sequential result |
| MapProofs.AddUp | hol-lambdas/src/ext/apply_mt_pw_ext.c:690-705 | the leader's final sum is the same for every run |
| MapProofs.Average | hol-lambdas/src/ext/apply_mt_pw_ext.c:690-713 | the aggregate is the average of all results of the sequential operator, in exact arithmetic, however the rows were split and the jobs scheduled; none without results |
| MapMeaning.BodiesIff | hol-lambdas/src/ext/apply_mt_pw_ext.c:453-476 | the leader can build all bodies exactly if no injected body holds a constant division by zero |
| MapMeaning.CompleteMeansNoNull | hol-lambdas/src/ext/apply_mt_pw_ext.c:662-684 | a run that completes has met no row with a NULL |
| MapMeaning.MapComputesMother | hol-lambdas/src/ext/apply_mt_pw_ext.c:125-309 | every tuple of every complete run is the row with a number, which is what the higher-order mother means on it exactly if that is not NULL |
| MapMeaning.NullComesOutAsNumber | hol-lambdas/src/ext/apply_mt_pw_ext.c:268-295 | a mother that means NULL comes out as a number |
| BloomSignature.ParkMiller | hol-lambdas/contrib/bloom/blutils.c:223-249 | for every non-zero state the step yields 16807 times the state modulo 2^31-1, in range, with no 32-bit overflow |
| BloomSignature.SeedProper | hol-lambdas/contrib/bloom/blutils.c:251-257 | seeding reaches a proper state from every 32-bit seed but 0x80000001 and 0xFFFFFFFF |
| BloomSignature.BitInSignature | hol-lambdas/contrib/bloom/blutils.c:262-290 | every bit drawn lies inside the signature, except for the two bad hashes, where every one is -1 |
| BloomSignature.Generator.Rand | hol-lambdas/contrib/bloom/blutils.c:224-249 | from a proper state one call moves to 16807 times it modulo 2^31-1, proper again, and returns a draw that is not negative; from 0 it stays there and returns -1 |
| BloomSignature.Generator.Seed | hol-lambdas/contrib/bloom/blutils.c:251-257 | whatever the state before, seeding leaves a proper state, except for the two seeds that leave 0 |
| BloomSignature.Generator.SignValue | hol-lambdas/contrib/bloom/blutils.c:262-290 | the bits set depend on column, hash and options only, not on the generator's state before, for every hash |
| BloomSignature.TupleHasDraw | hol-lambdas/contrib/bloom/blutils.c:295-313 | a tuple's signature has all that every non-null column sets, whatever its hash |
| BloomSignature.EqualColumnsMatch | hol-lambdas/contrib/bloom/blscan.c:90-116 | a tuple whose columns equal all scan keys passes the signature test |
| BloomPage.WordsCoverBits | hol-lambdas/contrib/bloom/blutils.c:488-490 | the word count chosen for a length in bits covers it and wastes less than a word |
| BloomPage.FitsBelowCapacity | hol-lambdas/contrib/bloom/bloom.h:149-152 | for every signature length the free space never underflows on a page within capacity, an empty page always takes a tuple, and room is found exactly below capacity |
| BloomPage.Page.Init | hol-lambdas/contrib/bloom/blutils.c:401-410 | initialising a page empties it |
| BloomPage.Page.AddItem | hol-lambdas/contrib/bloom/blutils.c:319-347 | a tuple is appended exactly if there is room, and nothing else changes |
| BloomPage.Page.Compact | hol-lambdas/contrib/bloom/blvacuum.c:85-132 | the in-place loop leaves the surviving tuples in their order, and counts add up |
| BloomPage.Squeeze | hol-lambdas/contrib/bloom/blvacuum.c:85-110 | the two moving pointers keep exactly the survivors, in order |
| BloomPage.SurvivorsCount | hol-lambdas/contrib/bloom/blvacuum.c:85-110 | survivors keep their multiplicity, the dead have none |
| BloomPage.Build | hol-lambdas/contrib/bloom/blinsert.c:73-158 | building fills pages one after the other: all tuples, in order, no page empty or over capacity |
| BloomBuild.BuildIndex | hol-lambdas/contrib/bloom/blinsert.c:116-158 | what the build leaves is a state every run may start from, and holds exactly the tuples given, each on one page and once on it |
| BloomProofs.AddKeeps | hol-lambdas/contrib/bloom/blinsert.c:206-290 | adding to the first or a listed page, even through a stale entry, keeps what is on it |
| BloomProofs.AllocateKeeps | hol-lambdas/contrib/bloom/blutils.c:354-395 | a recycled page holds no tuples when it is reinitialised |
| BloomProofs.VacuumPageKeeps | hol-lambdas/contrib/bloom/blvacuum.c:57-140 | vacuuming one page keeps the invariant: tuples go exactly when they are dead |
| BloomProofs.RewriteKeeps | hol-lambdas/contrib/bloom/blvacuum.c:140-158 | the rewritten free list holds existing data blocks only |
| BloomProofs.ScanKeeps | hol-lambdas/contrib/bloom/blscan.c:122-168 | a scan step keeps that every match passed so far was reported |
| BloomProofs.StepKeeps | hol-lambdas/contrib/bloom/blinsert.c:174-335 | every step of every process keeps the invariant, 0 <= nStart <= nEnd included |
| BloomProofs.RunKeeps | hol-lambdas/contrib/bloom/blinsert.c:174-335 | the invariant holds after any interleaving |
| BloomProofs.IndexIsInsertedMinusRemoved | hol-lambdas/contrib/bloom/blinsert.c:174-335 | after any interleaving the tuples on data pages are exactly those inserted and not vacuumed, each on one page and once on it |
| BloomProofs.OnlyVacuumRemoves | hol-lambdas/contrib/bloom/blvacuum.c:57-132 | no other step takes a tuple away |
| BloomProofs.TuplesNeverMove | hol-lambdas/contrib/bloom/blvacuum.c:57-132 | a tuple stays on its page for the whole of any run |
| BloomProofs.ScanReportsAll | hol-lambdas/contrib/bloom/blscan.c:80-172 | a matching tuple present from start to end of a scan is reported, whatever runs beside it |
| BloomProofs.NoFalseNegatives | hol-lambdas/contrib/bloom/blscan.c:80-172 | a tuple whose columns equal all scan keys and that stays is reported, whatever the hashes |
| GistVar.NodeCpLen | hol-lambdas/contrib/btree_gist/btree_utils_var.c:120-162 | the loop returns the length of the longest common prefix of the two bounds |
| GistVar.UnionOf | hol-lambdas/contrib/btree_gist/btree_utils_var.c:321-357 | the loop over the entries gives their hull, cut two bytes past the common prefix |
| GistVar.CutHullCoversIff | hol-lambdas/contrib/btree_gist/btree_utils_var.c:203-277 | a cut hull covers all that one of its entries covers exactly if its upper bound does not outgrow the entry's |
| GistVar.UnionCovers | hol-lambdas/contrib/btree_gist/btree_utils_var.c:321-357 | the union covers every value any of its entries covers |
| GistVar.PickSplit | hol-lambdas/contrib/btree_gist/btree_utils_var.c:457-547 | the sorted entries are halved, and both sides' hulls are cut to one shared length |
| GistVar.LeafSplitCovers | hol-lambdas/contrib/btree_gist/btree_utils_var.c:530-543 | splitting a leaf page: either side's key covers every value put there |
| GistVar.SplitCoversIff | hol-lambdas/contrib/btree_gist/btree_utils_var.c:530-543 | splitting any page: a side's key covers all an entry covered exactly if it does not outgrow it |
| GistVar.GrowOnce | hol-lambdas/src/backend/access/gist/gistutil.c:311-365 | a key grown for a value does not change when it is grown for that value again |
| GistVarLayout.LeafRoundTrip | hol-lambdas/contrib/btree_gist/btree_utils_var.c:73-84 | a leaf entry's bytes read back as its value, and as a leaf |
| GistVarLayout.NodeRoundTrip | hol-lambdas/contrib/btree_gist/btree_utils_var.c:56-102 | a node entry's bytes read back as its two bounds, whatever their lengths, and never as a leaf |
| GistVarSearch.LeafTestExact | hol-lambdas/contrib/btree_gist/btree_utils_var.c:553-612 | on a leaf the six tests are the six operators |
| GistVarSearch.NeverPrunes | hol-lambdas/contrib/btree_gist/btree_utils_var.c:553-612 | for all six strategies a key above a matching value is accepted |
| GistVarSearch.VarKeysLawful | hol-lambdas/contrib/btree_gist/btree_utils_var.c:321-357 | through any number of levels unions stay ordered and covering |
| GistVarSearch.VarSearchExact | hol-lambdas/contrib/btree_gist/btree_utils_var.c:553-612 | wherever keys cover what is below them every query is answered exactly |
| GistVarSearch.VarMethodLawful | hol-lambdas/contrib/btree_gist/btree_utils_var.c:457-547 | unions, and splits that outgrow no entry, keep keys ordered and covering, and distribute every entry once |
| GistVarSearch.LeafSplitAllowed | hol-lambdas/contrib/btree_gist/btree_utils_var.c:530-543 | a split of a leaf page outgrows no entry |
| GistVarSearch.VarRunsExact | hol-lambdas/src/backend/access/gist/gist.c:634-897 | every tree the index goes through, by inserts that adjust downlinks, leaf splits, inner splits that outgrow no entry, removals and unlinked pages, answers every query exactly and holds what was inserted and not removed |
| GistVarSearch.LostIsPrunedIff | hol-lambdas/contrib/btree_gist/btree_utils_var.c:530-543 | for every split that outgrows an entry, an equality search prunes the value lost exactly if the side's lower bound is no prefix of it |
| GistVarSearch.InnerSplitMisses | hol-lambdas/contrib/btree_gist/btree_utils_var.c:457-547 | an index built by unions in which a search finds a value, and misses it after the split method has split the root |
| GistTree.SearchIsFilter | hol-lambdas/src/backend/access/gist/gistget.c:405-520 | a pruned search over a sound tree returns exactly what testing every value returns, in order |
| GistTree.UnionCoversBelow | hol-lambdas/src/backend/access/gist/gistutil.c:155-220 | however many levels of unions lie between, a page's union covers every value below it |
| GistTree.UnionBuiltSearchExact | hol-lambdas/src/backend/access/gist/gistget.c:405-520 | a tree built by a lawful union method answers every query exactly |
| GistRuns.StepKeeps | hol-lambdas/src/backend/access/gist/gist.c:634-897 | every insert, split at any level, removal and unlinked page keeps each key covering all that is below it |
| GistRuns.StepConserves | hol-lambdas/src/backend/access/gist/gist.c:1444-1526 | no step loses or makes up a value: splits distribute a page's entries, inserts add one, removals take one |
| GistRuns.RunKeeps | hol-lambdas/src/backend/access/gist/gist.c:634-897 | after any run keys cover what is below them |
| GistRuns.RunConserves | hol-lambdas/src/backend/access/gist/gist.c:224-626 | after any run each value is there as often as it was, or was inserted, and not removed |
| GistRuns.RunSearchExact | hol-lambdas/src/backend/access/gist/gistget.c:405-520 | every tree reached answers a search with its matching values, all of them |
| GistNearest.ScanPage | hol-lambdas/src/backend/access/gist/gistget.c:328-530 | reading a page into the queue loses nothing it stands for and puts nothing too far away |
| GistNearest.TakeFirst | hol-lambdas/src/backend/access/gist/gistscan.c:27-65 | the item taken is nearest |
| GistNearest.Nearest | hol-lambdas/src/backend/access/gist/gistget.c:537-608 | with admissible key distances the ordered scan ends and reports exactly the matches, each as often as stored, nearest first |
| GistNum.Union | hol-lambdas/contrib/btree_gist/btree_utils_num.c:171-203 | the union is the exact hull: bounds taken from entries, past none |
| GistNum.BinUnion | hol-lambdas/contrib/btree_gist/btree_utils_num.c:227-252 | adding an entry to a side's datum keeps it the exact hull |
| GistNum.PickSplit | hol-lambdas/contrib/btree_gist/btree_utils_num.c:338-384 | floor(n/2) entries in sorted order go left, the rest right, each datum the exact hull of its side |
| GistNum.SplitPartitions | hol-lambdas/contrib/btree_gist/btree_utils_num.c:338-384 | every entry is on one side only, and no left lower bound passes a right one |
| GistNum.UnionIsHullOf | hol-lambdas/contrib/btree_gist/btree_utils_num.c:171-203 | what the union method returns is the hull the tree lemmas speak of |
| GistNum.ConsistentIff | hol-lambdas/contrib/btree_gist/btree_utils_num.c:262-308 | the internal test accepts exactly the intervals that can hold a match, strict bounds read as weak |
| GistNum.DistanceIsLeast | hol-lambdas/contrib/btree_gist/btree_utils_num.c:315-335 | a key's distance is the least any covered value can have, and is attained |
| GistNum.NumSearchExact | hol-lambdas/contrib/btree_gist/btree_utils_num.c:262-308 | wherever keys cover what is below them every query is answered exactly |
| GistNum.NumNearestAdmissible | hol-lambdas/contrib/btree_gist/btree_utils_num.c:315-335 | a nearest-first scan may trust keys that cover what is below them |
| GistNum.NumRunsExact | hol-lambdas/src/backend/access/gist/gist.c:634-897 | every tree the index goes through, keys left too wide by removals included, answers queries exactly, supports nearest-first scans and loses no value |
| Cube.CoversMeansSubset | hol-lambdas/contrib/cube/cubedata.h:37-49 | covering, corner by corner, is containment of point sets |
| Cube.Union | hol-lambdas/contrib/cube/cube.c:747-805 | the union loops compute the stored form with ordered corners and the point flag |
| Cube.UnionIsLeast | hol-lambdas/contrib/cube/cube.c:747-805 | the union is the least box over both, missing dimensions read as zero |
| Cube.UnionOf | hol-lambdas/contrib/cube/cube.c:424-449 | the union method returns tight bounds for two or more entries, nothing for one |
| Cube.ContainsV0 | hol-lambdas/contrib/cube/cube.c:1123-1159 | the loops test inclusion in the second box's dimensions only |
| Cube.ContainsMeansSubset | hol-lambdas/contrib/cube/cube.c:1123-1159 | the test is containment of point sets exactly when the first box's further dimensions straddle zero |
| Cube.OverlapV0 | hol-lambdas/contrib/cube/cube.c:1193-1229 | the loops test overlap in all dimensions, missing ones read as zero |
| Cube.OverlapMeansCommonPoint | hol-lambdas/contrib/cube/cube.c:1193-1229 | overlap means a common point |
| CubeOrder.Cmp | hol-lambdas/contrib/cube/cube.c:937-1014 | the loops compute the comparison of lower corners, upper corners, further dimensions and their number |
| CubeOrder.CmpZeroIff | hol-lambdas/contrib/cube/cube.c:937-1014 | zero exactly for equal boxes of equal dimension |
| CubeOrder.CmpAntisymmetric | hol-lambdas/contrib/cube/cube.c:937-1014 | swapping the boxes negates the result |
| CubeOrder.CmpTransitive | hol-lambdas/contrib/cube/cube.c:937-1014 | transitive while at most one number of dimensions other than zero occurs |
| CubeOrder.CmpCycle | hol-lambdas/contrib/cube/cube.c:937-1014 | for any two different numbers of dimensions other than zero, three boxes in a circle |
| CubeSearch.LeafConsistentV0 | hol-lambdas/contrib/cube/cube.c:678-705 | the leaf test per strategy |
| CubeSearch.InternalConsistentV0 | hol-lambdas/contrib/cube/cube.c:707-732 | the internal test per strategy |
| CubeSearch.NeverPrunes | hol-lambdas/contrib/cube/cube.c:678-732 | overlap, same and contains: no key above a match is refused, mixed dimensions and unordered corners included |
| CubeSearch.ContainedByIff | hol-lambdas/contrib/cube/cube.c:678-732 | contained-by: every key above a match is accepted exactly when the query's further dimensions straddle zero |
| CubeSearch.CubeSearchExact | hol-lambdas/contrib/cube/cube.c:678-732 | wherever keys cover what is below them a search finds exactly the boxes the operator accepts, given what containment in the query needs |
| CubeSearch.ContainedByMisses | hol-lambdas/contrib/cube/cube.c:1147-1158 | a box contained in the query whose page is skipped |
| CubeDistance.Distance1DIsGap | hol-lambdas/contrib/cube/cube.c:1502-1515 | the one-dimensional distance is the gap between the intervals, from either side |
| CubeDistance.Distance | hol-lambdas/contrib/cube/cube.c:1252-1395 | the three loops add up, square and add up, or take the largest of the gaps over all dimensions |
| CubeDistance.DistanceIsLeast | hol-lambdas/contrib/cube/cube.c:1252-1395 | each is the least distance between a point of one box and a point of the other, and is attained |
| CubeDistance.DistanceAdmissible | hol-lambdas/contrib/cube/cube.c:1397-1500 | a key is never further from the query than a leaf it covers, for all three metrics |
| CubeDistance.CoordMeans | hol-lambdas/contrib/cube/cube.c:1643-1699 | the coordinate operator returns the lower or upper bound of a dimension, zero past the last, negated for negative coordinates |
| CubeDistance.CoordAdmissible | hol-lambdas/contrib/cube/cube.c:1397-1460 | a key's ordering value is a lower bound on every covered leaf's, whose own value is the coordinate operator's |
| CubeDistance.CubeNearestAdmissible | hol-lambdas/contrib/cube/cube.c:1397-1500 | an ordered scan by any metric or coordinate may trust keys that cover what is below them |
| CubeSplit.SizeOf | hol-lambdas/contrib/cube/cube.c:909-932 | the loop multiplies the extents; points and boxes without dimensions have size zero |
| CubeSplit.Inter | hol-lambdas/contrib/cube/cube.c:822-895 | the intersection loops compute the stored form |
| CubeSplit.InterMeansCommonPoints | hol-lambdas/contrib/cube/cube.c:822-895 | where boxes overlap the intersection is the set of their common points |
| CubeSplit.PickSeeds | hol-lambdas/contrib/cube/cube.c:552-588 | the seeds are a pair that wastes most among all pairs looked at |
| CubeSplit.Place | hol-lambdas/contrib/cube/cube.c:590-650 | every entry goes where its union grows less; all writes, end marks included, stay inside the arrays |
| CubeSplit.PickSplit | hol-lambdas/contrib/cube/cube.c:510-655 | seeds and placement together, for every entry vector with n >= 3 |
| CubeSplit.SplitIsPartition | hol-lambdas/contrib/cube/cube.c:510-655 | both sides non-empty, strictly increasing, disjoint, together exactly 1..n-1, and each datum covers its side |
| CubeRuns.CubeMethodLawful | hol-lambdas/contrib/cube/cube.c:510-655 | unions and quadratic splits keep keys covering and distribute every entry once |
| CubeRuns.CubeRunsExact | hol-lambdas/src/backend/access/gist/gist.c:634-897 | every tree the index goes through answers queries exactly, supports ordered scans and loses no box |
| BtreeKeys.Compare | hol-lambdas/src/backend/access/nbtree/nbtsearch.c:682-835 | the comparison of a scan key with a tuple, against the order in which a cut attribute is minus infinity |
| BtreeKeys.InvariantL | hol-lambdas/contrib/amcheck/verify_nbtree.c:3218-3265 | the strict test decides the order, truncated keys included |
| BtreeKeys.InvariantLeq | hol-lambdas/contrib/amcheck/verify_nbtree.c:3279-3289 | the weak test decides less or equal |
| BtreeKeys.InvariantG | hol-lambdas/contrib/amcheck/verify_nbtree.c:3303-3326 | the lower-bound test decides greater |
| BtreeLinks.LeftmostIgnoringHalfDead | hol-lambdas/contrib/amcheck/verify_nbtree.c:1147-1199 | ends on every page graph, goes past no block twice and reads at most one more, and says yes exactly if a mutually linked half-dead chain leads to the end |
| BtreeWalk.TargetPageCheck | hol-lambdas/contrib/amcheck/verify_nbtree.c:1425-1872 | passes exactly if keys ascend strictly and stay within the high key, strictly on internal pages |
| BtreeWalk.Advance | hol-lambdas/contrib/amcheck/verify_nbtree.c:788-973 | one page read of the level check |
| BtreeWalk.CheckLevel | hol-lambdas/contrib/amcheck/verify_nbtree.c:762-986 | the loop is a run of that many steps |
| BtreeWalk.RunKeeps | hol-lambdas/contrib/amcheck/verify_nbtree.c:788-973 | the pages left behind follow right links from the leftmost, live ones point back, and each passed its checks |
| BtreeProofs.CircleHasHalfDead | hol-lambdas/contrib/amcheck/verify_nbtree.c:788-973 | coming back to a page means a half-dead page on the way round |
| BtreeProofs.LiveLevelEnds | hol-lambdas/contrib/amcheck/verify_nbtree.c:788-973 | on a level without half-dead and deleted pages, whatever other levels hold, the check ends and leaves no page behind twice |
| BtreeProofs.AcceptedIsChain | hol-lambdas/contrib/amcheck/verify_nbtree.c:788-973 | an accepted level was read as the whole right-link chain; no page is linked to itself, live pages point back, the first live one is leftmost but for half-dead pages and, where expected, the root |
| BtreeProofs.AcceptedIsOrdered | hol-lambdas/contrib/amcheck/verify_nbtree.c:1425-1872 | accepting live pages, none empty between two that are not, means one strictly ascending sequence of keys along right links, each within its high key |
| BtreeProofs.AcceptsIffWellFormed | hol-lambdas/contrib/amcheck/verify_nbtree.c:762-986 | the walk accepts a level without half-dead and deleted pages exactly if it is a chain linked both ways, in order on each page and from page to page: nothing bad passes, nothing good is refused |
| BtreeProofs.EmptyPagesHideDisorder | hol-lambdas/contrib/amcheck/verify_nbtree.c:1975-2176 | with any number of empty pages between two others the level walk by itself accepts disorder |
| BtreeEnds.EndsIff | hol-lambdas/contrib/amcheck/verify_nbtree.c:788-973 | for every page graph the walk ends exactly if, behind pages that let it pass, the chain of right links comes to its end or to a page that is refused, among the first pages of the chain, twice as many as there are blocks |
| BtreeEnds.EndlessCircle | hol-lambdas/contrib/amcheck/verify_nbtree.c:788-973 | a walk that never ends comes to some block twice within as many steps of the chain as there are blocks |
| BtreeEnds.HalfDeadCircleNeverEnds | hol-lambdas/contrib/amcheck/verify_nbtree.c:788-973 | half-dead pages in a circle: after any number of steps the walk is still running |
| HeapChains.CheckLinePointers | hol-lambdas/contrib/amcheck/verify_heapam.c:444-570 | the first pass records successors and validity, and is silent exactly if every line pointer and tuple is sound by itself |
| HeapChains.CheckEdges | hol-lambdas/contrib/amcheck/verify_heapam.c:575-740 | the second pass records the first edge into each tuple, and is silent exactly if every edge fits and none shares a target |
| HeapChains.CheckRoots | hol-lambdas/contrib/amcheck/verify_heapam.c:742-776 | the third pass is silent exactly if every wanted heap-only tuple is entered |
| HeapChains.CheckPage | hol-lambdas/contrib/amcheck/verify_heapam.c:444-776 | the passes together report nothing exactly on clean pages |
| HeapChains.EdgesOneToOne | hol-lambdas/contrib/amcheck/verify_heapam.c:575-740 | on a clean page no two edges enter one tuple |
| HeapChains.RedirectsLeadToHeapOnly | hol-lambdas/contrib/amcheck/verify_heapam.c:463-513 | on a clean page every redirect leads to a normal heap-only tuple on the page |
| HeapChains.HeapOnlyEnteredOnce | hol-lambdas/contrib/amcheck/verify_heapam.c:742-776 | every heap-only tuple known committed or in progress is entered by exactly one edge, from a redirect or a HOT-updated tuple |
| HeapChains.PlainUpdateLeavesRoot | hol-lambdas/contrib/amcheck/verify_heapam.c:675-696 | on a clean page a tuple that was not HOT-updated is never followed by a heap-only version |
| HeapRoots.BeginsIffNotReturns | hol-lambdas/contrib/amcheck/verify_heapam.c:575-776 | on a clean page the walk back from a tuple ends exactly if it does not return to the tuple |
| HeapRoots.OneBeginning | hol-lambdas/contrib/amcheck/verify_heapam.c:575-740 | and then at one line pointer only |
| HeapRoots.BeginningIsRoot | hol-lambdas/contrib/amcheck/verify_heapam.c:742-776 | which is a redirect, a tuple that is not heap-only, or one not known to be committed or in progress |
| HeapRoots.NewerUpdatersHaveRoots | hol-lambdas/contrib/amcheck/verify_heapam.c:742-776 | where every updater is newer than the xmin it replaces, every chain of a clean page has a beginning |
| HeapRoots.CircleIsClean | hol-lambdas/contrib/amcheck/verify_heapam.c:742-776 | circles of two or more heap-only tuples, however many and on whatever block, are clean and no member has a beginning |
| HeapXid.WidenAsserts | hol-lambdas/contrib/amcheck/verify_heapam.c:1882-1919 | the clamp applies in epoch zero only and the result is always normal |
| HeapXid.WidenIsUnique | hol-lambdas/contrib/amcheck/verify_heapam.c:1882-1919 | away from the clamp the result is the one id with these low bits within half the circle of next |
| HeapXid.ClampedIff | hol-lambdas/contrib/amcheck/verify_heapam.c:1882-1919 | clamped exactly if no normal id with these low bits lies within half the circle |
| HeapXid.WidenMonotone | hol-lambdas/contrib/amcheck/verify_heapam.c:1882-1919 | behind next and away from the clamp, 64-bit order is circular order |
| HeapXid.Context.GetXidStatus | hol-lambdas/contrib/amcheck/verify_heapam.c:2016-2051 | accepted exactly from the later of oldest and relfrozen up to next; the cache is renewed only when it refuses the id |
| HeapToast.CheckToastTuple | hol-lambdas/contrib/amcheck/verify_heapam.c:1457-1541 | a chunk passes exactly if it has the expected number and the size that number demands |
| HeapToast.CheckToastedAttribute | hol-lambdas/contrib/amcheck/verify_heapam.c:1763-1814 | silent exactly for all chunks of a value of the size checked for, in order; malformed chunks are never silent |
| HeapToast.ExactAddsUp | hol-lambdas/contrib/amcheck/verify_heapam.c:1763-1814 | then the sizes add up to the external size, exactly if that is not zero |
| Blobs.BlobHeader | generate_benchmarks.py:94-102 | the header's lines |
| Sections.SplitSections | benchmark.py:495-546 | the index-driven loop computes the section-by-section parse, up to the first error |
| Blobs.SplitBenchmarkFile | benchmark.py:487-548 | the runner's loop parses section after section of the translated text and refuses a file without a blob |
| BlobRoundTrip.HeaderRoundTrip | benchmark.py:464-484 | widths, sizes and tables of a printed header come back |
| BlobRoundTrip.LinesReadBackIff | benchmark.py:495-546 | line by line the file reads back exactly if no line of a statement is a marker; other comments may stand in it |
| BlobLineEnds.RunnerRoundTrip | benchmark.py:487-548 | the runner recovers count, order, widths, sizes, tables, setup and statement of every blob exactly if no statement holds a carriage return and no line of one is a marker; the translated statements come back exactly if none of their lines is one, and otherwise not even the count does |
| BlobLineEnds.SecondRoundTrip | additional-tests/equivalence/run_equivalence.py:192-205 | where no marker, not even one stretched over lines, stands in a statement, the second parser returns the same setup and statement at every index exactly if no statement holds a carriage return |
| BlobLineEnds.StatementAsRead | benchmark.py:487-488 | what comes back is the statement with its line ends translated, unchanged exactly if it holds no carriage return |
| BlobLineEnds.ReturnMakesMarker | benchmark.py:487-500 | a marker behind a carriage return inside a line is a marker line when it is read |
| BlobLineEnds.ReturnRefused | benchmark.py:500-502 | a file whose statement ends in a carriage return and a marker is refused |

## Left out

- Lambda: node kinds other than constants, inputs, operators, CASE and calls, and values other than numbers, NULL and functions; they would be further cases of the same walks. Bodies hold no partial application: the parser makes a call with holes for a table column only (hol-lambdas/src/backend/parser/parse_func.c:505-512 and 985-1100), and a body is closed.
- Lambda.Fold: operators are strict, immutable and total but for division, so folding by support functions, inlined SQL functions and boolean simplification is not modelled.
- Lambda: recursion depth of evaluation and of inlining are natural-number parameters; the typing lemmas say how much depth a signature needs, and with that much no evaluation stops for lack of it.
- LambdaRow: lambdas embedded as constants in a row-context mother, and alias and column renumbering, which decide where an input is found but not what is injected.
- LambdaCache: the hash function, memory contexts and compiled code; a compiled body is taken to compute what its tree computes.
- MapMeaning.MapComputesMother: an evaluation that raises an error is a value here, while in the operator it ends the run; nothing is claimed of it.
- MapProtocol: shared-memory layout and worker launch; a worker that is not launched takes no steps.
- MapWaiting: interrupts, the death of the postmaster, and other users of the condition variable, of which there are none; memory is sequentially consistent, as the barriers of the flag and the spin lock of the list make it.
- MapProofs.Average: over the reals; MapProofs.AddUp is stated for any addition, associative or not.
- BloomProtocol: write-ahead logging and crash recovery, buffer pins and the free-space map's own structure; a page update is one step, and the free-space map may name any block at any time.
- BloomSignature: the hash functions of the indexed types; a value is its hash. The shift by -1 that the two bad hashes lead to is undefined in C; it is taken to yield the same word every time.
- GistVar: the collation-aware types, whose keys are not cut, and multi-byte characters in the common prefix; values are byte strings.
- GistRuns: one process at a time, and one index column without NULLs; which page an insert descends to and when a page is full are left open, so every choice is covered. A split into more than two pages is several splits in two.
- GistVar.PickSplit: sorting is a parameter, a permutation that sorts the entries; so it is in GistNum.PickSplit.
- GistNum: values are reals; not-a-number and the rounding of float distances are not modelled.
- GistNearest.TakeFirst: the pairing heap is a queue from which a nearest item is taken; several ORDER BY distances, lossy distances and concurrent page splits are not modelled.
- Cube: coordinates are reals, so not-a-number, infinities and rounding are not modelled; Euclidean distances are compared by their squares; parsing, printing, subset and enlargement of cubes.
- Cube.Union: two pointers to one cube return that cube unchanged, which has the same bounds; the split uses it for the seeds.
- BtreeWalk: the mode without a lock and its races, downlink, high-key and missing-page checks against the next level, heapallindexed, rootdescend, posting lists and uniqueness.
- BtreeKeys: attributes are integers compared by one total order each; NULL and descending columns are other such orders.
- HeapRoots.NewerUpdatersHaveRoots: transaction ids are compared as 64-bit numbers.
- HeapChains: the checks of a single tuple are a flag, whether they report; the commit status they learn is data.
- HeapXid: multixact ids and the lookup of the commit status itself.
- Blobs.SplitBenchmarkFile: numbers are plain digits, where the parser also takes signs, underscores and other digits; the CPU count is a parameter.
- BlobRoundTrip.Printable: setup statements are trimmed, of one line and no comments, table names hold no white space, and the statement is not blank and has its width written in; other blobs are outside the round trips.
- BlobSecond.NthBlob: the whole-text patterns are stated line by line, with markers that may stretch over lines; outer white space is dropped from every part, as in the code.
- Penalty functions and cost estimates: heuristics, on which no result depends.
- Option parsing, hstore, earthdistance, dblink and the other contributed modules: unchanged parts of the server distribution that the lambda work does not touch.
- Running clusters, timing, reporting and plotting in the benchmark scripts.
