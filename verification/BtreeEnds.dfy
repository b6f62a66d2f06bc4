/**
 When the check of a level comes to an end, for every page graph: read off the chain of
 right links and the pages on it, without running the check.
 */
module BtreeEnds {
  import opened BtreeKeys
  import opened BtreeLinks
  import opened BtreeWalk
  import opened Wrappers

  // ---------------------------------------------------------------- what a page of the chain does to the check

  /** The k-th block of the level. */
  function At(pages: Pages, level: Level, k: nat): nat {
    Right(pages, level.leftmost, k)
  }

  function LeftOf(pages: Pages, level: Level, k: nat): nat {
    if k == 0 then P_NONE else At(pages, level, k - 1)
  }

  /** Some page before the k-th is live. */
  ghost predicate Started(pages: Pages, level: Level, k: nat) {
    exists i: nat :: i < k && At(pages, level, i) in pages && pages[At(pages, level, i)].status == Live
  }

  /** A look to the right goes past such a page. */
  ghost predicate Skipped(pages: Pages, b: nat) {
    b in pages && pages[b].Ignorable() && !pages[b].Rightmost()
  }

  /** A look to the right of the k-th page stops at the j-th. */
  ghost predicate LooksTo(pages: Pages, level: Level, k: nat, j: nat) {
    k < j && !Skipped(pages, At(pages, level, j)) && forall i: nat :: k < i < j ==> Skipped(pages, At(pages, level, i))
  }

  /** How far a look to the right has to go to come to some block twice. */
  function Reach(pages: Pages, k: nat): nat {
    k + |pages| + 1
  }

  /** A look to the right of the k-th page never stops: half-dead and deleted pages until one of them comes again. */
  ghost predicate LooksForever(pages: Pages, level: Level, k: nat) {
    forall j: nat :: k < j <= Reach(pages, k) ==> Skipped(pages, At(pages, level, j))
  }

  /** The check looks to the right of a live page that has keys and a right sibling. */
  predicate Looks(p: Page) {
    p.status == Live && p.Real() != [] && !p.Rightmost()
  }

  /** The block itself is refused: missing, deleted, an end that is half-dead, or live and not as it should be here. */
  ghost predicate Refused(pages: Pages, level: Level, k: nat) {
    var b := At(pages, level, k);
    b !in pages
    || (var p, left := pages[b], LeftOf(pages, level, k);
        if p.Ignorable() then p.status == Deleted || p.Rightmost()
        else
          || (!Started(pages, level, k) && !FirstOk(pages, level, b, p))
          || (p.prev != left && left != P_NONE)
          || level.level != p.level || !PageOk(p))
  }

  /** The first page a look to the right comes to is missing or out of order. */
  ghost predicate RefusedByNext(pages: Pages, level: Level, k: nat) {
    exists j: nat :: j <= Reach(pages, k) && LooksTo(pages, level, k, j)
      && (At(pages, level, j) !in pages || (At(pages, level, k) in pages && !CrossOk(pages[At(pages, level, k)], pages[At(pages, level, j)])))
  }

  /** The block is linked to itself, or came twice in a row. */
  predicate SelfLinked(pages: Pages, level: Level, k: nat) {
    var b := At(pages, level, k);
    b in pages && (b == LeftOf(pages, level, k) || b == pages[b].prev)
  }

  datatype Outcome = Refuses | Ends | Passes | Hangs

  /** What the check does when it comes to the k-th page. */
  ghost function OutcomeAt(pages: Pages, level: Level, k: nat): Outcome {
    var b := At(pages, level, k);
    if b !in pages || Refused(pages, level, k) then Refuses
    else if Looks(pages[b]) && LooksForever(pages, level, k) then Hangs
    else if Looks(pages[b]) && RefusedByNext(pages, level, k) then Refuses
    else if SelfLinked(pages, level, k) then Refuses
    else if pages[b].next == P_NONE then Ends
    else Passes
  }

  // ---------------------------------------------------------------- a chain that comes to a block twice

  /** From two visits of a block on, the chain goes the same way. */
  lemma {:induction false} SameFrom(pages: Pages, level: Level, i: nat, j: nat, n: nat)
    requires At(pages, level, i) == At(pages, level, j)
    ensures At(pages, level, i + n) == At(pages, level, j + n)
  {
    if n > 0 { SameFrom(pages, level, i, j, n - 1); }
  }

  /** Past the second visit nothing new comes. */
  lemma {:induction false} NothingNew(pages: Pages, level: Level, i: nat, j: nat, n: nat) returns (m: nat)
    requires i < j && At(pages, level, i) == At(pages, level, j) && i <= n
    ensures i <= m < j && At(pages, level, m) == At(pages, level, n)
    decreases n
  {
    if n < j {
      m := n;
    } else {
      SameFrom(pages, level, i, j, n - j);
      m := NothingNew(pages, level, i, j, n - (j - i));
    }
  }

  ghost function Stretch(pages: Pages, level: Level, k: nat, n: nat): (d: seq<nat>)
    ensures |d| == n && forall i :: 0 <= i < n ==> d[i] == At(pages, level, k + i)
  {
    if n == 0 then [] else Stretch(pages, level, k, n - 1) + [At(pages, level, k + n - 1)]
  }

  /** One more step than there are blocks comes to some block twice, unless one is missing. */
  lemma {:induction false} SomeBlockTwice(pages: Pages, level: Level, k: nat) returns (i: nat, j: nat)
    requires forall n: nat :: k <= n <= k + |pages| ==> At(pages, level, n) in pages
    ensures k <= i < j <= k + |pages| && At(pages, level, i) == At(pages, level, j)
  {
    var d := Stretch(pages, level, k, |pages| + 1);
    if forall a, b :: 0 <= a < b < |d| ==> d[a] != d[b] { DistinctFits(pages, d); }
    var a, b :| 0 <= a < b < |d| && d[a] == d[b];
    i, j := k + a, k + b;
  }

  /** Skipping until a block comes again is skipping for ever. */
  lemma {:induction false} SkipsForever(pages: Pages, level: Level, k: nat, n: nat)
    requires LooksForever(pages, level, k) && k < n
    ensures Skipped(pages, At(pages, level, n))
  {
    var i, j := SomeBlockTwice(pages, level, k + 1);
    if i <= n {
      var m := NothingNew(pages, level, i, j, n);
      assert Skipped(pages, At(pages, level, m));
    }
  }

  // ---------------------------------------------------------------- the run meets the pages in order

  ghost function Before(pages: Pages, level: Level, k: nat): (d: seq<nat>)
    ensures |d| == k && forall i :: 0 <= i < k ==> d[i] == At(pages, level, i)
  {
    seq(k, i requires 0 <= i < k => At(pages, level, i))
  }

  /** The check as it comes to the k-th page. */
  ghost function Arrive(pages: Pages, level: Level, k: nat): Walk {
    Visit(LeftOf(pages, level, k), At(pages, level, k), Started(pages, level, k), Before(pages, level, k))
  }

  /** r is the check after its decision about the k-th page. */
  ghost predicate Settles(pages: Pages, level: Level, k: nat, r: Walk) {
    match OutcomeAt(pages, level, k)
    case Refuses => r.Failed?
    case Ends => r.Finished?
    case Passes => r == Arrive(pages, level, k + 1)
    case Hangs => false
  }

  lemma {:induction false} ArriveNext(pages: Pages, level: Level, k: nat, started: bool)
    requires At(pages, level, k) in pages
    requires started <==> Started(pages, level, k) || pages[At(pages, level, k)].status == Live
    ensures Visit(At(pages, level, k), pages[At(pages, level, k)].next, started, Before(pages, level, k) + [At(pages, level, k)])
         == Arrive(pages, level, k + 1)
  {
    assert Before(pages, level, k) + [At(pages, level, k)] == Before(pages, level, k + 1);
    if Started(pages, level, k + 1) {
      var i: nat :| i < k + 1 && At(pages, level, i) in pages && pages[At(pages, level, i)].status == Live;
      assert i < k ==> Started(pages, level, k);
    }
    if Started(pages, level, k) {
      var i: nat :| i < k && At(pages, level, i) in pages && pages[At(pages, level, i)].status == Live;
      assert i < k + 1;
    }
  }

  /** Leaving the k-th page. */
  lemma {:induction false} LeavePage(pages: Pages, level: Level, k: nat, started: bool)
    requires At(pages, level, k) in pages
    requires started <==> Started(pages, level, k) || pages[At(pages, level, k)].status == Live
    ensures var b := At(pages, level, k);
            var r := Leave(pages[b], LeftOf(pages, level, k), b, started, Before(pages, level, k));
            if SelfLinked(pages, level, k) then r.Failed?
            else if pages[b].next == P_NONE then r.Finished?
            else r == Arrive(pages, level, k + 1)
  {
    ArriveNext(pages, level, k, started);
  }

  /** Coming to a page that needs no look to the right. */
  lemma {:induction false} PlainVisit(pages: Pages, level: Level, k: nat)
    requires At(pages, level, k) !in pages || Refused(pages, level, k) || !Looks(pages[At(pages, level, k)])
    ensures Settles(pages, level, k, Step(pages, level, Arrive(pages, level, k)))
  {
    var b := At(pages, level, k);
    if b in pages && !Refused(pages, level, k) {
      LeavePage(pages, level, k, Started(pages, level, k) || pages[b].status == Live);
    }
  }

  /** The check looking to the right of the k-th page, at the j-th. */
  ghost function LookingAt(pages: Pages, level: Level, k: nat, j: nat): Walk {
    Peek(LeftOf(pages, level, k), At(pages, level, k), At(pages, level, j), Before(pages, level, k))
  }

  lemma {:induction false} LookStep(pages: Pages, level: Level, k: nat, j: nat)
    requires At(pages, level, k) in pages && Skipped(pages, At(pages, level, j))
    ensures Step(pages, level, LookingAt(pages, level, k, j)) == LookingAt(pages, level, k, j + 1)
  {
  }

  lemma {:induction false} LookStops(pages: Pages, level: Level, k: nat, j: nat)
    requires At(pages, level, k) in pages && pages[At(pages, level, k)].status == Live && !Skipped(pages, At(pages, level, j))
    ensures var r, b, a := Step(pages, level, LookingAt(pages, level, k, j)), At(pages, level, k), At(pages, level, j);
            if a !in pages || !CrossOk(pages[b], pages[a]) || SelfLinked(pages, level, k) then r.Failed?
            else if pages[b].next == P_NONE then r.Finished?
            else r == Arrive(pages, level, k + 1)
  {
    LeavePage(pages, level, k, true);
  }

  // ---------------------------------------------------------------- iterations

  /** run is step iterated. */
  ghost predicate Iterated<S(!new)>(run: nat -> S, step: S -> S) {
    forall a: nat, b: nat :: b == a + 1 ==> run(b) == step(run(a))
  }

  /** f goes on by step from i to j. */
  ghost predicate Along<S>(step: S -> S, f: nat -> S, i: nat, j: nat) {
    forall h: nat, g: nat :: i <= h && g == h + 1 <= j ==> step(f(h)) == f(g)
  }

  lemma {:induction false} RunsAlong<S(!new)>(run: nat -> S, step: S -> S, f: nat -> S, i: nat, j: nat, n: nat, m: nat)
    requires Iterated(run, step) && i <= j && m == n + (j - i) && run(n) == f(i) && Along(step, f, i, j)
    ensures run(m) == f(j)
    decreases j
  {
    if i < j {
      var h, l := j - 1, m - 1;
      RunsAlong(run, step, f, i, h, n, l);
      assert run(m) == step(run(l)) && step(f(h)) == f(j);
    }
  }

  lemma {:induction false} RunsPast<S(!new)>(run: nat -> S, step: S -> S, f: nat -> S, i: nat, j: nat, n: nat, m: nat, q: S -> bool)
    requires Iterated(run, step) && i <= j && m == n + (j - i) + 1 && run(n) == f(i) && Along(step, f, i, j)
    requires q(step(f(j)))
    ensures q(run(m))
  {
    var l := m - 1;
    RunsAlong(run, step, f, i, j, n, l);
    assert run(m) == step(run(l));
  }

  /** Once out of q, always out of it. */
  ghost predicate Leaves<S(!new)>(step: S -> S, q: S -> bool) {
    forall s: S :: !q(s) ==> !q(step(s))
  }

  lemma {:induction false} NeverBack<S(!new)>(run: nat -> S, step: S -> S, q: S -> bool, n: nat, m: nat)
    requires Iterated(run, step) && Leaves(step, q) && n <= m && q(run(m))
    ensures q(run(n))
    decreases m - n
  {
    if n < m {
      var l := m - 1;
      assert run(m) == step(run(l));
      NeverBack(run, step, q, n, l);
    }
  }

  lemma {:induction false} RunsForever<S(!new)>(run: nat -> S, step: S -> S, f: nat -> S, i: nat, n: nat, m: nat, q: S -> bool)
    requires Iterated(run, step) && Leaves(step, q) && run(n) == f(i)
    requires (forall j: nat :: Along(step, f, i, j)) && forall h: nat :: q(f(h))
    ensures q(run(m))
  {
    if m >= n {
      RunsAlong(run, step, f, i, i + (m - n), n, m);
      assert q(f(i + (m - n)));
    } else {
      assert q(f(i));
      NeverBack(run, step, q, m, n);
    }
  }

  // ---------------------------------------------------------------- steps of a run

  ghost function Stepper(pages: Pages, level: Level): Walk -> Walk {
    (w: Walk) => Step(pages, level, w)
  }

  ghost function Runner(pages: Pages, level: Level): nat -> Walk {
    (n: nat) => Run(pages, level, n)
  }

  ghost function Looker(pages: Pages, level: Level, k: nat): nat -> Walk {
    (j: nat) => LookingAt(pages, level, k, j)
  }

  const RUNNING: Walk -> bool := (w: Walk) => w.Running()

  lemma RunnerIterates(pages: Pages, level: Level)
    ensures Iterated(Runner(pages, level), Stepper(pages, level)) && Leaves(Stepper(pages, level), RUNNING)
  {
    var run, step := Runner(pages, level), Stepper(pages, level);
    forall a: nat, b: nat | b == a + 1 ensures run(b) == step(run(a)) {
      assert Run(pages, level, b) == Step(pages, level, Run(pages, level, a));
    }
  }

  lemma LookerSteps(pages: Pages, level: Level, k: nat, h: nat, g: nat)
    requires At(pages, level, k) in pages && g == h + 1 && Skipped(pages, At(pages, level, h))
    ensures Stepper(pages, level)(Looker(pages, level, k)(h)) == Looker(pages, level, k)(g)
  {
    LookStep(pages, level, k, h);
  }

  lemma {:induction false} LooksAlong(pages: Pages, level: Level, k: nat, i: nat, j: nat)
    requires At(pages, level, k) in pages && forall h: nat :: i <= h < j ==> Skipped(pages, At(pages, level, h))
    ensures Along(Stepper(pages, level), Looker(pages, level, k), i, j)
  {
    var step, f := Stepper(pages, level), Looker(pages, level, k);
    forall h: nat, g: nat | i <= h && g == h + 1 <= j ensures step(f(h)) == f(g) { LookerSteps(pages, level, k, h, g); }
  }

  /** Some look to the right stops, if not all pages to the right are skipped. */
  lemma {:induction false} FirstStop(pages: Pages, level: Level, k: nat, j: nat) returns (i: nat)
    requires k < j && !Skipped(pages, At(pages, level, j))
    ensures LooksTo(pages, level, k, i) && i <= j
    decreases j
  {
    if h: nat :| k < h < j && !Skipped(pages, At(pages, level, h)) {
      i := FirstStop(pages, level, k, h);
    } else {
      i := j;
    }
  }

  lemma {:induction false} StopExists(pages: Pages, level: Level, k: nat) returns (i: nat)
    requires !LooksForever(pages, level, k)
    ensures LooksTo(pages, level, k, i)
  {
    var h: nat :| k < h && !Skipped(pages, At(pages, level, h));
    i := FirstStop(pages, level, k, h);
  }

  lemma {:induction false} OneStop(pages: Pages, level: Level, k: nat, i: nat, j: nat)
    requires LooksTo(pages, level, k, i) && LooksTo(pages, level, k, j)
    ensures i == j
  {
  }

  /** From the k-th page to the decision about it, or to none. */
  ghost predicate Decides(pages: Pages, level: Level, k: nat, run: nat -> Walk, n: nat) {
    if OutcomeAt(pages, level, k) == Hangs then forall m: nat :: RUNNING(run(m))
    else exists m: nat :: m > n && SettledBy(pages, level, k)(run(m))
  }

  ghost function SettledBy(pages: Pages, level: Level, k: nat): Walk -> bool {
    (r: Walk) => Settles(pages, level, k, r)
  }

  /** A look begins at the next page. */
  lemma {:induction false} LookBegins(pages: Pages, level: Level, k: nat)
    requires At(pages, level, k) in pages && !Refused(pages, level, k) && Looks(pages[At(pages, level, k)])
    ensures Stepper(pages, level)(Arrive(pages, level, k)) == Looker(pages, level, k)(k + 1)
  {
  }

  lemma NotForever(pages: Pages, level: Level, k: nat, j: nat)
    requires LooksTo(pages, level, k, j)
    ensures !LooksForever(pages, level, k) && j <= Reach(pages, k)
  {
    if LooksForever(pages, level, k) { SkipsForever(pages, level, k, j); }
  }

  lemma {:induction false} LookSettles(pages: Pages, level: Level, k: nat, j: nat)
    requires At(pages, level, k) in pages && !Refused(pages, level, k) && Looks(pages[At(pages, level, k)])
    requires LooksTo(pages, level, k, j)
    ensures SettledBy(pages, level, k)(Stepper(pages, level)(Looker(pages, level, k)(j))) && OutcomeAt(pages, level, k) != Hangs
  {
    LookStops(pages, level, k, j);
    NextRefusesIff(pages, level, k, j);
    NotForever(pages, level, k, j);
  }

  lemma {:induction false} LookRuns(pages: Pages, level: Level, k: nat, run: nat -> Walk, n: nat, j: nat, q: Walk -> bool) returns (m: nat)
    requires At(pages, level, k) in pages && LooksTo(pages, level, k, j)
    requires Iterated(run, Stepper(pages, level)) && run(n) == Looker(pages, level, k)(k + 1)
    requires q(Stepper(pages, level)(Looker(pages, level, k)(j)))
    ensures m > n && q(run(m))
  {
    LooksAlong(pages, level, k, k + 1, j);
    m := n + (j - (k + 1)) + 1;
    RunsPast(run, Stepper(pages, level), Looker(pages, level, k), k + 1, j, n, m, q);
  }

  lemma {:induction false} LookDecides(pages: Pages, level: Level, k: nat, run: nat -> Walk, n: nat)
    requires At(pages, level, k) in pages && !Refused(pages, level, k) && Looks(pages[At(pages, level, k)])
    requires Iterated(run, Stepper(pages, level)) && run(n) == Looker(pages, level, k)(k + 1) && !LooksForever(pages, level, k)
    ensures OutcomeAt(pages, level, k) != Hangs && exists m: nat :: m > n && SettledBy(pages, level, k)(run(m))
  {
    var j := StopExists(pages, level, k);
    LookSettles(pages, level, k, j);
    var m := LookRuns(pages, level, k, run, n, j, SettledBy(pages, level, k));
    assert m > n && SettledBy(pages, level, k)(run(m));
  }

  lemma {:induction false} LookHangs(pages: Pages, level: Level, k: nat, run: nat -> Walk, n: nat, m: nat)
    requires At(pages, level, k) in pages && LooksForever(pages, level, k)
    requires Iterated(run, Stepper(pages, level)) && Leaves(Stepper(pages, level), RUNNING) && run(n) == Looker(pages, level, k)(k + 1)
    ensures RUNNING(run(m))
  {
    var step, f, i := Stepper(pages, level), Looker(pages, level, k), k + 1;
    forall h: nat | i <= h ensures Skipped(pages, At(pages, level, h)) { SkipsForever(pages, level, k, h); }
    forall j: nat ensures Along(step, f, i, j) { LooksAlong(pages, level, k, i, j); }
    RunsForever(run, step, f, i, n, m, RUNNING);
  }

  lemma HangsIff(pages: Pages, level: Level, k: nat)
    ensures OutcomeAt(pages, level, k) == Hangs
       <==> At(pages, level, k) in pages && !Refused(pages, level, k) && Looks(pages[At(pages, level, k)]) && LooksForever(pages, level, k)
  {
  }

  lemma {:induction false} PageDecides(pages: Pages, level: Level, k: nat, run: nat -> Walk, n: nat)
    requires Iterated(run, Stepper(pages, level)) && Leaves(Stepper(pages, level), RUNNING) && run(n) == Arrive(pages, level, k)
    ensures Decides(pages, level, k, run, n)
  {
    var b, l := At(pages, level, k), n + 1;
    assert run(l) == Stepper(pages, level)(run(n));
    HangsIff(pages, level, k);
    if b in pages && !Refused(pages, level, k) && Looks(pages[b]) {
      LookBegins(pages, level, k);
      if LooksForever(pages, level, k) {
        forall m: nat ensures RUNNING(run(m)) { LookHangs(pages, level, k, run, l, m); }
      } else {
        LookDecides(pages, level, k, run, l);
      }
    } else {
      PlainVisit(pages, level, k);
      assert l > n && SettledBy(pages, level, k)(run(l));
    }
  }

  lemma NextRefusesIff(pages: Pages, level: Level, k: nat, j: nat)
    requires LooksTo(pages, level, k, j) && At(pages, level, k) in pages
    ensures RefusedByNext(pages, level, k)
       <==> At(pages, level, j) !in pages || !CrossOk(pages[At(pages, level, k)], pages[At(pages, level, j)])
  {
    NotForever(pages, level, k, j);
    forall i: nat | LooksTo(pages, level, k, i) ensures i == j { OneStop(pages, level, k, i, j); }
  }

  ghost predicate PassesBefore(pages: Pages, level: Level, k: nat) {
    forall i: nat :: i < k ==> OutcomeAt(pages, level, i) == Passes
  }

  lemma {:induction false} ArrivesNext(pages: Pages, level: Level, k: nat, run: nat -> Walk, m: nat) returns (n: nat)
    requires Iterated(run, Stepper(pages, level)) && Leaves(Stepper(pages, level), RUNNING)
    requires run(m) == Arrive(pages, level, k) && OutcomeAt(pages, level, k) == Passes
    ensures n > m && run(n) == Arrive(pages, level, k + 1)
  {
    PageDecides(pages, level, k, run, m);
    n :| n > m && SettledBy(pages, level, k)(run(n));
  }

  /** The run comes to every page all of whose predecessors let it pass. */
  lemma {:induction false} ArrivesAt(pages: Pages, level: Level, k: nat, run: nat -> Walk) returns (n: nat)
    requires Iterated(run, Stepper(pages, level)) && Leaves(Stepper(pages, level), RUNNING) && run(0) == Start(level)
    requires PassesBefore(pages, level, k)
    ensures n >= k && run(n) == Arrive(pages, level, k)
  {
    if k == 0 {
      n := 0;
      assert !Started(pages, level, 0) && Before(pages, level, 0) == [];
    } else {
      var m := ArrivesAt(pages, level, k - 1, run);
      n := ArrivesNext(pages, level, k - 1, run, m);
    }
  }

  /** The check ends where the chain of right links has its end, or a page it refuses, behind pages that let it pass. */
  ghost predicate EndsAt(pages: Pages, level: Level, k: nat) {
    PassesBefore(pages, level, k) && (OutcomeAt(pages, level, k) == Ends || OutcomeAt(pages, level, k) == Refuses)
  }

  ghost predicate IsRun(pages: Pages, level: Level, run: nat -> Walk) {
    Iterated(run, Stepper(pages, level)) && Leaves(Stepper(pages, level), RUNNING) && run(0) == Start(level)
  }

  lemma {:induction false} EndsThere(pages: Pages, level: Level, k: nat, run: nat -> Walk) returns (m: nat)
    requires IsRun(pages, level, run) && EndsAt(pages, level, k)
    ensures !RUNNING(run(m))
  {
    var n := ArrivesAt(pages, level, k, run);
    PageDecides(pages, level, k, run, n);
    m :| m > n && SettledBy(pages, level, k)(run(m));
  }

  lemma {:induction false} AllPassRuns(pages: Pages, level: Level, run: nat -> Walk, n: nat)
    requires IsRun(pages, level, run) && forall k: nat :: OutcomeAt(pages, level, k) == Passes
    ensures RUNNING(run(n))
  {
    var m := ArrivesAt(pages, level, n, run);
    NeverBack(run, Stepper(pages, level), RUNNING, n, m);
  }

  lemma {:induction false} HangsRuns(pages: Pages, level: Level, k: nat, run: nat -> Walk, n: nat)
    requires IsRun(pages, level, run) && PassesBefore(pages, level, k) && OutcomeAt(pages, level, k) == Hangs
    ensures RUNNING(run(n))
  {
    var m := ArrivesAt(pages, level, k, run);
    PageDecides(pages, level, k, run, m);
  }

  lemma {:induction false} FirstNotPassing(pages: Pages, level: Level, j: nat) returns (k: nat)
    requires OutcomeAt(pages, level, j) != Passes
    ensures PassesBefore(pages, level, k) && OutcomeAt(pages, level, k) != Passes && k <= j
    decreases j
  {
    if i: nat :| i < j && OutcomeAt(pages, level, i) != Passes {
      k := FirstNotPassing(pages, level, i);
    } else {
      k := j;
    }
  }

  lemma {:induction false} NoEndRuns(pages: Pages, level: Level, run: nat -> Walk, n: nat)
    requires IsRun(pages, level, run) && forall k: nat :: !EndsAt(pages, level, k)
    ensures RUNNING(run(n))
  {
    if j: nat :| OutcomeAt(pages, level, j) != Passes {
      var k := FirstNotPassing(pages, level, j);
      assert !EndsAt(pages, level, k);
      HangsRuns(pages, level, k, run, n);
    } else {
      AllPassRuns(pages, level, run, n);
    }
  }

  lemma RunnerIsRun(pages: Pages, level: Level)
    ensures IsRun(pages, level, Runner(pages, level))
  {
    RunnerIterates(pages, level);
  }

  /** After n page reads the check is over. */
  ghost predicate Over(pages: Pages, level: Level, n: nat) {
    !Run(pages, level, n).Running()
  }

  /** The check does the same at a page every time round a circle, once all of it is behind. */
  lemma {:induction false} SameOutcome(pages: Pages, level: Level, i: nat, j: nat, k: nat, l: nat)
    requires i < j && At(pages, level, i) == At(pages, level, j) && j <= k && l == k + (j - i)
    ensures OutcomeAt(pages, level, k) == OutcomeAt(pages, level, l)
  {
    var p := j - i;
    forall n: nat, m: nat | i <= n && m == n + p ensures At(pages, level, n) == At(pages, level, m) { SameFrom(pages, level, i, j, n - i); }
    var h := k - 1;
    assert At(pages, level, h) == At(pages, level, h + p) && At(pages, level, k) == At(pages, level, l);
    SameStarted(pages, level, i, j, k, l);
    SameLooks(pages, level, k, l, p);
    OutcomeFrom(pages, level, k, l);
  }

  lemma OutcomeFrom(pages: Pages, level: Level, k: nat, l: nat)
    requires At(pages, level, k) == At(pages, level, l) && LeftOf(pages, level, k) == LeftOf(pages, level, l)
    requires Started(pages, level, k) <==> Started(pages, level, l)
    requires LooksForever(pages, level, k) <==> LooksForever(pages, level, l)
    requires RefusedByNext(pages, level, k) <==> RefusedByNext(pages, level, l)
    ensures OutcomeAt(pages, level, k) == OutcomeAt(pages, level, l)
  {
  }

  lemma {:induction false} SameStarted(pages: Pages, level: Level, i: nat, j: nat, k: nat, l: nat)
    requires i < j && At(pages, level, i) == At(pages, level, j) && j <= k <= l
    ensures Started(pages, level, k) <==> Started(pages, level, l)
  {
    if Started(pages, level, k) {
      var n: nat :| n < k && At(pages, level, n) in pages && pages[At(pages, level, n)].status == Live;
      assert n < l;
    }
    if Started(pages, level, l) {
      var n: nat :| n < l && At(pages, level, n) in pages && pages[At(pages, level, n)].status == Live;
      if i <= n {
        var m := NothingNew(pages, level, i, j, n);
        assert m < k;
      }
    }
  }

  /** Where the chain goes the same way from two places, a look to the right sees the same. */
  lemma {:induction false} SameLooks(pages: Pages, level: Level, k: nat, l: nat, p: nat)
    requires l == k + p && forall n: nat, m: nat :: k <= n && m == n + p ==> At(pages, level, n) == At(pages, level, m)
    ensures LooksForever(pages, level, k) <==> LooksForever(pages, level, l)
    ensures RefusedByNext(pages, level, k) <==> RefusedByNext(pages, level, l)
  {
    SameRefusals(pages, level, k, l, p);
    if LooksForever(pages, level, k) {
      forall h: nat | l < h <= Reach(pages, l) ensures Skipped(pages, At(pages, level, h)) {
        var j := h - p;
        assert Skipped(pages, At(pages, level, j));
      }
    }
    if LooksForever(pages, level, l) {
      forall j: nat | k < j <= Reach(pages, k) ensures Skipped(pages, At(pages, level, j)) {
        var h := j + p;
        assert Skipped(pages, At(pages, level, h));
      }
    }
  }

  lemma {:induction false} SameRefusals(pages: Pages, level: Level, k: nat, l: nat, p: nat)
    requires l == k + p && forall n: nat, m: nat :: k <= n && m == n + p ==> At(pages, level, n) == At(pages, level, m)
    ensures RefusedByNext(pages, level, k) <==> RefusedByNext(pages, level, l)
  {
    if RefusedByNext(pages, level, l) {
      var h: nat :| h <= Reach(pages, l) && LooksTo(pages, level, l, h)
        && (At(pages, level, h) !in pages || (At(pages, level, l) in pages && !CrossOk(pages[At(pages, level, l)], pages[At(pages, level, h)])));
      var j := h - p;
      SameLook(pages, level, k, l, p, j, h);
    }
    if RefusedByNext(pages, level, k) {
      var j: nat :| j <= Reach(pages, k) && LooksTo(pages, level, k, j)
        && (At(pages, level, j) !in pages || (At(pages, level, k) in pages && !CrossOk(pages[At(pages, level, k)], pages[At(pages, level, j)])));
      var h := j + p;
      SameLook(pages, level, k, l, p, j, h);
    }
  }

  lemma {:induction false} SameLook(pages: Pages, level: Level, k: nat, l: nat, p: nat, j: nat, h: nat)
    requires l == k + p && k < j && h == j + p
    requires forall n: nat, m: nat :: k <= n && m == n + p ==> At(pages, level, n) == At(pages, level, m)
    ensures LooksTo(pages, level, k, j) <==> LooksTo(pages, level, l, h)
  {
    if LooksTo(pages, level, k, j) {
      forall m: nat | l < m < h ensures Skipped(pages, At(pages, level, m)) {
        var n := m - p;
        assert Skipped(pages, At(pages, level, n));
      }
    }
    if LooksTo(pages, level, l, h) {
      forall n: nat | k < n < j ensures Skipped(pages, At(pages, level, n)) {
        var m := n + p;
        assert Skipped(pages, At(pages, level, m));
      }
    }
  }

  lemma MissingRefuses(pages: Pages, level: Level, k: nat)
    requires At(pages, level, k) !in pages
    ensures OutcomeAt(pages, level, k) == Refuses
  {
  }

  /** If the check ends at all, it ends before it has gone round twice. */
  lemma {:induction false} EndsSoon(pages: Pages, level: Level, k: nat)
    requires EndsAt(pages, level, k)
    ensures k <= 2 * |pages|
  {
    if n: nat :| n <= |pages| && At(pages, level, n) !in pages {
      MissingRefuses(pages, level, n);
    } else {
      var i, j := SomeBlockTwice(pages, level, 0);
      if k > 2 * |pages| {
        var h := k - (j - i);
        assert OutcomeAt(pages, level, h) == Passes;
        SameOutcome(pages, level, i, j, h, k);
      }
    }
  }

  /**
   For every page graph: the check of a level ends exactly if, behind pages that let it pass, the
   chain of right links comes to its end or to a page the check refuses. Twice as many pages of the
   chain as there are blocks have to be looked at to know.
   */
  lemma {:induction false} EndsIff(pages: Pages, level: Level)
    ensures (exists n: nat :: Over(pages, level, n)) <==> exists k: nat :: k <= 2 * |pages| && EndsAt(pages, level, k)
  {
    if k: nat :| EndsAt(pages, level, k) { EndsSoon(pages, level, k); }
    EndsSomewhere(pages, level);
  }

  lemma {:induction false} EndsSomewhere(pages: Pages, level: Level)
    ensures (exists n: nat :: Over(pages, level, n)) <==> exists k: nat :: EndsAt(pages, level, k)
  {
    var run := Runner(pages, level);
    RunnerIsRun(pages, level);
    if exists k: nat :: EndsAt(pages, level, k) {
      var k: nat :| EndsAt(pages, level, k);
      var m := EndsThere(pages, level, k, run);
      assert Over(pages, level, m);
    } else {
      forall n: nat ensures !Over(pages, level, n) { NoEndRuns(pages, level, run, n); }
    }
  }

  // ---------------------------------------------------------------- an endless check runs in a circle

  /** A check that never ends: the chain has no end and no missing block. */
  lemma {:induction false} EndlessChain(pages: Pages, level: Level, k: nat)
    requires forall j: nat :: !EndsAt(pages, level, j)
    ensures At(pages, level, k) in pages
  {
    if OutcomeAt(pages, level, k) == Passes {
    } else {
      var j := FirstNotPassing(pages, level, k);
      assert !EndsAt(pages, level, j);
      assert OutcomeAt(pages, level, j) == Hangs;
      if j < k { SkipsForever(pages, level, j, k); }
    }
  }

  /** So it comes to some block twice. */
  lemma {:induction false} EndlessCircle(pages: Pages, level: Level) returns (i: nat, j: nat)
    requires forall n: nat :: !Over(pages, level, n)
    ensures i < j <= |pages| && At(pages, level, i) == At(pages, level, j)
  {
    EndsSomewhere(pages, level);
    forall k: nat | k <= |pages| ensures At(pages, level, k) in pages { EndlessChain(pages, level, k); }
    i, j := SomeBlockTwice(pages, level, 0);
  }

  // ---------------------------------------------------------------- a level that never ends

  const NOKEY := Tuple([], None)

  /** A leaf page before two half-dead pages that point at each other. */
  function Circle(): Pages {
    map[1 := Page(0, 2, Live, 0, false, NOKEY, []),
        2 := Page(1, 3, HalfDead, 0, false, NOKEY, []),
        3 := Page(2, 2, HalfDead, 0, false, NOKEY, [])]
  }

  lemma {:induction false} CircleBlocks(k: nat)
    ensures At(Circle(), Level(0, 1, false), k) == if k == 0 then 1 else if k % 2 == 1 then 2 else 3
  {
    if k > 0 { CircleBlocks(k - 1); }
  }

  lemma {:induction false} CirclePasses(k: nat)
    ensures OutcomeAt(Circle(), Level(0, 1, false), k) == Passes
  {
    CircleBlocks(k);
    if k > 0 { CircleBlocks(k - 1); }
    assert WholeChain(Circle(), 1, [1]);
    assert Leftmost(Circle(), 1);
  }

  /** With half-dead pages in a circle the check runs on for ever: no error, no end. */
  lemma {:induction false} HalfDeadCircleNeverEnds(n: nat)
    ensures !Over(Circle(), Level(0, 1, false), n)
  {
    var pages, level := Circle(), Level(0, 1, false);
    forall k: nat ensures !EndsAt(pages, level, k) { CirclePasses(k); }
    EndsIff(pages, level);
  }
}
