/**
 How a worker waits for the data: it reads the leader's flag, joins the wait list of a condition
 variable, reads again and sleeps on its latch, while the leader sets the flag and then broadcasts,
 taking waiters off the list one by one up to a sentinel of its own. Reads and writes of the flag are
 full barriers, the list is under a spin lock, so one step is one access. Latches may also be set
 by anybody else, at any time.
 */
module MapWaiting {
  import opened MapProtocol
  import opened MapProofs

  // ---------------------------------------------------------------- the wait list

  /** Where x stands in the list; its length if it is not there. */
  function Position(q: seq<nat>, x: nat): (i: nat)
    ensures i <= |q| && (i < |q| <==> x in q) && (i < |q| ==> q[i] == x)
  {
    if q == [] || q[0] == x then 0 else 1 + Position(q[1..], x)
  }

  function Without(q: seq<nat>, x: nat): seq<nat> {
    if q == [] then [] else if q[0] == x then q[1..] else [q[0]] + Without(q[1..], x)
  }

  predicate Once(q: seq<nat>) {
    forall i, j :: 0 <= i < j < |q| ==> q[i] != q[j]
  }

  /** x is taken off the list before y. */
  predicate Ahead(q: seq<nat>, x: nat, y: nat) {
    Position(q, x) < Position(q, y) < |q|
  }

  lemma {:induction false} PositionAppend(q: seq<nat>, z: nat, x: nat)
    ensures Position(q + [z], x) == if x in q || x == z then Position(q, x) else |q| + 1
  {
    if q != [] && q[0] != x {
      assert (q + [z])[1..] == q[1..] + [z];
      PositionAppend(q[1..], z, x);
    }
  }

  lemma {:induction false} PositionWithout(q: seq<nat>, w: nat, x: nat)
    requires Once(q) && x != w
    ensures Position(Without(q, w), x) == Position(q, x) - (if Position(q, w) < Position(q, x) then 1 else 0)
    ensures |Without(q, w)| == |q| - (if w in q then 1 else 0) && (x in Without(q, w) <==> x in q)
  {
    if q != [] {
      var first, rest := q[0], q[1..];
      OnceTail(q);
      if first == w {
        assert Position(q, w) == 0 && Position(q, x) == 1 + Position(rest, x);
      } else {
        PositionWithout(rest, w, x);
        PositionCons(first, Without(rest, w), x);
        assert q == [first] + rest;
        PositionCons(first, rest, x);
        PositionCons(first, rest, w);
      }
    }
  }

  lemma PositionCons(first: nat, rest: seq<nat>, x: nat)
    ensures Position([first] + rest, x) == if first == x then 0 else 1 + Position(rest, x)
  {
    assert ([first] + rest)[1..] == rest;
  }

  lemma OnceTail(q: seq<nat>)
    requires q != [] && Once(q)
    ensures Once(q[1..]) && q[0] !in q[1..]
  {
  }

  lemma {:induction false} WithoutOnce(q: seq<nat>, w: nat)
    requires Once(q)
    ensures Once(Without(q, w)) && w !in Without(q, w) && forall x :: x in Without(q, w) ==> x in q
  {
    if q != [] {
      OnceTail(q);
      WithoutOnce(q[1..], w);
    }
  }

  lemma OnceAppend(q: seq<nat>, z: nat)
    requires Once(q) && z !in q
    ensures Once(q + [z])
  {
  }

  // ---------------------------------------------------------------- states and moves

  /** Where a worker is with its wait. */
  datatype Mode =
    | Fresh     // has not looked at the flag
    | Looked    // read 0
    | Prepared  // joined the list, about to read again
    | Asleep    // waits for its latch
    | Awake     // latch reset, about to look at the list
    | Leaving   // read 1, about to leave the list
    | Ready     // knows the data is there

  /** The leader's broadcast. */
  datatype Call =
    | Before
    | Popped(proc: nat, more: bool)  // took proc off the list, about to set its latch
    | Looping                        // the sentinel is on the list
    | Over

  /** The operator and the wait; the leader's own number, its sentinel's, is |modes|. */
  datatype Fine<!Row, !V> = Fine(s: State<Row, V>, modes: seq<Mode>, queue: seq<nat>, latch: set<nat>, call: Call)

  datatype Move =
    | Does(step: Step)  // anything but the wait
    | Looks(w: nat)     // the first read of the flag
    | Resumes(w: nat)   // a later job, no read
    | Joins(w: nat)
    | Rereads(w: nat)
    | Cancels(w: nat)
    | Resets(w: nat)
    | Checks(w: nat)
    | Disturbs(w: nat)  // somebody else sets the latch
    | Begins            // the broadcast looks at the list
    | Signals
    | Pops

  /** Worker w holds a job it has not started and is at that point of its wait. */
  predicate At<Row, V>(p: Plan<Row, V>, f: Fine<Row, V>, w: nat, mode: Mode) {
    && w < |f.modes| && f.modes[w] == mode
    && w < |f.s.workers| && f.s.workers[w].Claimed? && f.s.workers[w].job < |p.jobs|
  }

  predicate CanMove<Row, V>(p: Plan<Row, V>, f: Fine<Row, V>, m: Move) {
    && !f.s.failed
    && match m
       case Does(step) => !step.Starts? && Enabled(p, f.s, step) && Reads(p, f.s, step)
       case Looks(w) => At(p, f, w, Fresh)
       case Resumes(w) => At(p, f, w, Ready)
       case Joins(w) => At(p, f, w, Looked)
       case Rereads(w) => At(p, f, w, Prepared)
       case Cancels(w) => At(p, f, w, Leaving)
       case Resets(w) => At(p, f, w, Asleep) && w in f.latch
       case Checks(w) => At(p, f, w, Awake)
       case Disturbs(w) => w < |f.modes|
       case Begins => f.s.ready && f.call.Before?
       case Signals => f.call.Popped?
       case Pops => f.call.Looping?
  }

  /** The worker goes on to its job. */
  function Started<Row, V>(p: Plan<Row, V>, s: State<Row, V>, w: nat): State<Row, V>
    requires w < |s.workers| && s.workers[w].Claimed? && s.workers[w].job < |p.jobs|
  {
    s.(workers := s.workers[w := Running(s.workers[w].job, p.jobs[s.workers[w].job].start, p.zero)])
  }

  function After<Row, V>(p: Plan<Row, V>, f: Fine<Row, V>, m: Move): Fine<Row, V>
    requires CanMove(p, f, m)
  {
    var leader := |f.modes|;
    match m
    case Does(step) => f.(s := Next(p, f.s, step))
    case Looks(w) =>
      if f.s.ready then f.(s := Started(p, f.s, w), modes := f.modes[w := Ready]) else f.(modes := f.modes[w := Looked])
    case Resumes(w) => f.(s := Started(p, f.s, w))
    case Joins(w) => f.(modes := f.modes[w := Prepared], queue := f.queue + [w])
    case Rereads(w) => f.(modes := f.modes[w := if f.s.ready then Leaving else Asleep])
    case Cancels(w) => f.(s := Started(p, f.s, w), modes := f.modes[w := Ready], queue := Without(f.queue, w))
    case Resets(w) => f.(modes := f.modes[w := Awake], latch := f.latch - {w})
    case Checks(w) =>
      if w in f.queue then f.(modes := f.modes[w := Asleep])
      else f.(modes := f.modes[w := Prepared], queue := f.queue + [w])
    case Disturbs(w) => f.(latch := f.latch + {w})
    case Begins =>
      if f.queue == [] then f.(call := Over)
      else if |f.queue| == 1 then f.(queue := [], call := Popped(f.queue[0], false))
      else f.(queue := f.queue[1..] + [leader], call := Popped(f.queue[0], true))
    case Signals =>
      f.(latch := if f.call.proc == leader then f.latch else f.latch + {f.call.proc}, call := if f.call.more then Looping else Over)
    case Pops =>
      if f.queue == [] then f.(call := Over)
      else f.(queue := f.queue[1..], call := Popped(f.queue[0], leader in f.queue[1..]))
  }

  function Start<Row, V>(p: Plan<Row, V>, launched: nat): Fine<Row, V> {
    Fine(Initial(p, launched), seq(launched, _ => Fresh), [], {}, Before)
  }

  // ---------------------------------------------------------------- the invariant

  predicate Sleeping(mode: Mode) {
    mode.Asleep? || mode.Awake?
  }

  /** May be on the list. */
  predicate Listed(mode: Mode) {
    mode.Prepared? || mode.Asleep? || mode.Awake? || mode.Leaving?
  }

  ghost predicate ModeOk<Row, V>(f: Fine<Row, V>, w: nat)
    requires w < |f.modes| == |f.s.workers|
  {
    && (Listed(f.modes[w]) || f.modes[w].Looked? ==> f.s.workers[w].Claimed?)
    && (f.modes[w].Ready? || f.modes[w].Leaving? ==> f.s.ready)
  }

  ghost predicate ModesInv<Row, V>(f: Fine<Row, V>) {
    |f.modes| == |f.s.workers| && forall w :: 0 <= w < |f.modes| ==> ModeOk(f, w)
  }

  ghost predicate OnList(modes: seq<Mode>, x: nat) {
    x == |modes| || (x < |modes| && Listed(modes[x]))
  }

  /** On the list: workers that may be there, and the sentinel while it is needed. */
  ghost predicate QueueInv<Row, V>(f: Fine<Row, V>) {
    && Once(f.queue) && (forall x :: x in f.queue ==> OnList(f.modes, x))
    && (|f.modes| in f.queue <==> f.call.Looping? || (f.call.Popped? && f.call.more))
    && (!f.call.Before? ==> f.s.ready)
    && (f.call.Before? ==> forall w: nat :: w < |f.modes| && Listed(f.modes[w]) ==> w in f.queue)
  }

  /** A sleeper still on the list will be taken off it; one that was taken off has been signalled or is about to be. */
  ghost predicate SleepOk<Row, V>(f: Fine<Row, V>, w: nat)
    requires w < |f.modes|
  {
    Sleeping(f.modes[w]) ==>
      if w in f.queue then f.call.Before? || Ahead(f.queue, w, |f.modes|)
      else f.modes[w].Asleep? ==> w in f.latch || (f.call.Popped? && f.call.proc == w)
  }

  ghost predicate SleepInv<Row, V>(f: Fine<Row, V>) {
    forall w :: 0 <= w < |f.modes| ==> SleepOk(f, w)
  }

  ghost predicate WaitInv<Row, V>(p: Plan<Row, V>, f: Fine<Row, V>) {
    Inv(p, f.s) && ModesInv(f) && QueueInv(f) && SleepInv(f)
  }

  lemma {:induction false} StartInv<Row, V>(p: Plan<Row, V>, launched: nat)
    requires p.Valid()
    ensures WaitInv(p, Start(p, launched))
  {
    InitialInv(p, launched);
    var f := Start(p, launched);
    assert forall w :: 0 <= w < |f.modes| ==> f.modes[w] == Fresh;
  }

  // ---------------------------------------------------------------- no move breaks it

  /** Only worker w has changed its mode, and the list has at most grown at the end. */
  lemma {:induction false} SleepersKept<Row, V>(f: Fine<Row, V>, g: Fine<Row, V>, w: nat)
    requires ModesInv(f) && QueueInv(f) && SleepInv(f)
    requires |g.modes| == |f.modes| && w < |f.modes| && g.modes == f.modes[w := g.modes[w]]
    requires g.queue == f.queue || (w !in f.queue && g.queue == f.queue + [w])
    requires g.call == f.call && (forall x :: x in f.latch && x != w ==> x in g.latch) && SleepOk(g, w)
    ensures SleepInv(g)
  {
    forall v | 0 <= v < |g.modes| ensures SleepOk(g, v) {
      if v != w {
        assert SleepOk(f, v);
        if g.queue != f.queue {
          PositionAppend(f.queue, w, v);
          PositionAppend(f.queue, w, |f.modes|);
        }
      }
    }
  }

  lemma {:induction false} ModesKept<Row, V>(f: Fine<Row, V>, g: Fine<Row, V>, w: nat)
    requires ModesInv(f) && |g.modes| == |g.s.workers| == |f.modes| && w < |f.modes|
    requires g.modes == f.modes[w := g.modes[w]] && g.s.workers == f.s.workers[w := g.s.workers[w]] && g.s.ready == f.s.ready
    requires ModeOk(g, w)
    ensures ModesInv(g)
  {
    forall v | 0 <= v < |g.modes| ensures ModeOk(g, v) { if v != w { assert ModeOk(f, v); } }
  }

  /** A step outside the wait. */
  lemma {:induction false} DoesKeeps<Row, V>(p: Plan<Row, V>, f: Fine<Row, V>, step: Step)
    requires p.Valid() && WaitInv(p, f) && CanMove(p, f, Does(step))
    ensures WaitInv(p, After(p, f, Does(step)))
  {
    var g := After(p, f, Does(step));
    StepKeeps(p, f.s, step);
    StepsAlone(p, f.s, step);
    forall w | 0 <= w < |g.modes| ensures ModeOk(g, w) && SleepOk(g, w) { assert ModeOk(f, w) && SleepOk(f, w); }
  }

  /** Such a step leaves alone who holds a job not yet started, and never takes the flag back. */
  lemma {:induction false} StepsAlone<Row, V>(p: Plan<Row, V>, s: State<Row, V>, step: Step)
    requires Enabled(p, s, step) && Reads(p, s, step) && !step.Starts?
    ensures var t := Next(p, s, step);
            && |t.workers| == |s.workers| && (s.ready ==> t.ready)
            && forall w :: 0 <= w < |s.workers| && s.workers[w].Claimed? ==> t.workers[w] == s.workers[w]
  {
  }

  /** Going on to a job is the step of the coarser protocol. */
  lemma {:induction false} StartsIs<Row, V>(p: Plan<Row, V>, s: State<Row, V>, w: nat)
    requires p.Valid() && Inv(p, s) && !s.failed && s.ready
    requires w < |s.workers| && s.workers[w].Claimed? && s.workers[w].job < |p.jobs|
    ensures Enabled(p, s, Starts(w)) && Reads(p, s, Starts(w)) && Started(p, s, w) == Next(p, s, Starts(w))
    ensures Inv(p, Started(p, s, w))
  {
    StepKeeps(p, s, Starts(w));
  }

  lemma {:induction false} LooksKeeps<Row, V>(p: Plan<Row, V>, f: Fine<Row, V>, w: nat)
    requires p.Valid() && WaitInv(p, f) && CanMove(p, f, Looks(w))
    ensures WaitInv(p, After(p, f, Looks(w)))
  {
    var g := After(p, f, Looks(w));
    assert ModeOk(f, w);
    if f.s.ready { StartsIs(p, f.s, w); }
    ModesKept(f, g, w);
    SleepersKept(f, g, w);
    QueueKept(f, g, w);
  }

  /** The list as it was: fine if no listed worker has become unlisted. */
  lemma {:induction false} QueueKept<Row, V>(f: Fine<Row, V>, g: Fine<Row, V>, w: nat)
    requires QueueInv(f) && |g.modes| == |f.modes| && w < |f.modes| && g.modes == f.modes[w := g.modes[w]]
    requires Listed(f.modes[w]) <==> Listed(g.modes[w])
    requires g.queue == f.queue && g.call == f.call && g.s.ready == f.s.ready
    ensures QueueInv(g)
  {
    forall x | x in g.queue ensures OnList(g.modes, x) { assert OnList(f.modes, x); }
  }

  lemma {:induction false} ResumesKeeps<Row, V>(p: Plan<Row, V>, f: Fine<Row, V>, w: nat)
    requires p.Valid() && WaitInv(p, f) && CanMove(p, f, Resumes(w))
    ensures WaitInv(p, After(p, f, Resumes(w)))
  {
    var g := After(p, f, Resumes(w));
    assert ModeOk(f, w);
    StartsIs(p, f.s, w);
    ModesKept(f, g, w);
    SleepersKept(f, g, w);
    QueueKept(f, g, w);
  }

  /** A worker puts itself on the list. */
  lemma {:induction false} Enlisted<Row, V>(f: Fine<Row, V>, g: Fine<Row, V>, w: nat)
    requires QueueInv(f) && w < |f.modes| && w !in f.queue
    requires g.modes == f.modes[w := Prepared] && g.queue == f.queue + [w] && g.call == f.call && g.s == f.s
    ensures QueueInv(g)
  {
    OnceAppend(f.queue, w);
    forall x | x in g.queue ensures OnList(g.modes, x) { if x != w { assert OnList(f.modes, x); } }
  }

  lemma {:induction false} JoinsKeeps<Row, V>(p: Plan<Row, V>, f: Fine<Row, V>, w: nat)
    requires p.Valid() && WaitInv(p, f) && CanMove(p, f, Joins(w))
    ensures WaitInv(p, After(p, f, Joins(w)))
  {
    var g := After(p, f, Joins(w));
    assert w in f.queue ==> OnList(f.modes, w);
    ModesKept(f, g, w);
    SleepersKept(f, g, w);
    Enlisted(f, g, w);
  }

  lemma {:induction false} RereadsKeeps<Row, V>(p: Plan<Row, V>, f: Fine<Row, V>, w: nat)
    requires p.Valid() && WaitInv(p, f) && CanMove(p, f, Rereads(w))
    ensures WaitInv(p, After(p, f, Rereads(w)))
  {
    var g := After(p, f, Rereads(w));
    ModesKept(f, g, w);
    SleepersKept(f, g, w);
    QueueKept(f, g, w);
  }

  lemma {:induction false} ResetsKeeps<Row, V>(p: Plan<Row, V>, f: Fine<Row, V>, w: nat)
    requires p.Valid() && WaitInv(p, f) && CanMove(p, f, Resets(w))
    ensures WaitInv(p, After(p, f, Resets(w)))
  {
    var g := After(p, f, Resets(w));
    assert SleepOk(f, w);
    ModesKept(f, g, w);
    SleepersKept(f, g, w);
    QueueKept(f, g, w);
  }

  lemma {:induction false} ChecksKeeps<Row, V>(p: Plan<Row, V>, f: Fine<Row, V>, w: nat)
    requires p.Valid() && WaitInv(p, f) && CanMove(p, f, Checks(w))
    ensures WaitInv(p, After(p, f, Checks(w)))
  {
    var g := After(p, f, Checks(w));
    assert SleepOk(f, w);
    ModesKept(f, g, w);
    SleepersKept(f, g, w);
    if w in f.queue { QueueKept(f, g, w); } else { Enlisted(f, g, w); }
  }

  lemma {:induction false} DisturbsKeeps<Row, V>(p: Plan<Row, V>, f: Fine<Row, V>, w: nat)
    requires p.Valid() && WaitInv(p, f) && CanMove(p, f, Disturbs(w))
    ensures WaitInv(p, After(p, f, Disturbs(w)))
  {
    var g := After(p, f, Disturbs(w));
    forall v | 0 <= v < |g.modes| ensures ModeOk(g, v) && SleepOk(g, v) { assert ModeOk(f, v) && SleepOk(f, v); }
  }

  /** Who leaves the list leaves the order of the others as it was. */
  lemma {:induction false} CancelsKeeps<Row, V>(p: Plan<Row, V>, f: Fine<Row, V>, w: nat)
    requires p.Valid() && WaitInv(p, f) && CanMove(p, f, Cancels(w))
    ensures WaitInv(p, After(p, f, Cancels(w)))
  {
    var g := After(p, f, Cancels(w));
    assert ModeOk(f, w);
    StartsIs(p, f.s, w);
    ModesKept(f, g, w);
    Delisted(f, g, w);
    DelistedSleepers(f, g, w);
  }

  lemma {:induction false} DelistedSleepers<Row, V>(f: Fine<Row, V>, g: Fine<Row, V>, w: nat)
    requires Once(f.queue) && SleepInv(f) && w < |f.modes| && g.modes == f.modes[w := Ready] && g.queue == Without(f.queue, w)
    requires g.call == f.call && g.latch == f.latch
    ensures SleepInv(g)
  {
    forall v | 0 <= v < |g.modes| ensures SleepOk(g, v) {
      assert SleepOk(f, v);
      if v != w { AheadWithout(f.queue, w, v, |f.modes|); }
    }
  }

  lemma {:induction false} AheadWithout(q: seq<nat>, w: nat, x: nat, y: nat)
    requires Once(q) && x != w && y != w
    ensures x in Without(q, w) <==> x in q
    ensures Ahead(q, x, y) ==> Ahead(Without(q, w), x, y)
  {
    PositionWithout(q, w, x);
    PositionWithout(q, w, y);
    MovedUp(Position(q, w), Position(q, x), Position(q, y), |q|);
  }

  lemma MovedUp(w: nat, x: nat, y: nat, n: nat)
    ensures var x', y', n' := (if w < x then x - 1 else x), (if w < y then y - 1 else y), (if w < n then n - 1 else n);
            w != x && w != y && x < y < n ==> x' < y' < n'
  {
  }

  lemma {:induction false} Delisted<Row, V>(f: Fine<Row, V>, g: Fine<Row, V>, w: nat)
    requires QueueInv(f) && w < |f.modes| && g.modes == f.modes[w := Ready] && g.queue == Without(f.queue, w)
    requires g.call == f.call && g.s.ready == f.s.ready
    ensures QueueInv(g)
  {
    WithoutOnce(f.queue, w);
    forall x: nat | x != w ensures x in g.queue <==> x in f.queue { PositionWithout(f.queue, w, x); }
    forall x | x in g.queue ensures OnList(g.modes, x) { assert OnList(f.modes, x); }
  }

  // ---------------------------------------------------------------- the broadcast

  /** The head comes off the list; the others move up. */
  lemma PositionTail(q: seq<nat>, x: nat)
    requires q != [] && Once(q)
    ensures x in q[1..] <==> x in q && x != q[0]
    ensures x != q[0] ==> Position(q[1..], x) == Position(q, x) - 1
  {
    OnceTail(q);
  }

  /** Every sleeper is ahead of a sentinel at the end. */
  lemma {:induction false} AheadOfLast(q: seq<nat>, x: nat, last: nat)
    requires x in q && last !in q
    ensures Ahead(q + [last], x, last)
  {
    PositionAppend(q, last, x);
    PositionAppend(q, last, last);
  }

  lemma {:induction false} BeginsKeeps<Row, V>(p: Plan<Row, V>, f: Fine<Row, V>)
    requires p.Valid() && WaitInv(p, f) && CanMove(p, f, Begins)
    ensures WaitInv(p, After(p, f, Begins))
  {
    var g, leader := After(p, f, Begins), |f.modes|;
    forall v | 0 <= v < |g.modes| ensures ModeOk(g, v) { assert ModeOk(f, v); }
    if f.queue != [] {
      OnceTail(f.queue);
      if |f.queue| > 1 { OnceAppend(f.queue[1..], leader); }
    }
    forall x | x in g.queue ensures OnList(g.modes, x) { assert x == leader || OnList(f.modes, x); }
    forall v | 0 <= v < |g.modes| ensures SleepOk(g, v) { BeginsSleeper(p, f, v); }
  }

  lemma {:induction false} BeginsSleeper<Row, V>(p: Plan<Row, V>, f: Fine<Row, V>, v: nat)
    requires WaitInv(p, f) && CanMove(p, f, Begins) && v < |f.modes|
    ensures SleepOk(After(p, f, Begins), v)
  {
    var leader := |f.modes|;
    if Sleeping(f.modes[v]) {
      assert v in f.queue;
      PositionTail(f.queue, v);
      if |f.queue| > 1 && v != f.queue[0] { AheadOfLast(f.queue[1..], v, leader); }
    }
  }

  lemma {:induction false} SignalsKeeps<Row, V>(p: Plan<Row, V>, f: Fine<Row, V>)
    requires p.Valid() && WaitInv(p, f) && CanMove(p, f, Signals)
    ensures WaitInv(p, After(p, f, Signals))
  {
    var g := After(p, f, Signals);
    forall v | 0 <= v < |g.modes| ensures ModeOk(g, v) && SleepOk(g, v) { assert ModeOk(f, v) && SleepOk(f, v); }
    forall x | x in g.queue ensures OnList(g.modes, x) { assert OnList(f.modes, x); }
  }

  lemma {:induction false} PopsKeeps<Row, V>(p: Plan<Row, V>, f: Fine<Row, V>)
    requires p.Valid() && WaitInv(p, f) && CanMove(p, f, Pops)
    ensures WaitInv(p, After(p, f, Pops))
  {
    var g, leader := After(p, f, Pops), |f.modes|;
    assert f.queue != [];
    OnceTail(f.queue);
    forall x | x in g.queue ensures OnList(g.modes, x) { assert OnList(f.modes, x); }
    forall v | 0 <= v < |g.modes| ensures ModeOk(g, v) && SleepOk(g, v) {
      assert ModeOk(f, v) && SleepOk(f, v);
      PositionTail(f.queue, v);
      PositionTail(f.queue, leader);
    }
  }

  lemma {:induction false} MoveKeeps<Row, V>(p: Plan<Row, V>, f: Fine<Row, V>, m: Move)
    requires p.Valid() && WaitInv(p, f) && CanMove(p, f, m)
    ensures WaitInv(p, After(p, f, m))
  {
    match m
    case Does(step) => DoesKeeps(p, f, step);
    case Looks(w) => LooksKeeps(p, f, w);
    case Resumes(w) => ResumesKeeps(p, f, w);
    case Joins(w) => JoinsKeeps(p, f, w);
    case Rereads(w) => RereadsKeeps(p, f, w);
    case Cancels(w) => CancelsKeeps(p, f, w);
    case Resets(w) => ResetsKeeps(p, f, w);
    case Checks(w) => ChecksKeeps(p, f, w);
    case Disturbs(w) => DisturbsKeeps(p, f, w);
    case Begins => BeginsKeeps(p, f);
    case Signals => SignalsKeeps(p, f);
    case Pops => PopsKeeps(p, f);
  }

  // ---------------------------------------------------------------- whole runs

  ghost predicate Moves<Row, V>(p: Plan<Row, V>, f: Fine<Row, V>, ms: seq<Move>, end: Fine<Row, V>)
    decreases |ms|
  {
    if ms == [] then f == end else CanMove(p, f, ms[0]) && Moves(p, After(p, f, ms[0]), ms[1..], end)
  }

  /** Every run keeps the invariant and is, the wait left out, a run of the coarser protocol. */
  lemma {:induction false} MovesRefine<Row, V>(p: Plan<Row, V>, f: Fine<Row, V>, ms: seq<Move>, end: Fine<Row, V>) returns (steps: seq<Step>)
    requires p.Valid() && WaitInv(p, f) && Moves(p, f, ms, end)
    ensures WaitInv(p, end) && Runs(p, f.s, steps, end.s)
    decreases |ms|
  {
    if ms == [] {
      steps := [];
    } else {
      var g := After(p, f, ms[0]);
      MoveKeeps(p, f, ms[0]);
      var rest := MovesRefine(p, g, ms[1..], end);
      var step := MoveIsStep(p, f, ms[0]);
      steps := step + rest;
      RunsOn(p, f.s, step, g.s, rest, end.s);
    }
  }

  lemma {:induction false} RunsOn<Row, V>(p: Plan<Row, V>, s: State<Row, V>, a: seq<Step>, t: State<Row, V>, b: seq<Step>, end: State<Row, V>)
    requires Runs(p, s, a, t) && Runs(p, t, b, end)
    ensures Runs(p, s, a + b, end)
    decreases |a|
  {
    if a == [] {
      assert a + b == b;
    } else {
      RunsOn(p, Next(p, s, a[0]), a[1..], t, b, end);
      assert (a + b)[0] == a[0] && (a + b)[1..] == a[1..] + b;
    }
  }

  /** A move is one step of the coarser protocol, or none. */
  lemma {:induction false} MoveIsStep<Row, V>(p: Plan<Row, V>, f: Fine<Row, V>, m: Move) returns (steps: seq<Step>)
    requires p.Valid() && WaitInv(p, f) && CanMove(p, f, m)
    ensures Runs(p, f.s, steps, After(p, f, m).s)
  {
    if m.Does? {
      steps := [m.step];
    } else if (m.Looks? && f.s.ready) || m.Resumes? || m.Cancels? {
      assert ModeOk(f, m.w);
      StartsIs(p, f.s, m.w);
      steps := [Starts(m.w)];
    } else {
      steps := [];
    }
    if steps != [] { OneStep(p, f.s, steps[0]); }
  }

  lemma OneStep<Row, V>(p: Plan<Row, V>, s: State<Row, V>, step: Step)
    requires Enabled(p, s, step) && Reads(p, s, step)
    ensures Runs(p, s, [step], Next(p, s, step))
  {
    assert [step][1..] == [];
  }

  // ---------------------------------------------------------------- nobody is left asleep

  /** What worker w does next, if it can. */
  function WorkerMove<Row, V>(p: Plan<Row, V>, f: Fine<Row, V>, w: nat): Move
    requires w < |f.modes| && w < |f.s.workers|
  {
    match f.s.workers[w]
    case Idle => Does(Claims(w))
    case Running(j, at, _) =>
      Does(if j < |p.jobs| && at < p.jobs[j].end && at < |p.rows| then Evaluates(w) else Finishes(w))
    case Claimed(_) =>
      (match f.modes[w]
       case Fresh => Looks(w)
       case Looked => Joins(w)
       case Prepared => Rereads(w)
       case Asleep => Resets(w)
       case Awake => Checks(w)
       case Leaving => Cancels(w)
       case Ready => Resumes(w))
    case Done => Disturbs(w)
  }

  /** What the leader does next. */
  function LeaderMove<Row, V>(p: Plan<Row, V>, f: Fine<Row, V>): Move {
    match f.call
    case Before =>
      if f.s.ready then Begins
      else if f.s.copied >= |p.rows| then Does(LeaderPublishes)
      else if p.rows[f.s.copied].Some? then Does(LeaderCopies)
      else Does(LeaderRejects)
    case Popped(_, _) => Signals
    case Looping => Pops
    case Over => Begins
  }

  /** Until its broadcast is over the leader can always move. */
  lemma {:induction false} LeaderMoves<Row, V>(p: Plan<Row, V>, f: Fine<Row, V>)
    requires p.Valid() && WaitInv(p, f) && !f.s.failed && !f.call.Over?
    ensures CanMove(p, f, LeaderMove(p, f))
  {
  }

  /** A worker that cannot move is asleep, and the leader's broadcast is still to reach it. */
  lemma {:induction false} WorkerMoves<Row, V>(p: Plan<Row, V>, f: Fine<Row, V>, w: nat)
    requires p.Valid() && WaitInv(p, f) && !f.s.failed && w < |f.modes| && !f.s.workers[w].Done?
    ensures CanMove(p, f, WorkerMove(p, f, w)) || (f.modes[w].Asleep? && !f.call.Over?)
  {
    assert WorkerInv(p, f.s, f.s.workers[w]) && ModeOk(f, w) && SleepOk(f, w);
    if f.s.workers[w].Running? { ReadsAreSafe(p, f.s, WorkerMove(p, f, w).step); }
  }

  /** No lost wake-up: once the broadcast is over, every worker that has not left can move. */
  lemma {:induction false} NoLostWakeup<Row, V>(p: Plan<Row, V>, launched: nat, ms: seq<Move>, f: Fine<Row, V>, w: nat)
    requires p.Valid() && Moves(p, Start(p, launched), ms, f)
    requires !f.s.failed && f.call.Over? && w < |f.modes| && w < |f.s.workers| && !f.s.workers[w].Done?
    ensures CanMove(p, f, WorkerMove(p, f, w)) && !WorkerMove(p, f, w).Disturbs?
  {
    StartInv(p, launched);
    var steps := MovesRefine(p, Start(p, launched), ms, f);
    WorkerMoves(p, f, w);
  }

  /** A run that cannot go on has failed, or every worker has left. */
  lemma {:induction false} StopsWhenDone<Row, V>(p: Plan<Row, V>, f: Fine<Row, V>)
    requires p.Valid() && WaitInv(p, f) && forall m :: CanMove(p, f, m) ==> m.Disturbs?
    ensures f.s.failed || (AllDone(f.s) && f.call.Over?)
  {
    if !f.s.failed {
      if !f.call.Over? { LeaderMoves(p, f); }
      forall w | 0 <= w < |f.s.workers| ensures f.s.workers[w].Done? {
        if !f.s.workers[w].Done? { WorkerMoves(p, f, w); }
      }
    }
  }

  /** So what a complete run leaves behind, it leaves behind with the wait in it. */
  lemma {:induction false} WaitingRunComplete<Row, V>(p: Plan<Row, V>, launched: nat, ms: seq<Move>, end: Fine<Row, V>)
    requires p.Valid() && launched > 0 && Moves(p, Start(p, launched), ms, end) && AllDone(end.s)
    ensures !p.agg ==> forall l: nat, i: nat | l < p.lambdas && i < |p.rows| :: ResultThere(p, end.s, l, i)
    ensures p.agg ==> forall j: nat | j < |p.jobs| :: SumThere(p, end.s, j)
  {
    StartInv(p, launched);
    var steps := MovesRefine(p, Start(p, launched), ms, end);
    CompleteRun(p, launched, steps, end.s);
  }

  // ---------------------------------------------------------------- every run ends

  function ModeCost(mode: Mode, ready: bool): nat {
    match mode
    case Fresh => 13
    case Looked => 12
    case Prepared => if ready then 2 else 4
    case Asleep => 3
    case Awake => 4
    case Leaving => 1
    case Ready => 0
  }

  function ModesCost(modes: seq<Mode>, ready: bool): nat {
    if modes == [] then 0 else ModeCost(modes[0], ready) + ModesCost(modes[1..], ready)
  }

  /** Moves of the broadcast still to come; each waiter it signals may wake once more. */
  function CallCost(call: Call, queue: seq<nat>, leader: nat): nat {
    match call
    case Before => 8 + 6 * |queue|
    case Popped(_, more) => 4 + (if more then 5 + 6 * Position(queue, leader) else 0)
    case Looping => 5 + 6 * Position(queue, leader)
    case Over => 0
  }

  /** Moves still to be made, at most, if nobody else sets a latch. */
  function Left<Row, V>(p: Plan<Row, V>, f: Fine<Row, V>): int {
    Remaining(p, f.s) + ModesCost(f.modes, f.s.ready) + 3 * |f.latch| + CallCost(f.call, f.queue, |f.modes|)
  }

  lemma {:induction false} ModesCostUpdate(modes: seq<Mode>, ready: bool, w: nat, mode: Mode)
    requires w < |modes|
    ensures ModesCost(modes[w := mode], ready) == ModesCost(modes, ready) - ModeCost(modes[w], ready) + ModeCost(mode, ready)
  {
    if w > 0 {
      assert modes[w := mode][1..] == modes[1..][w - 1 := mode];
      ModesCostUpdate(modes[1..], ready, w - 1, mode);
    } else {
      assert modes[w := mode][1..] == modes[1..];
    }
  }

  lemma {:induction false} ModesCostReady(modes: seq<Mode>, was: bool, ready: bool)
    requires was ==> ready
    ensures ModesCost(modes, ready) <= ModesCost(modes, was)
  {
    if modes != [] { ModesCostReady(modes[1..], was, ready); }
  }

  lemma {:induction false} DoesCosts<Row, V>(p: Plan<Row, V>, f: Fine<Row, V>, step: Step)
    requires p.Valid() && WaitInv(p, f) && CanMove(p, f, Does(step))
    ensures Left(p, After(p, f, Does(step))) < Left(p, f)
  {
    StepCosts(p, f.s, step);
    StepsAlone(p, f.s, step);
    ModesCostReady(f.modes, f.s.ready, Next(p, f.s, step).ready);
  }

  lemma {:induction false} StartedCosts<Row, V>(p: Plan<Row, V>, s: State<Row, V>, w: nat)
    requires p.Valid() && Inv(p, s) && !s.failed && s.ready
    requires w < |s.workers| && s.workers[w].Claimed? && s.workers[w].job < |p.jobs|
    ensures Remaining(p, Started(p, s, w)) < Remaining(p, s)
  {
    StartsIs(p, s, w);
    StepCosts(p, s, Starts(w));
  }

  /** Reading the flag. */
  lemma {:induction false} ReadCosts<Row, V>(p: Plan<Row, V>, f: Fine<Row, V>, m: Move)
    requires p.Valid() && WaitInv(p, f) && CanMove(p, f, m) && (m.Looks? || m.Rereads?)
    ensures Left(p, After(p, f, m)) < Left(p, f)
  {
    ModesCostUpdate(f.modes, f.s.ready, m.w, After(p, f, m).modes[m.w]);
    if m.Looks? && f.s.ready { StartedCosts(p, f.s, m.w); }
  }

  lemma {:induction false} ResetsCosts<Row, V>(p: Plan<Row, V>, f: Fine<Row, V>, w: nat)
    requires CanMove(p, f, Resets(w))
    ensures Left(p, After(p, f, Resets(w))) < Left(p, f)
  {
    ModesCostUpdate(f.modes, f.s.ready, w, Awake);
  }

  /** Going on to a job without reading. */
  lemma {:induction false} StartCosts<Row, V>(p: Plan<Row, V>, f: Fine<Row, V>, m: Move)
    requires p.Valid() && WaitInv(p, f) && CanMove(p, f, m) && (m.Resumes? || m.Cancels?)
    ensures Left(p, After(p, f, m)) < Left(p, f)
  {
    assert ModeOk(f, m.w);
    StartedCosts(p, f.s, m.w);
    if m.Cancels? {
      ModesCostUpdate(f.modes, f.s.ready, m.w, Ready);
      PositionWithout(f.queue, m.w, |f.modes|);
    }
  }

  /** Moves that may put a worker on the list: behind the sentinel, or paid for. */
  lemma {:induction false} EnlistCosts<Row, V>(p: Plan<Row, V>, f: Fine<Row, V>, m: Move)
    requires p.Valid() && WaitInv(p, f) && CanMove(p, f, m) && (m.Joins? || m.Checks?)
    ensures Left(p, After(p, f, m)) < Left(p, f)
  {
    ModesCostUpdate(f.modes, f.s.ready, m.w, After(p, f, m).modes[m.w]);
    EnlistCost(f.call, f.queue, m.w, |f.modes|);
  }

  lemma EnlistCost(call: Call, queue: seq<nat>, w: nat, leader: nat)
    requires leader != w && (call.Looping? || (call.Popped? && call.more) ==> leader in queue)
    ensures CallCost(call, queue + [w], leader) <= CallCost(call, queue, leader) + (if call.Before? then 6 else 0)
  {
    PositionAppend(queue, w, leader);
  }

  lemma {:induction false} CallCosts<Row, V>(p: Plan<Row, V>, f: Fine<Row, V>, m: Move)
    requires p.Valid() && WaitInv(p, f) && CanMove(p, f, m) && (m.Begins? || m.Pops? || m.Signals?)
    ensures Left(p, After(p, f, m)) < Left(p, f)
  {
    var leader := |f.modes|;
    if m.Begins? { BeginsCost(f.queue, leader); }
    if m.Pops? { PopsCost(f.queue, leader); }
  }

  lemma BeginsCost(queue: seq<nat>, leader: nat)
    requires leader !in queue
    ensures |queue| > 1 ==> CallCost(Popped(queue[0], true), queue[1..] + [leader], leader) < CallCost(Before, queue, leader)
  {
    if |queue| > 1 { PositionAppend(queue[1..], leader, leader); }
  }

  lemma PopsCost(queue: seq<nat>, leader: nat)
    requires Once(queue) && leader in queue
    ensures CallCost(Popped(queue[0], leader in queue[1..]), queue[1..], leader) < CallCost(Looping, queue, leader)
  {
    PositionTail(queue, leader);
  }

  function Disturbances(ms: seq<Move>): nat {
    if ms == [] then 0 else (if ms[0].Disturbs? then 1 else 0) + Disturbances(ms[1..])
  }

  lemma {:induction false} MoveCosts<Row, V>(p: Plan<Row, V>, f: Fine<Row, V>, m: Move)
    requires p.Valid() && WaitInv(p, f) && CanMove(p, f, m)
    ensures Left(p, After(p, f, m)) <= Left(p, f) + (if m.Disturbs? then 3 else -1)
  {
    match m
    case Does(step) => DoesCosts(p, f, step);
    case Joins(_) => EnlistCosts(p, f, m);
    case Checks(_) => EnlistCosts(p, f, m);
    case Begins => CallCosts(p, f, m);
    case Signals => CallCosts(p, f, m);
    case Pops => CallCosts(p, f, m);
    case Looks(_) => ReadCosts(p, f, m);
    case Rereads(_) => ReadCosts(p, f, m);
    case Resets(w) => ResetsCosts(p, f, w);
    case Resumes(_) => StartCosts(p, f, m);
    case Cancels(_) => StartCosts(p, f, m);
    case Disturbs(_) =>
  }

  /** No run makes more moves than there is work, four more for each time somebody else sets a latch. */
  lemma {:induction false} MovesEnd<Row, V>(p: Plan<Row, V>, f: Fine<Row, V>, ms: seq<Move>, end: Fine<Row, V>)
    requires p.Valid() && WaitInv(p, f) && Moves(p, f, ms, end)
    ensures |ms| <= Left(p, f) - Left(p, end) + 4 * Disturbances(ms) && 0 <= Left(p, end)
    decreases |ms|
  {
    if ms != [] {
      MoveKeeps(p, f, ms[0]);
      MoveCosts(p, f, ms[0]);
      MovesEnd(p, After(p, f, ms[0]), ms[1..], end);
    }
  }
}
