/**
 Update chains on one heap page: three passes over the line pointers, and what a page
 without a report is like. Offsets run from 1; `items[o - 1]` is line pointer o.
 */
module HeapChains {
  import opened Wrappers

  datatype XidStatus = Committed | InProgress | Aborted | Current

  /**
   A tuple as far as the chain checks see it. `faulty` is whether its own checks report
   anything, `status` what they learned of its xmin, `stillRunning` a later look at that
   transaction, `updater` the updating transaction or 0.
   */
  datatype Tup = Tup(
    heapOnly: bool, hotUpdated: bool, xmin: nat, updater: nat, ctidBlock: nat, ctidOffset: nat,
    faulty: bool, status: Option<XidStatus>, stillRunning: bool)

  /** `sane`: aligned, long enough for a header and within the page. */
  datatype Item = Unused | Dead | Redirect(to: nat) | Normal(sane: bool, tup: Tup)

  datatype Page = Page(block: nat, items: seq<Item>) {
    predicate Has(o: nat) {
      1 <= o <= |items|
    }

    function At(o: nat): Item
      requires Has(o)
    {
      items[o - 1]
    }
  }

  // ---------------------------------------------------------------- first pass: line pointers

  predicate LpValid(p: Page, o: nat)
    requires p.Has(o)
  {
    match p.At(o)
    case Redirect(to) => p.Has(to) && p.At(to).Normal?
    case Normal(sane, _) => sane
    case _ => false
  }

  /** The next line pointer of a chain, or 0. */
  function Successor(p: Page, o: nat): nat
    requires p.Has(o)
  {
    match p.At(o)
    case Redirect(to) => if LpValid(p, o) then to else 0
    case Normal(sane, t) => if sane && t.ctidBlock == p.block && t.ctidOffset != o && p.Has(t.ctidOffset) then t.ctidOffset else 0
    case _ => 0
  }

  /** Nothing to report about a line pointer and its tuple by themselves. */
  predicate LpClean(p: Page, o: nat)
    requires p.Has(o)
  {
    match p.At(o)
    case Redirect(_) => LpValid(p, o)
    case Normal(sane, t) => sane && !t.faulty
    case _ => true
  }

  ghost predicate LpCleanBelow(p: Page, n: nat) {
    forall k: nat :: 1 <= k < n && p.Has(k) ==> LpClean(p, k)
  }

  method CheckLinePointers(p: Page) returns (successor: array<nat>, lpValid: array<bool>, reports: nat)
    ensures successor.Length == lpValid.Length == |p.items| + 1 && fresh(successor) && fresh(lpValid)
    ensures forall o: nat :: p.Has(o) ==> successor[o] == Successor(p, o) && lpValid[o] == LpValid(p, o)
    ensures reports == 0 <==> forall o: nat :: p.Has(o) ==> LpClean(p, o)
  {
    successor, lpValid := new nat[|p.items| + 1](_ => 0), new bool[|p.items| + 1](_ => false);
    reports := 0;
    var o := 1;
    while o <= |p.items|
      invariant 1 <= o <= |p.items| + 1
      invariant forall k: nat :: 1 <= k < o ==> successor[k] == Successor(p, k) && lpValid[k] == LpValid(p, k)
      invariant reports == 0 <==> LpCleanBelow(p, o)
    {
      successor[o], lpValid[o] := 0, false;
      assert LpCleanBelow(p, o + 1) <==> LpCleanBelow(p, o) && LpClean(p, o);
      match p.At(o) {
        case Unused =>
        case Dead =>
        case Redirect(to) =>
          if to < 1 || to > |p.items| || !p.At(to).Normal? {
            reports := reports + 1;
          } else {
            lpValid[o], successor[o] := true, to;
          }
        case Normal(sane, t) =>
          if !sane {
            reports := reports + 1;
          } else {
            lpValid[o] := true;
            if t.faulty { reports := reports + 1; }
            if t.ctidBlock == p.block && t.ctidOffset != o && 1 <= t.ctidOffset <= |p.items| { successor[o] := t.ctidOffset; }
          }
      }
      o := o + 1;
    }
  }

  // ---------------------------------------------------------------- second pass: edges

  /** Two line pointers in one update chain: a redirect and its target, or a tuple and the version its updater made. */
  predicate Edge(p: Page, s: nat, t: nat) {
    && p.Has(s) && p.Has(t) && Successor(p, s) == t && LpValid(p, t)
    && match p.At(s)
       case Redirect(_) => true
       case Normal(_, a) => p.At(t).Normal? && a.updater != 0 && a.updater == p.At(t).tup.xmin
       case _ => false
  }

  /** The two ends of an edge fit: heap-only exactly after a redirect or a HOT update, and no effect outlives its cause. */
  predicate Fits(p: Page, s: nat, t: nat)
    requires Edge(p, s, t) && p.At(t).Normal?
  {
    var b := p.At(t).tup;
    match p.At(s)
    case Redirect(_) => b.heapOnly
    case Normal(_, a) =>
      && a.hotUpdated == b.heapOnly
      && !(a.status == Some(InProgress) && b.status == Some(Committed) && a.stillRunning)
      && !(a.status == Some(Aborted) && (b.status == Some(InProgress) || b.status == Some(Committed)))
    case _ => true
  }

  lemma EdgeTarget(p: Page, s: nat, t: nat)
    requires Edge(p, s, t)
    ensures p.At(t).Normal? && p.At(t).sane && t != 0
  {
  }

  /** Nothing to report about the edge that starts here, if any. */
  ghost predicate EdgeClean(p: Page, s: nat) {
    forall t: nat :: Edge(p, s, t) && p.At(t).Normal? ==> Fits(p, s, t) && forall r: nat :: r < s ==> !Edge(p, r, t)
  }

  /** First line pointer before n with an edge to t, or 0. */
  ghost predicate FirstBefore(p: Page, n: nat, t: nat, s: nat) {
    if s == 0 then forall r: nat :: r < n ==> !Edge(p, r, t)
    else s < n && Edge(p, s, t) && forall r: nat :: r < s ==> !Edge(p, r, t)
  }

  method CheckEdge(p: Page, o: nat, next: nat, taken: bool) returns (edge: bool, reports: nat)
    requires p.Has(o) && next == Successor(p, o) && p.Has(next) && LpValid(p, next)
    ensures edge <==> Edge(p, o, next)
    ensures edge ==> p.At(next).Normal? && (reports == 0 <==> Fits(p, o, next) && !taken)
    ensures !edge ==> reports == 0
  {
    reports := 0;
    if p.At(o).Redirect? {
      if !p.At(next).tup.heapOnly { reports := reports + 1; }
      if taken { reports := reports + 1; }
      return true, reports;
    }
    if p.At(next).Redirect? { return false, 0; }
    var a, b := p.At(o).tup, p.At(next).tup;
    if a.updater == 0 || a.updater != b.xmin { return false, 0; }
    if taken { return true, 1; }
    if !a.hotUpdated && b.heapOnly { reports := reports + 1; }
    if a.hotUpdated && !b.heapOnly { reports := reports + 1; }
    if a.status == Some(InProgress) && b.status == Some(Committed) && a.stillRunning { reports := reports + 1; }
    if a.status == Some(Aborted) && b.status.Some? {
      if b.status == Some(InProgress) { reports := reports + 1; } else if b.status == Some(Committed) { reports := reports + 1; }
    }
    return true, reports;
  }

  ghost predicate EdgeCleanBelow(p: Page, n: nat) {
    forall s: nat :: 1 <= s < n ==> EdgeClean(p, s)
  }

  ghost predicate Recorded(p: Page, n: nat, predecessor: seq<nat>) {
    |predecessor| == |p.items| + 1 && forall t: nat :: p.Has(t) ==> FirstBefore(p, n, t, predecessor[t])
  }

  /** One more line pointer, with an edge to `next` that is recorded if it is the first there. */
  lemma {:induction false} RecordEdge(p: Page, o: nat, predecessor: seq<nat>, next: nat)
    requires p.Has(o) && Recorded(p, o, predecessor) && Edge(p, o, next)
    ensures Recorded(p, o + 1, if predecessor[next] == 0 then predecessor[next := o] else predecessor)
  {
    var after := if predecessor[next] == 0 then predecessor[next := o] else predecessor;
    forall t: nat | p.Has(t) ensures FirstBefore(p, o + 1, t, after[t]) {
      FirstNext(p, o, t, predecessor[t]);
    }
  }

  /** Seen up to o: the first edge so far, or the one from o. */
  lemma {:induction false} FirstNext(p: Page, o: nat, t: nat, s: nat)
    requires FirstBefore(p, o, t, s)
    ensures s != 0 || !Edge(p, o, t) ==> FirstBefore(p, o + 1, t, s)
    ensures s == 0 && o > 0 && Edge(p, o, t) ==> FirstBefore(p, o + 1, t, o)
  {
  }

  lemma {:induction false} RecordNothing(p: Page, o: nat, predecessor: seq<nat>)
    requires p.Has(o) && Recorded(p, o, predecessor) && forall t: nat :: !Edge(p, o, t)
    ensures Recorded(p, o + 1, predecessor) && EdgeClean(p, o)
  {
    forall t: nat | p.Has(t) ensures FirstBefore(p, o + 1, t, predecessor[t]) {
      assert FirstBefore(p, o, t, predecessor[t]);
    }
  }

  lemma EdgeCleanNext(p: Page, o: nat)
    ensures EdgeCleanBelow(p, o + 1) <==> EdgeCleanBelow(p, o) && (o >= 1 ==> EdgeClean(p, o))
  {
  }

  lemma {:induction false} NoEdge(p: Page, o: nat)
    requires p.Has(o) && (Successor(p, o) == 0 || !p.Has(Successor(p, o)) || !Edge(p, o, Successor(p, o)))
    ensures forall t: nat :: !Edge(p, o, t)
  {
  }

  /** One line pointer: follow its edge, if it has one, and record it if it is the first to its target. */
  method FollowEdge(p: Page, o: nat, next: nat, valid: bool, predecessor: array<nat>) returns (reports: nat)
    requires p.Has(o) && next == Successor(p, o) && (next != 0 ==> p.Has(next) && valid == LpValid(p, next))
    requires Recorded(p, o, predecessor[..])
    modifies predecessor
    ensures Recorded(p, o + 1, predecessor[..]) && (reports == 0 <==> EdgeClean(p, o))
  {
    ghost var before := predecessor[..];
    reports := 0;
    if next == 0 || !valid {
      NoEdge(p, o);
      RecordNothing(p, o, before);
      return;
    }
    var edge;
    edge, reports := CheckEdge(p, o, next, predecessor[next] != 0);
    if edge {
      assert FirstBefore(p, o, next, before[next]);
      EdgeCleanIff(p, o, next, before[next]);
      RecordEdge(p, o, before, next);
      if predecessor[next] == 0 { predecessor[next] := o; }
    } else {
      NoEdge(p, o);
      RecordNothing(p, o, before);
    }
  }

  lemma SuccessorOnPage(p: Page, o: nat)
    requires p.Has(o)
    ensures Successor(p, o) == 0 || p.Has(Successor(p, o))
  {
  }

  method CheckEdges(p: Page, successor: array<nat>, lpValid: array<bool>) returns (predecessor: array<nat>, reports: nat)
    requires successor.Length == lpValid.Length == |p.items| + 1
    requires forall o: nat :: p.Has(o) ==> successor[o] == Successor(p, o) && lpValid[o] == LpValid(p, o)
    ensures fresh(predecessor) && Recorded(p, |p.items| + 1, predecessor[..])
    ensures reports == 0 <==> forall s: nat :: p.Has(s) ==> EdgeClean(p, s)
  {
    predecessor := new nat[|p.items| + 1](_ => 0);
    reports := 0;
    var o := 1;
    while o <= |p.items|
      invariant 1 <= o <= |p.items| + 1 && Recorded(p, o, predecessor[..])
      invariant reports == 0 <==> EdgeCleanBelow(p, o)
    {
      var next := successor[o];
      SuccessorOnPage(p, o);
      var more := FollowEdge(p, o, next, next != 0 && lpValid[next], predecessor);
      EdgeCleanNext(p, o);
      reports := reports + more;
      o := o + 1;
    }
  }

  lemma EdgeCleanIff(p: Page, o: nat, next: nat, first: nat)
    requires p.Has(o) && p.Has(next) && next == Successor(p, o) && FirstBefore(p, o, next, first)
    ensures Edge(p, o, next) && p.At(next).Normal? ==> (EdgeClean(p, o) <==> Fits(p, o, next) && first == 0)
    ensures !Edge(p, o, next) ==> EdgeClean(p, o)
  {
  }

  // ---------------------------------------------------------------- third pass: roots

  /** A heap-only tuple known to be wanted by someone must be entered. */
  predicate Wanted(p: Page, o: nat)
    requires p.Has(o)
  {
    var i := p.At(o);
    i.Normal? && i.sane && (i.tup.status == Some(Committed) || i.tup.status == Some(InProgress))
  }

  ghost predicate RootClean(p: Page, o: nat)
    requires p.Has(o)
  {
    Wanted(p, o) && p.At(o).tup.heapOnly ==> exists s: nat :: Edge(p, s, o)
  }

  ghost predicate RootCleanBelow(p: Page, n: nat) {
    forall k: nat :: 1 <= k < n && p.Has(k) ==> RootClean(p, k)
  }

  method CheckRoots(p: Page, predecessor: array<nat>) returns (reports: nat)
    requires Recorded(p, |p.items| + 1, predecessor[..])
    ensures reports == 0 <==> forall o: nat :: p.Has(o) ==> RootClean(p, o)
  {
    reports := 0;
    var o := 1;
    while o <= |p.items|
      invariant 1 <= o <= |p.items| + 1
      invariant reports == 0 <==> RootCleanBelow(p, o)
    {
      assert RootCleanBelow(p, o + 1) <==> RootCleanBelow(p, o) && RootClean(p, o);
      assert FirstBefore(p, |p.items| + 1, o, predecessor[o]);
      assert predecessor[o] == 0 <==> forall s: nat :: !Edge(p, s, o);
      if Wanted(p, o) && predecessor[o] == 0 && p.At(o).tup.heapOnly { reports := reports + 1; }
      o := o + 1;
    }
  }

  // ---------------------------------------------------------------- the page

  /** What a page without a report is like. */
  ghost predicate Clean(p: Page) {
    forall o: nat :: p.Has(o) ==> LpClean(p, o) && EdgeClean(p, o) && RootClean(p, o)
  }

  /** The three passes report nothing exactly on clean pages. */
  method CheckPage(p: Page) returns (reports: nat)
    ensures reports == 0 <==> Clean(p)
  {
    var successor, lpValid, first := CheckLinePointers(p);
    var predecessor, second := CheckEdges(p, successor, lpValid);
    var third := CheckRoots(p, predecessor);
    reports := first + second + third;
  }

  /** No two edges enter one tuple. */
  lemma {:induction false} EdgesOneToOne(p: Page, s: nat, r: nat, t: nat)
    requires Clean(p) && Edge(p, s, t) && Edge(p, r, t)
    ensures s == r
  {
    EdgeTarget(p, s, t);
    assert EdgeClean(p, s) && EdgeClean(p, r);
  }

  /** Every redirect leads to a heap-only tuple on the page. */
  lemma {:induction false} RedirectsLeadToHeapOnly(p: Page, o: nat)
    requires Clean(p) && p.Has(o) && p.At(o).Redirect?
    ensures p.Has(p.At(o).to) && p.At(p.At(o).to).Normal? && p.At(p.At(o).to).tup.heapOnly && Edge(p, o, p.At(o).to)
  {
    var t := p.At(o).to;
    assert LpClean(p, o) && EdgeClean(p, o);
    assert LpClean(p, t);
    assert Edge(p, o, t);
  }

  /** Every wanted heap-only tuple is entered by exactly one edge, from a redirect or a HOT-updated tuple. */
  lemma {:induction false} HeapOnlyEnteredOnce(p: Page, o: nat) returns (s: nat)
    requires Clean(p) && p.Has(o) && Wanted(p, o) && p.At(o).tup.heapOnly
    ensures Edge(p, s, o) && (forall r: nat :: Edge(p, r, o) ==> r == s)
    ensures p.At(s).Redirect? || (p.At(s).Normal? && p.At(s).tup.hotUpdated && p.At(s).tup.updater == p.At(o).tup.xmin)
  {
    assert RootClean(p, o);
    s :| Edge(p, s, o);
    forall r | Edge(p, r, o) ensures r == s { EdgesOneToOne(p, r, s, o); }
    assert EdgeClean(p, s) && Fits(p, s, o);
  }

  /** A tuple that no one updated by HOT has no heap-only version after it. */
  lemma {:induction false} PlainUpdateLeavesRoot(p: Page, s: nat, t: nat)
    requires Clean(p) && Edge(p, s, t) && p.At(s).Normal? && !p.At(s).tup.hotUpdated
    ensures p.At(t).Normal? && !p.At(t).tup.heapOnly
  {
    EdgeTarget(p, s, t);
    assert EdgeClean(p, s) && Fits(p, s, t);
  }
}
