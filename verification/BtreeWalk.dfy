/**
 The check of one level under a lock that keeps it still: page by page along right
 links, an error ending it at once. Each step is one page read, after which a user may
 cancel, so a run is any number of steps.
 */
module BtreeWalk {
  import opened BtreeKeys
  import opened BtreeLinks
  import opened Wrappers

  // ---------------------------------------------------------------- one page

  predicate Lt(a: Tuple, b: Tuple) {
    Less(a.Flat(), b.Flat())
  }

  predicate Leq(a: Tuple, b: Tuple) {
    Lt(a, b) || a.Flat() == b.Flat()
  }

  /** Each key is below its neighbour, and within the page's high key if it has one. */
  ghost predicate PageOk(p: Page) {
    var s := p.Real();
    && (forall i :: 0 <= i < |s| && !p.Rightmost() ==> if p.level == 0 then Leq(s[i], p.high) else Lt(s[i], p.high))
    && (forall i, j :: 0 <= i && j == i + 1 < |s| ==> Lt(s[i], s[j]))
  }

  ghost predicate ValidPage(p: Page, n: nat) {
    p.high.Valid(n) && forall i :: 0 <= i < |p.items| ==> p.items[i].Valid(n)
  }

  method TargetPageCheck(p: Page, ghost n: nat) returns (ok: bool)
    requires ValidPage(p, n)
    ensures ok <==> PageOk(p)
  {
    var s := p.Real();
    var i := 0;
    while i < |s|
      invariant 0 <= i <= |s|
      invariant forall k :: 0 <= k < i && !p.Rightmost() ==> if p.level == 0 then Leq(s[k], p.high) else Lt(s[k], p.high)
      invariant forall k, l :: 0 <= k < i && l == k + 1 < |s| ==> Lt(s[k], s[l])
    {
      if !p.Rightmost() {
        var within;
        if p.level == 0 { within := InvariantLeq(s[i], p.high, n); } else { within := InvariantL(s[i], p.high, n); }
        if !within { return false; }
      }
      if i + 1 < |s| {
        var ascending := InvariantL(s[i], s[i + 1], n);
        if !ascending { return false; }
      }
      i := i + 1;
    }
    return true;
  }

  /** The last key of a page is below the first key found to its right, if there is one. */
  predicate CrossOk(p: Page, q: Page) {
    p.Real() == [] || q.Real() == [] || Lt(p.Real()[|p.Real()| - 1], q.Real()[0])
  }

  // ---------------------------------------------------------------- the walk

  /** What the caller expects of a level. */
  datatype Level = Level(level: nat, leftmost: nat, trueRoot: bool)

  /** `done` lists the pages left behind; a peek looks right of the current page for a first key. */
  datatype Walk =
    | Visit(left: nat, current: nat, started: bool, done: seq<nat>)
    | Peek(left: nat, current: nat, at: nat, done: seq<nat>)
    | Failed(done: seq<nat>)
    | Finished(done: seq<nat>)
  {
    predicate Running() {
      Visit? || Peek?
    }
  }

  function Start(level: Level): Walk {
    Visit(P_NONE, level.leftmost, false, [])
  }

  ghost predicate Leftmost(pages: Pages, start: nat) {
    exists c :: WholeChain(pages, start, c)
  }

  /** Moving on to the right, unless the page is linked to itself. */
  function Leave(p: Page, left: nat, current: nat, started: bool, done: seq<nat>): Walk {
    if current == left || current == p.prev then Failed(done)
    else if p.next == P_NONE then Finished(done + [current])
    else Visit(current, p.next, started, done + [current])
  }

  ghost predicate FirstOk(pages: Pages, level: Level, current: nat, p: Page) {
    Leftmost(pages, current) && (level.trueRoot ==> p.root)
  }

  ghost function Step(pages: Pages, level: Level, w: Walk): Walk {
    match w
    case Visit(left, current, started, done) =>
      if current !in pages then Failed(done)
      else
        var p := pages[current];
        if p.Ignorable() then
          if p.status == Deleted || p.Rightmost() then Failed(done) else Leave(p, left, current, started, done)
        else if !started && !FirstOk(pages, level, current, p) then Failed(done)
        else if p.prev != left && left != P_NONE then Failed(done)
        else if level.level != p.level || !PageOk(p) then Failed(done)
        else if p.Real() != [] && !p.Rightmost() then Peek(left, current, p.next, done)
        else Leave(p, left, current, true, done)
    case Peek(left, current, at, done) =>
      if at !in pages || current !in pages then Failed(done)
      else if pages[at].Ignorable() && !pages[at].Rightmost() then Peek(left, current, pages[at].next, done)
      else if !CrossOk(pages[current], pages[at]) then Failed(done)
      else Leave(pages[current], left, current, true, done)
    case _ => w
  }

  ghost function Run(pages: Pages, level: Level, n: nat): Walk {
    if n == 0 then Start(level) else Step(pages, level, Run(pages, level, n - 1))
  }

  method Advance(pages: Pages, level: Level, w: Walk, ghost n: nat) returns (r: Walk)
    requires forall b :: b in pages ==> ValidPage(pages[b], n)
    ensures r == Step(pages, level, w)
  {
    match w
    case Visit(left, current, started, done) =>
      if current !in pages { return Failed(done); }
      var p := pages[current];
      if p.Ignorable() {
        return if p.status == Deleted || p.Rightmost() then Failed(done) else Leave(p, left, current, started, done);
      }
      if !started {
        var leftmost, _, _ := LeftmostIgnoringHalfDead(pages, current);
        if leftmost != Some(true) || (level.trueRoot && !p.root) { return Failed(done); }
      }
      if p.prev != left && left != P_NONE { return Failed(done); }
      if level.level != p.level { return Failed(done); }
      var ok := TargetPageCheck(p, n);
      if !ok { return Failed(done); }
      return if p.Real() != [] && !p.Rightmost() then Peek(left, current, p.next, done) else Leave(p, left, current, true, done);
    case Peek(left, current, at, done) =>
      if at !in pages || current !in pages { return Failed(done); }
      var p, q := pages[current], pages[at];
      if q.Ignorable() && !q.Rightmost() { return Peek(left, current, q.next, done); }
      if p.Real() != [] && q.Real() != [] {
        var above := InvariantG(q.Real()[0], p.Real()[|p.Real()| - 1], n);
        if !above { return Failed(done); }
      }
      return Leave(p, left, current, true, done);
    case Failed(_) => return w;
    case Finished(_) => return w;
  }

  /** The level check, cancelled after at most so many page reads. */
  method CheckLevel(pages: Pages, level: Level, cancelAfter: nat, ghost n: nat) returns (w: Walk)
    requires forall b :: b in pages ==> ValidPage(pages[b], n)
    ensures w == Run(pages, level, cancelAfter)
  {
    w := Start(level);
    var i := 0;
    while i < cancelAfter
      invariant 0 <= i <= cancelAfter && w == Run(pages, level, i)
    {
      w := Advance(pages, level, w, n);
      i := i + 1;
    }
  }

  // ---------------------------------------------------------------- what a run keeps

  ghost predicate AllHalfDead(pages: Pages, done: seq<nat>) {
    forall k :: 0 <= k < |done| ==> done[k] in pages && pages[done[k]].status == HalfDead
  }

  /** The pages left behind follow right links from the leftmost; each live one points back, the first live one is what the caller expects. */
  ghost predicate Trail(pages: Pages, level: Level, done: seq<nat>) {
    && (forall k :: 0 <= k < |done| ==> done[k] in pages && done[k] != P_NONE && pages[done[k]].status != Deleted)
    && (done != [] ==> done[0] == level.leftmost)
    && (forall k, l :: 0 <= k && l == k + 1 < |done| ==> Follows(pages, done[k], done[l]))
    && (forall k :: 0 <= k < |done| && pages[done[k]].status == Live && AllHalfDead(pages, done[..k]) ==>
          FirstOk(pages, level, done[k], pages[done[k]]))
  }

  ghost predicate Follows(pages: Pages, a: nat, b: nat)
    requires a in pages && b in pages
  {
    a != b && pages[a].next == b && (pages[b].status == Live ==> pages[b].prev == a)
  }

  /** A page left behind is not linked to itself; a live one passed its own check and that against a live page to its right. */
  ghost predicate Passed(pages: Pages, level: Level, b: nat) {
    b in pages && b != pages[b].prev && (pages[b].status == Live ==>
      && PageOk(pages[b]) && pages[b].level == level.level
      && (pages[b].next in pages && pages[pages[b].next].status == Live && !pages[b].Rightmost() ==> CrossOk(pages[b], pages[pages[b].next])))
  }

  ghost predicate AllPassed(pages: Pages, level: Level, done: seq<nat>) {
    forall k :: 0 <= k < |done| ==> Passed(pages, level, done[k])
  }

  /** Where a running walk stands. */
  ghost predicate At(pages: Pages, level: Level, w: Walk)
    requires w.Running()
  {
    && w.current != P_NONE
    && (w.done == [] ==> w.left == P_NONE && w.current == level.leftmost)
    && (w.done != [] ==> w.left == w.done[|w.done| - 1] && w.left in pages && pages[w.left].next == w.current)
    && (w.Visit? ==> (w.started <==> !AllHalfDead(pages, w.done)))
    && (w.Peek? ==> Peeking(pages, level, w))
  }

  /** The current page passed everything but the check against its right neighbour. */
  ghost predicate Peeking(pages: Pages, level: Level, w: Walk)
    requires w.Peek?
  {
    && w.current in pages && pages[w.current].status == Live && !pages[w.current].Rightmost()
    && PageOk(pages[w.current]) && pages[w.current].level == level.level
    && (AllHalfDead(pages, w.done) ==> FirstOk(pages, level, w.current, pages[w.current]))
    && (w.done != [] ==> pages[w.current].prev == w.left)
    && (w.at == pages[w.current].next || (pages[w.current].next in pages && pages[pages[w.current].next].Ignorable()))
  }

  ghost predicate Inv(pages: Pages, level: Level, w: Walk) {
    && Trail(pages, level, w.done) && AllPassed(pages, level, w.done)
    && (w.Running() ==> At(pages, level, w))
    && (w.Finished? ==> w.done != [] && pages[w.done[|w.done| - 1]].next == P_NONE)
  }

  lemma {:induction false} TrailGrows(pages: Pages, level: Level, done: seq<nat>, b: nat)
    requires Trail(pages, level, done) && b in pages && b != P_NONE && pages[b].status != Deleted
    requires if done == [] then b == level.leftmost else Follows(pages, done[|done| - 1], b)
    requires pages[b].status == Live && AllHalfDead(pages, done) ==> FirstOk(pages, level, b, pages[b])
    ensures Trail(pages, level, done + [b])
  {
    var d := done + [b];
    forall k, l | 0 <= k && l == k + 1 < |d| ensures d[k] in pages && d[l] in pages && Follows(pages, d[k], d[l]) {
      if l < |done| { assert Follows(pages, done[k], done[l]); }
    }
    forall k | 0 <= k < |d| && d[k] in pages && pages[d[k]].status == Live && AllHalfDead(pages, d[..k])
      ensures FirstOk(pages, level, d[k], pages[d[k]])
    {
      assert d[..k] == done[..k];
      if k == |done| { assert done[..k] == done; }
    }
  }

  lemma HalfDeadGrows(pages: Pages, done: seq<nat>, b: nat)
    requires b in pages
    ensures AllHalfDead(pages, done + [b]) <==> AllHalfDead(pages, done) && pages[b].status == HalfDead
  {
    var d := done + [b];
    assert d[|done|] == b && d[..|done|] == done;
    if AllHalfDead(pages, d) {
      forall k | 0 <= k < |done| ensures done[k] in pages && pages[done[k]].status == HalfDead { assert d[k] == done[k]; }
    }
  }

  /** Leaving a page that is fit to be left behind. */
  lemma {:induction false} LeaveKeeps(pages: Pages, level: Level, w: Walk, started: bool)
    requires w.Running() && Inv(pages, level, w) && w.current in pages
    requires w.current != pages[w.current].prev ==> Passed(pages, level, w.current)
    requires var p := pages[w.current];
             && p.status != Deleted
             && (p.status == Live && AllHalfDead(pages, w.done) ==> FirstOk(pages, level, w.current, p))
             && (p.status == Live && w.done != [] ==> p.prev == w.left)
             && (started <==> p.status == Live || !AllHalfDead(pages, w.done))
    ensures Inv(pages, level, Leave(pages[w.current], w.left, w.current, started, w.done))
  {
    var r := Leave(pages[w.current], w.left, w.current, started, w.done);
    if !r.Failed? {
      TrailGrows(pages, level, w.done, w.current);
      HalfDeadGrows(pages, w.done, w.current);
    }
  }

  lemma {:induction false} IgnoreKeeps(pages: Pages, level: Level, w: Walk)
    requires w.Visit? && Inv(pages, level, w) && w.current in pages && pages[w.current].status == HalfDead
    ensures Inv(pages, level, Step(pages, level, w))
  {
    if !pages[w.current].Rightmost() { LeaveKeeps(pages, level, w, w.started); }
  }

  lemma {:induction false} VisitKeeps(pages: Pages, level: Level, w: Walk)
    requires w.Visit? && Inv(pages, level, w) && w.current in pages && pages[w.current].status == Live
    ensures Inv(pages, level, Step(pages, level, w))
  {
    var r, p := Step(pages, level, w), pages[w.current];
    if r == Leave(p, w.left, w.current, true, w.done) && !r.Failed? {
      LeaveKeeps(pages, level, w, true);
    }
  }

  lemma {:induction false} PeekKeeps(pages: Pages, level: Level, w: Walk)
    requires w.Peek? && Inv(pages, level, w)
    ensures Inv(pages, level, Step(pages, level, w))
  {
    var r := Step(pages, level, w);
    if !r.Failed? && !r.Peek? { LeaveKeeps(pages, level, w, true); }
  }

  lemma {:induction false} StepKeeps(pages: Pages, level: Level, w: Walk)
    requires Inv(pages, level, w)
    ensures Inv(pages, level, Step(pages, level, w))
  {
    if w.Peek? {
      PeekKeeps(pages, level, w);
    } else if w.Visit? && w.current in pages {
      match pages[w.current].status
      case Live => VisitKeeps(pages, level, w);
      case HalfDead => IgnoreKeeps(pages, level, w);
      case Deleted =>
    }
  }

  lemma {:induction false} RunKeeps(pages: Pages, level: Level, n: nat)
    requires level.leftmost != P_NONE
    ensures Inv(pages, level, Run(pages, level, n))
  {
    if n > 0 {
      RunKeeps(pages, level, n - 1);
      StepKeeps(pages, level, Run(pages, level, n - 1));
    }
  }
}
