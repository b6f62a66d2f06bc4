/** What an accepted level is like, and when its check comes to an end. */
module BtreeProofs {
  import opened BtreeKeys
  import opened BtreeLinks
  import opened BtreeWalk
  import opened Wrappers

  // ---------------------------------------------------------------- no page twice

  ghost predicate HalfDeadBetween(pages: Pages, done: seq<nat>, i: nat, j: nat) {
    exists k :: i <= k < j <= |done| && done[k] in pages && pages[done[k]].status == HalfDead
  }

  /** Running in a circle means a half-dead page on it: live pages point back, so the way here was the way there. */
  lemma {:induction false} CircleHasHalfDead(pages: Pages, level: Level, done: seq<nat>, i: nat, j: nat)
    requires Trail(pages, level, done) && i < j < |done| && done[i] == done[j]
    ensures HalfDeadBetween(pages, done, i, j)
    decreases i
  {
    var p := pages[done[i]];
    if p.status == HalfDead {
      assert done[i] in pages;
    } else {
      assert Follows(pages, done[j - 1], done[j]);
      if i > 0 {
        assert Follows(pages, done[i - 1], done[i]);
        CircleHasHalfDead(pages, level, done, i - 1, j - 1);
        var k :| i - 1 <= k < j - 1 && done[k] in pages && pages[done[k]].status == HalfDead;
        var l := if k == i - 1 then j - 1 else k;
        assert done[l] == done[k];
      } else {
        assert AllHalfDead(pages, done[..0]) && Leftmost(pages, done[0]);
        var c :| WholeChain(pages, done[0], c);
        if |c| > 1 { assert Linked(pages, c[0], c[1]); }
        assert done[j - 1] == c[1];
      }
    }
  }

  ghost predicate Distinct(done: seq<nat>) {
    forall i, j :: 0 <= i < j < |done| ==> done[i] != done[j]
  }

  /** The pages left behind are the level's, in order. */
  lemma {:induction false} TrailIsRight(pages: Pages, level: Level, done: seq<nat>, k: nat)
    requires Trail(pages, level, done) && k < |done|
    ensures done[k] == Right(pages, level.leftmost, k) && Reached(pages, level.leftmost, k)
  {
    if k > 0 {
      TrailIsRight(pages, level, done, k - 1);
      assert Follows(pages, done[k - 1], done[k]);
    }
  }

  lemma {:induction false} LiveTrailDistinct(pages: Pages, level: Level, done: seq<nat>)
    requires Trail(pages, level, done) && LiveLevel(pages, level.leftmost)
    ensures Distinct(done) && |done| <= |pages|
    ensures forall k :: 0 <= k < |done| ==> pages[done[k]].status == Live
  {
    forall k | 0 <= k < |done| ensures pages[done[k]].status == Live { TrailIsRight(pages, level, done, k); }
    forall i, j | 0 <= i < j < |done| ensures done[i] != done[j] {
      if done[i] == done[j] { CircleHasHalfDead(pages, level, done, i, j); }
    }
    DistinctFits(pages, done);
  }

  /** Where a running check stands on the level. */
  lemma {:induction false} CurrentIsRight(pages: Pages, level: Level, w: Walk)
    requires Inv(pages, level, w) && w.Running()
    ensures w.current == Right(pages, level.leftmost, |w.done|)
    ensures w.current in pages ==> Reached(pages, level.leftmost, |w.done|)
  {
    var n := |w.done|;
    if n > 0 {
      TrailIsRight(pages, level, w.done, n - 1);
      ReachedNext(pages, level.leftmost, n);
    }
  }

  lemma ReachedNext(pages: Pages, b: nat, n: nat)
    requires n > 0 && Reached(pages, b, n - 1)
    ensures Right(pages, b, n) in pages && Right(pages, b, n) != P_NONE ==> Reached(pages, b, n)
  {
  }

  /** A look to the right of a page meets a live page at once. */
  lemma {:induction false} PeekIsShort(pages: Pages, level: Level, w: Walk)
    requires Inv(pages, level, w) && w.Peek? && LiveLevel(pages, level.leftmost)
    ensures !Step(pages, level, w).Peek?
  {
    var n := |w.done|;
    CurrentIsRight(pages, level, w);
    var next := pages[w.current].next;
    assert Right(pages, level.leftmost, n + 1) == next;
    if next in pages { assert Reached(pages, level.leftmost, n + 1); }
  }

  /** On such a level every second step leaves a page behind. */
  lemma {:induction false} StepsCount(pages: Pages, level: Level, n: nat)
    requires level.leftmost != P_NONE && LiveLevel(pages, level.leftmost) && Run(pages, level, n).Running()
    ensures var w := Run(pages, level, n); n <= 2 * |w.done| + (if w.Peek? then 1 else 0)
  {
    if n > 0 {
      StepsCount(pages, level, n - 1);
      RunKeeps(pages, level, n - 1);
      var w := Run(pages, level, n - 1);
      if w.Peek? { PeekIsShort(pages, level, w); }
      VisitMovesOn(pages, level, w);
    }
  }

  /** A visit of a live page leaves it behind or looks to its right. */
  lemma VisitMovesOn(pages: Pages, level: Level, w: Walk)
    ensures w.Visit? && Step(pages, level, w).Visit? ==> |Step(pages, level, w).done| == |w.done| + 1
    ensures w.Visit? && Step(pages, level, w).Peek? ==> Step(pages, level, w).done == w.done
    ensures w.Peek? && Step(pages, level, w).Visit? ==> |Step(pages, level, w).done| == |w.done| + 1
  {
  }

  /** A level without half-dead or deleted pages: the check ends, with an error or after leaving each page behind once. */
  lemma {:induction false} LiveLevelEnds(pages: Pages, level: Level, n: nat)
    requires level.leftmost != P_NONE && LiveLevel(pages, level.leftmost)
    ensures n > 2 * |pages| + 1 ==> !Run(pages, level, n).Running()
    ensures Distinct(Run(pages, level, n).done)
  {
    RunKeeps(pages, level, n);
    LiveTrailDistinct(pages, level, Run(pages, level, n).done);
    if Run(pages, level, n).Running() { StepsCount(pages, level, n); }
  }

  /**
   An accepted level: its pages are the whole right-link chain from the leftmost page, no page is
   linked to itself, live pages point back, and the first live one is leftmost but for half-dead
   pages and, on the root level, the root.
   */
  lemma {:induction false} AcceptedIsChain(pages: Pages, level: Level, n: nat)
    requires level.leftmost != P_NONE && Run(pages, level, n).Finished?
    ensures var d := Run(pages, level, n).done;
            && d != [] && d[0] == level.leftmost && (forall k :: 0 <= k < |d| ==> d[k] in pages)
            && pages[d[|d| - 1]].next == P_NONE && (forall k :: 1 <= k < |d| ==> pages[d[k - 1]].next == d[k])
            && (forall k :: 0 <= k < |d| ==> pages[d[k]].prev != d[k] && pages[d[k]].next != d[k])
            && (forall k :: 1 <= k < |d| && pages[d[k]].status == Live ==> pages[d[k]].prev == d[k - 1])
            && (forall k :: 0 <= k < |d| && pages[d[k]].status == Live && AllHalfDead(pages, d[..k]) ==>
                  Leftmost(pages, d[k]) && (level.trueRoot ==> pages[d[k]].root))
  {
    RunKeeps(pages, level, n);
    var d := Run(pages, level, n).done;
    forall k | 1 <= k < |d| ensures Follows(pages, d[k - 1], d[k]) { }
    forall k | 0 <= k < |d| ensures pages[d[k]].prev != d[k] && pages[d[k]].next != d[k] {
      assert Passed(pages, level, d[k]);
      if k + 1 < |d| { assert Follows(pages, d[k], d[k + 1]); }
    }
  }

  // ---------------------------------------------------------------- order

  /** Keys in the order a scan to the right meets them. */
  ghost function Keys(pages: Pages, done: seq<nat>): seq<Tuple> {
    if done == [] then []
    else Keys(pages, done[..|done| - 1]) + (if done[|done| - 1] in pages then pages[done[|done| - 1]].Real() else [])
  }

  ghost predicate Ascending(s: seq<Tuple>) {
    forall i, j :: 0 <= i < j < |s| ==> Lt(s[i], s[j])
  }

  lemma {:induction false} PageAscending(s: seq<Tuple>)
    requires forall i, j :: 0 <= i && j == i + 1 < |s| ==> Lt(s[i], s[j])
    ensures Ascending(s)
  {
    forall i, j | 0 <= i < j < |s| ensures Lt(s[i], s[j]) { StepsUp(s, i, j); }
  }

  lemma {:induction false} StepsUp(s: seq<Tuple>, i: nat, j: nat)
    requires i < j < |s| && forall k, l :: 0 <= k && l == k + 1 < |s| ==> Lt(s[k], s[l])
    ensures Lt(s[i], s[j])
    decreases j - i
  {
    var below := j - 1;
    assert Lt(s[below], s[j]);
    if i < below {
      StepsUp(s, i, below);
      LessTransitive(s[i].Flat(), s[below].Flat(), s[j].Flat());
    }
  }

  lemma {:induction false} Join(a: seq<Tuple>, b: seq<Tuple>)
    requires Ascending(a) && Ascending(b) && (a != [] && b != [] ==> Lt(a[|a| - 1], b[0]))
    ensures Ascending(a + b)
  {
    var s := a + b;
    forall i, j | 0 <= i < j < |s| ensures Lt(s[i], s[j]) {
      if i < |a| <= j {
        Through(a, b, i, j - |a|);
      }
    }
  }

  lemma {:induction false} Through(a: seq<Tuple>, b: seq<Tuple>, i: nat, j: nat)
    requires Ascending(a) && Ascending(b) && i < |a| && j < |b| && Lt(a[|a| - 1], b[0])
    ensures Lt(a[i], b[j])
  {
    var last := a[|a| - 1];
    if i < |a| - 1 { LessTransitive(a[i].Flat(), last.Flat(), b[0].Flat()); }
    if j > 0 { LessTransitive(a[i].Flat(), b[0].Flat(), b[j].Flat()); }
  }

  /** All live, and no empty page between two that have keys. */
  ghost predicate Gapless(pages: Pages, done: seq<nat>) {
    && (forall k :: 0 <= k < |done| ==> done[k] in pages && pages[done[k]].status == Live)
    && (forall i, k, j :: 0 <= i <= k <= j < |done| && HasKeys(pages, done[i]) && HasKeys(pages, done[j]) ==> HasKeys(pages, done[k]))
  }

  ghost predicate HasKeys(pages: Pages, b: nat) {
    b in pages && pages[b].Real() != []
  }

  ghost predicate EndsWith(s: seq<Tuple>, t: seq<Tuple>) {
    s != [] && t != [] && s[|s| - 1] == t[|t| - 1]
  }

  lemma {:induction false} KeysComeFrom(pages: Pages, done: seq<nat>) returns (i: nat)
    requires Keys(pages, done) != []
    ensures i < |done| && HasKeys(pages, done[i])
  {
    var n := |done| - 1;
    if HasKeys(pages, done[n]) { i := n; } else { i := KeysComeFrom(pages, done[..n]); }
  }

  lemma {:induction false} GaplessPrefix(pages: Pages, done: seq<nat>, n: nat)
    requires Gapless(pages, done) && n <= |done|
    ensures Gapless(pages, done[..n])
  {
    var d := done[..n];
    forall i, k, j | 0 <= i <= k <= j < |d| && HasKeys(pages, d[i]) && HasKeys(pages, d[j]) ensures HasKeys(pages, d[k]) {
      assert d[i] == done[i] && d[k] == done[k] && d[j] == done[j];
    }
  }

  /** The page to the left of one with keys has keys too, if any page before it has. */
  lemma {:induction false} LeftHasKeys(pages: Pages, done: seq<nat>, n: nat)
    requires Gapless(pages, done) && n < |done| && HasKeys(pages, done[n]) && Keys(pages, done[..n]) != []
    ensures n > 0 && HasKeys(pages, done[n - 1])
  {
    var i := KeysComeFrom(pages, done[..n]);
    assert done[..n][i] == done[i];
    assert HasKeys(pages, done[i]) && HasKeys(pages, done[n]);
  }

  lemma LastOf(a: seq<Tuple>, b: seq<Tuple>)
    requires b != []
    ensures EndsWith(a + b, b)
  {
  }

  lemma {:induction false} KeysAscend(pages: Pages, level: Level, done: seq<nat>)
    requires Trail(pages, level, done) && AllPassed(pages, level, done) && Gapless(pages, done)
    ensures Ascending(Keys(pages, done))
    ensures done != [] && HasKeys(pages, done[|done| - 1]) ==> EndsWith(Keys(pages, done), pages[done[|done| - 1]].Real())
  {
    if done != [] {
      var n := |done| - 1;
      var front, own := done[..n], pages[done[n]].Real();
      TrailPrefix(pages, level, done, n);
      GaplessPrefix(pages, done, n);
      KeysAscend(pages, level, front);
      assert Passed(pages, level, done[n]);
      PageAscending(own);
      if own != [] {
        LastOf(Keys(pages, front), own);
        if Keys(pages, front) != [] {
          LeftHasKeys(pages, done, n);
          Neighbours(pages, level, done, n);
        }
      }
      Join(Keys(pages, front), own);
    }
  }

  lemma {:induction false} TrailPrefix(pages: Pages, level: Level, done: seq<nat>, n: nat)
    requires Trail(pages, level, done) && AllPassed(pages, level, done) && n <= |done|
    ensures Trail(pages, level, done[..n]) && AllPassed(pages, level, done[..n])
  {
    var d := done[..n];
    forall k, l | 0 <= k && l == k + 1 < |d| ensures Follows(pages, d[k], d[l]) { assert Follows(pages, done[k], done[l]); }
    forall k | 0 <= k < |d| && pages[d[k]].status == Live && AllHalfDead(pages, d[..k]) ensures FirstOk(pages, level, d[k], pages[d[k]]) {
      assert d[..k] == done[..k] && d[k] == done[k];
    }
  }

  lemma {:induction false} Neighbours(pages: Pages, level: Level, done: seq<nat>, n: nat)
    requires Trail(pages, level, done) && AllPassed(pages, level, done) && Gapless(pages, done) && 0 < n < |done|
    ensures CrossOk(pages[done[n - 1]], pages[done[n]])
  {
    assert Follows(pages, done[n - 1], done[n]) && Passed(pages, level, done[n - 1]);
  }

  /** Accepting a level of live pages without gaps means one strictly ascending sequence of keys, each within its page's high key. */
  lemma {:induction false} AcceptedIsOrdered(pages: Pages, level: Level, n: nat)
    requires level.leftmost != P_NONE && Run(pages, level, n).Finished? && Gapless(pages, Run(pages, level, n).done)
    ensures var d := Run(pages, level, n).done;
            Ascending(Keys(pages, d)) && forall k :: 0 <= k < |d| ==> PageOk(pages[d[k]]) && pages[d[k]].level == level.level
  {
    RunKeeps(pages, level, n);
    var d := Run(pages, level, n).done;
    KeysAscend(pages, level, d);
    forall k | 0 <= k < |d| ensures PageOk(pages[d[k]]) && pages[d[k]].level == level.level { assert Passed(pages, level, d[k]); }
  }

  // ---------------------------------------------------------------- exactly what is accepted

  /** A level as it should be: a chain of live pages, linked both ways, in order on each page and from page to page. */
  ghost predicate WellFormed(pages: Pages, level: Level, d: seq<nat>) {
    && d != [] && d[0] == level.leftmost && (forall k :: 0 <= k < |d| ==> d[k] in pages && d[k] != P_NONE && GoodPage(pages, level, d[k]))
    && FirstOk(pages, level, d[0], pages[d[0]]) && pages[d[|d| - 1]].next == P_NONE && pages[d[0]].prev != d[0]
    && (forall k, l :: 0 <= k && l == k + 1 < |d| ==> GoodPair(pages, d[k], d[l]))
  }

  ghost predicate GoodPage(pages: Pages, level: Level, b: nat)
    requires b in pages
  {
    pages[b].status == Live && pages[b].level == level.level && PageOk(pages[b])
  }

  ghost predicate GoodPair(pages: Pages, a: nat, b: nat)
    requires a in pages && b in pages
  {
    pages[a].next == b && pages[b].prev == a && CrossOk(pages[a], pages[b])
  }

  lemma {:induction false} AcceptedIsWellFormed(pages: Pages, level: Level, n: nat)
    requires level.leftmost != P_NONE && LiveLevel(pages, level.leftmost) && Run(pages, level, n).Finished?
    ensures WellFormed(pages, level, Run(pages, level, n).done)
  {
    RunKeeps(pages, level, n);
    var d := Run(pages, level, n).done;
    LiveTrailDistinct(pages, level, d);
    forall k | 0 <= k < |d| ensures GoodPage(pages, level, d[k]) { assert Passed(pages, level, d[k]); }
    forall k, l | 0 <= k && l == k + 1 < |d| ensures GoodPair(pages, d[k], d[l]) {
      assert Follows(pages, d[k], d[l]) && Passed(pages, level, d[k]);
    }
    assert AllHalfDead(pages, d[..0]) && FirstOk(pages, level, d[0], pages[d[0]]);
    assert Passed(pages, level, d[0]);
  }

  /** A well-formed level has no half-dead or deleted page. */
  lemma {:induction false} WellFormedIsLive(pages: Pages, level: Level, d: seq<nat>)
    requires WellFormed(pages, level, d)
    ensures LiveLevel(pages, level.leftmost)
  {
    forall k: nat | Reached(pages, level.leftmost, k) ensures pages[Right(pages, level.leftmost, k)].status == Live {
      ChainIsRight(pages, level, d, if k < |d| then k else |d| - 1);
      if k < |d| {
        assert GoodPage(pages, level, d[k]);
      } else {
        assert Right(pages, level.leftmost, |d|) == P_NONE;
      }
    }
  }

  lemma {:induction false} ChainIsRight(pages: Pages, level: Level, d: seq<nat>, k: nat)
    requires WellFormed(pages, level, d) && k < |d|
    ensures d[k] == Right(pages, level.leftmost, k)
  {
    if k > 0 {
      ChainIsRight(pages, level, d, k - 1);
      assert GoodPair(pages, d[k - 1], d[k]);
    }
  }

  /** A well-formed chain never links a page to itself. */
  lemma {:induction false} NoSelfLink(pages: Pages, level: Level, d: seq<nat>, k: nat)
    requires WellFormed(pages, level, d) && 1 <= k < |d|
    ensures d[k] != d[k - 1]
  {
    assert GoodPair(pages, d[k - 1], d[k]);
    if k > 1 {
      NoSelfLink(pages, level, d, k - 1);
      assert GoodPair(pages, d[k - 2], d[k - 1]);
    }
  }

  /** Where the check of a well-formed level stands when it comes to its k-th page. */
  function Arrival(d: seq<nat>, k: nat): Walk
    requires k < |d|
  {
    Visit(if k == 0 then P_NONE else d[k - 1], d[k], k > 0, d[..k])
  }

  function Departure(d: seq<nat>, k: nat): Walk
    requires k < |d|
  {
    if k + 1 == |d| then Finished(d) else Arrival(d, k + 1)
  }

  lemma {:induction false} LeavesPage(pages: Pages, level: Level, d: seq<nat>, k: nat)
    requires WellFormed(pages, level, d) && k < |d|
    ensures Leave(pages[d[k]], Arrival(d, k).left, d[k], true, d[..k]) == Departure(d, k)
  {
    assert d[..k] + [d[k]] == d[..k + 1];
    if k > 0 {
      NoSelfLink(pages, level, d, k);
      assert GoodPair(pages, d[k - 1], d[k]);
    }
    if k + 1 < |d| { assert GoodPair(pages, d[k], d[k + 1]); } else { assert d[..k + 1] == d; }
  }

  lemma {:induction false} PassesPage(pages: Pages, level: Level, d: seq<nat>, k: nat)
    requires WellFormed(pages, level, d) && k < |d|
    ensures var r := Step(pages, level, Arrival(d, k));
            r == Departure(d, k) || (r.Peek? && Step(pages, level, r) == Departure(d, k))
  {
    var p := pages[d[k]];
    assert GoodPage(pages, level, d[k]);
    if k > 0 { assert GoodPair(pages, d[k - 1], d[k]); }
    LeavesPage(pages, level, d, k);
    if k + 1 < |d| { assert GoodPair(pages, d[k], d[k + 1]) && GoodPage(pages, level, d[k + 1]); }
  }

  lemma {:induction false} Arrives(pages: Pages, level: Level, d: seq<nat>, k: nat) returns (n: nat)
    requires WellFormed(pages, level, d) && k < |d|
    ensures Run(pages, level, n) == Arrival(d, k)
  {
    if k == 0 {
      n := 0;
      assert d[..0] == [];
    } else {
      n := Arrives(pages, level, d, k - 1);
      PassesPage(pages, level, d, k - 1);
      n := if Run(pages, level, n + 1) == Departure(d, k - 1) then n + 1 else n + 2;
    }
  }

  /**
   The check accepts a level without half-dead and deleted pages exactly if the level is well-formed:
   nothing bad passes, nothing good is refused, whatever the other levels hold.
   */
  lemma {:induction false} AcceptsIffWellFormed(pages: Pages, level: Level)
    requires level.leftmost != P_NONE
    ensures (exists n: nat :: Run(pages, level, n).Finished?) && LiveLevel(pages, level.leftmost) <==> exists d :: WellFormed(pages, level, d)
  {
    if LiveLevel(pages, level.leftmost) && exists n: nat :: Run(pages, level, n).Finished? {
      var n: nat :| Run(pages, level, n).Finished?;
      AcceptedIsWellFormed(pages, level, n);
    }
    if exists d :: WellFormed(pages, level, d) {
      var d :| WellFormed(pages, level, d);
      var n := Finishes(pages, level, d);
      WellFormedIsLive(pages, level, d);
    }
  }

  lemma {:induction false} Finishes(pages: Pages, level: Level, d: seq<nat>) returns (n: nat)
    requires WellFormed(pages, level, d)
    ensures Run(pages, level, n) == Finished(d)
  {
    n := Arrives(pages, level, d, |d| - 1);
    PassesPage(pages, level, d, |d| - 1);
    n := if Run(pages, level, n + 1) == Departure(d, |d| - 1) then n + 1 else n + 2;
  }

  // ---------------------------------------------------------------- what acceptance does not give

  /** Leaf keys: 5 and 4, each with its heap tuple; a high key has no tuple. */
  const FIVE := Tuple([5], Some(1))
  const FOUR := Tuple([4], Some(2))
  const HIGH := Tuple([9], None)

  /** Leaf page b of n + 2: key 5 on the first, key 4 on the last, none on the n pages between. */
  function GapPage(n: nat, b: nat): Page
    requires b >= 1
  {
    Page(b - 1, if b == n + 2 then P_NONE else b + 1, Live, 0, false, HIGH,
         if b == 1 then [FIVE] else if b == n + 2 then [FOUR] else [])
  }

  function Gapped(n: nat): Pages {
    map b: nat | 1 <= b <= n + 2 :: GapPage(n, b)
  }

  function UpTo(n: nat): (d: seq<nat>)
    ensures |d| == n && forall k :: 0 <= k < n ==> d[k] == k + 1
  {
    seq(n, k => k + 1)
  }

  lemma {:induction false} GappedIsWellFormed(n: nat)
    requires n >= 1
    ensures WellFormed(Gapped(n), Level(0, 1, false), UpTo(n + 2))
  {
    var pages, d := Gapped(n), UpTo(n + 2);
    forall k | 0 <= k < |d| ensures d[k] in pages && GoodPage(pages, Level(0, 1, false), d[k]) {
      SmallKeys();
    }
    forall k, l | 0 <= k && l == k + 1 < |d| ensures GoodPair(pages, d[k], d[l]) { }
    assert WholeChain(pages, 1, [1]);
  }

  lemma SmallKeys()
    ensures Lt(FIVE, HIGH) && Lt(FOUR, HIGH) && !Lt(FIVE, FOUR)
  {
  }

  lemma {:induction false} GappedKeys(n: nat, k: nat)
    requires 1 <= k <= n + 1
    ensures Keys(Gapped(n), UpTo(k)) == [FIVE]
  {
    assert UpTo(k)[..k - 1] == UpTo(k - 1);
    if k > 1 { GappedKeys(n, k - 1); }
  }

  /** The level walk by itself: any number of empty pages between two others hides disorder. Accepted, yet 5 comes before 4. */
  lemma {:induction false} EmptyPagesHideDisorder(n: nat) returns (steps: nat)
    requires n >= 1
    ensures Run(Gapped(n), Level(0, 1, false), steps) == Finished(UpTo(n + 2))
    ensures !Ascending(Keys(Gapped(n), UpTo(n + 2)))
  {
    GappedIsWellFormed(n);
    steps := Finishes(Gapped(n), Level(0, 1, false), UpTo(n + 2));
    GappedDisorder(n);
  }

  lemma {:induction false} GappedDisorder(n: nat)
    requires n >= 1
    ensures !Ascending(Keys(Gapped(n), UpTo(n + 2)))
  {
    GappedKeys(n, n + 1);
    assert UpTo(n + 2)[..n + 1] == UpTo(n + 1);
    var s := Keys(Gapped(n), UpTo(n + 2));
    assert s == [FIVE] + [FOUR];
    SmallKeys();
    assert !Lt(s[0], s[1]);
  }
}
