/**
 Where update chains begin. On a page without a report the edges form chains and
 circles: walking back from a tuple either ends at a line pointer nothing leads to, or
 comes back to the tuple. The passes do not tell the two apart.
 */
module HeapRoots {
  import opened HeapChains
  import opened Wrappers

  /** A walk against the edges, from path[0] backwards. */
  ghost predicate BackPath(p: Page, path: seq<nat>) {
    path != [] && forall i :: 0 <= i < |path| - 1 ==> Edge(p, path[i + 1], path[i])
  }

  ghost predicate Entered(p: Page, o: nat) {
    exists s: nat :: Edge(p, s, o)
  }

  /** The walk back from o ends at e. */
  ghost predicate BeginsAt(p: Page, o: nat, e: nat) {
    !Entered(p, e) && exists path :: BackPath(p, path) && path[0] == o && path[|path| - 1] == e
  }

  /** The walk back from o comes to o again. */
  ghost predicate Returns(p: Page, o: nat) {
    exists path :: Circles(p, path) && path[0] == o
  }

  ghost predicate Circles(p: Page, path: seq<nat>) {
    BackPath(p, path) && |path| >= 2 && path[0] == path[|path| - 1]
  }

  ghost predicate Distinct(s: seq<nat>) {
    forall i, j :: 0 <= i < j < |s| ==> s[i] != s[j]
  }

  lemma EdgeEnds(p: Page, s: nat, t: nat)
    requires Edge(p, s, t)
    ensures p.Has(s) && p.Has(t) && Successor(p, s) == t && p.At(t).Normal?
  {
    EdgeTarget(p, s, t);
  }

  /** A further step back meets nothing it has met, except the start. */
  lemma {:induction false} StepBackIsNew(p: Page, path: seq<nat>, s: nat)
    requires BackPath(p, path) && Distinct(path) && Edge(p, s, path[|path| - 1]) && s != path[0]
    ensures s !in path
  {
    EdgeEnds(p, s, path[|path| - 1]);
    forall i | 1 <= i < |path| ensures path[i] != s {
      assert Edge(p, path[i - 1 + 1], path[i - 1]);
    }
  }

  /** From any line pointer the walk back ends or returns. */
  lemma {:induction false} WalkBack(p: Page, path: seq<nat>, rest: set<nat>)
    requires BackPath(p, path) && Distinct(path)
    requires forall o: nat :: p.Has(o) && o !in path ==> o in rest
    requires forall x :: x in path ==> x !in rest
    ensures Returns(p, path[0]) || exists e :: BeginsAt(p, path[0], e)
    decreases rest
  {
    var last := path[|path| - 1];
    if Entered(p, last) {
      var s: nat :| Edge(p, s, last);
      EdgeEnds(p, s, last);
      var longer := path + [s];
      assert BackPath(p, longer);
      if s == path[0] {
        assert Circles(p, longer);
      } else {
        StepBackIsNew(p, path, s);
        WalkBack(p, longer, rest - {s});
      }
    } else {
      assert BeginsAt(p, path[0], last);
    }
  }

  ghost function OffsetsTo(n: nat): (r: set<nat>)
    ensures forall o: nat :: o in r <==> 1 <= o <= n
  {
    if n == 0 then {} else OffsetsTo(n - 1) + {n}
  }

  /** On a page whose edges are one to one, a walk back follows the circle it starts on. */
  lemma {:induction false} StaysOnCircle(p: Page, circle: seq<nat>, path: seq<nat>) returns (i: nat)
    requires Clean(p) && Circles(p, circle) && BackPath(p, path) && path[0] == circle[0]
    ensures i < |circle| - 1 && circle[i] == path[|path| - 1]
    decreases |path|
  {
    if |path| == 1 {
      i := 0;
    } else {
      var n := |path| - 1;
      assert BackPath(p, path[..n]);
      var j := StaysOnCircle(p, circle, path[..n]);
      assert Edge(p, path[n], path[n - 1]) && Edge(p, circle[j + 1], circle[j]);
      EdgesOneToOne(p, path[n], circle[j + 1], circle[j]);
      i := if j + 1 == |circle| - 1 then 0 else j + 1;
    }
  }

  /** Two walks back from one line pointer are the same as far as both go. */
  lemma {:induction false} OneWalk(p: Page, a: seq<nat>, b: seq<nat>, i: nat)
    requires Clean(p) && BackPath(p, a) && BackPath(p, b) && a[0] == b[0] && i < |a| && i < |b|
    ensures a[i] == b[i]
  {
    if i > 0 {
      OneWalk(p, a, b, i - 1);
      assert Edge(p, a[i - 1 + 1], a[i - 1]) && Edge(p, b[i - 1 + 1], b[i - 1]);
      EdgesOneToOne(p, a[i], b[i], a[i - 1]);
    }
  }

  lemma EnteredOnTheWay(p: Page, a: seq<nat>, k: nat)
    requires BackPath(p, a) && k + 1 < |a|
    ensures Entered(p, a[k])
  {
    assert Edge(p, a[k + 1], a[k]);
  }

  /** No walk goes on where another had to end. */
  lemma {:induction false} GoesNoFurther(p: Page, a: seq<nat>, b: seq<nat>)
    requires Clean(p) && BackPath(p, a) && BackPath(p, b) && a[0] == b[0] && !Entered(p, b[|b| - 1])
    ensures |a| <= |b|
  {
    if |a| > |b| {
      EnteredOnTheWay(p, a, |b| - 1);
      OneWalk(p, a, b, |b| - 1);
    }
  }

  /** A chain begins at one line pointer. */
  lemma {:induction false} OneBeginning(p: Page, o: nat, e: nat, e': nat)
    requires Clean(p) && BeginsAt(p, o, e) && BeginsAt(p, o, e')
    ensures e == e'
  {
    var a :| BackPath(p, a) && a[0] == o && a[|a| - 1] == e;
    var b :| BackPath(p, b) && b[0] == o && b[|b| - 1] == e';
    GoesNoFurther(p, a, b);
    GoesNoFurther(p, b, a);
    OneWalk(p, a, b, |a| - 1);
  }

  /** On a clean page a chain has a beginning exactly if the walk back does not return. */
  lemma {:induction false} BeginsIffNotReturns(p: Page, o: nat)
    requires Clean(p) && p.Has(o)
    ensures (exists e :: BeginsAt(p, o, e)) <==> !Returns(p, o)
  {
    assert BackPath(p, [o]) && Distinct([o]);
    WalkBack(p, [o], OffsetsTo(|p.items|) - {o});
    if e :| BeginsAt(p, o, e) {
      var path :| BackPath(p, path) && path[0] == o && path[|path| - 1] == e;
      if Returns(p, o) {
        var circle :| Circles(p, circle) && circle[0] == o;
        var i := StaysOnCircle(p, circle, path);
        assert Edge(p, circle[i + 1], circle[i]);
      }
    }
  }

  /** What the beginning of a chain is on a clean page: a redirect, a tuple that is not heap-only, or one whose xmin is not known to matter. */
  lemma {:induction false} BeginningIsRoot(p: Page, o: nat, e: nat)
    requires Clean(p) && p.Has(o) && BeginsAt(p, o, e)
    ensures p.Has(e) && (p.At(e).Redirect? || (p.At(e).Normal? && p.At(e).tup.heapOnly ==> !Wanted(p, e)))
    ensures e != o ==> p.At(e).Redirect? || p.At(e).Normal?
  {
    var path :| BackPath(p, path) && path[0] == o && path[|path| - 1] == e;
    if |path| > 1 { EdgeEnds(p, e, path[|path| - 2]); }
    assert RootClean(p, e);
  }

  /** Every update made its new version after the old one: a condition on each edge by itself. */
  ghost predicate UpdatersNewer(p: Page) {
    forall s: nat, t: nat :: Edge(p, s, t) && p.At(s).Normal? ==> p.At(s).tup.xmin < p.At(s).tup.updater
  }

  lemma {:induction false} OlderBackwards(p: Page, path: seq<nat>, i: nat)
    requires BackPath(p, path) && UpdatersNewer(p) && i < |path|
    requires forall k :: 0 <= k < |path| ==> p.Has(path[k]) && p.At(path[k]).Normal?
    ensures i > 0 ==> p.At(path[i]).tup.xmin < p.At(path[0]).tup.xmin
  {
    if i > 0 {
      OlderBackwards(p, path, i - 1);
      assert Edge(p, path[i], path[i - 1]);
    }
  }

  /** Then no walk returns, so every wanted heap-only tuple of a clean page has a root. */
  lemma {:induction false} NewerUpdatersHaveRoots(p: Page, o: nat)
    requires Clean(p) && p.Has(o) && UpdatersNewer(p)
    ensures !Returns(p, o) && exists e :: BeginsAt(p, o, e)
  {
    if Returns(p, o) {
      var path :| Circles(p, path) && path[0] == o;
      forall k | 0 <= k < |path| ensures p.Has(path[k]) && p.At(path[k]).Normal? {
        if k < |path| - 1 { EdgeEnds(p, path[k + 1], path[k]); } else { EdgeEnds(p, path[1], path[0]); }
      }
      OlderBackwards(p, path, |path| - 1);
    }
    BeginsIffNotReturns(p, o);
  }

  // ---------------------------------------------------------------- circles of any length

  /** n heap-only versions, each naming the next as its update and the last naming the first. */
  function Circle(block: nat, n: nat): (p: Page)
    requires n >= 2
    ensures |p.items| == n && p.block == block
    ensures forall o: nat :: p.Has(o) ==> p.At(o) == Version(block, n, o)
  {
    Page(block, seq(n, i requires 0 <= i < n => Version(block, n, i + 1)))
  }

  function Following(n: nat, o: nat): nat {
    if o < n then o + 1 else 1
  }

  function Version(block: nat, n: nat, o: nat): Item {
    Normal(true, Tup(true, true, 10 + o, 10 + Following(n, o), block, Following(n, o), false, Some(Committed), false))
  }

  lemma {:induction false} CircleEdges(block: nat, n: nat)
    requires n >= 2
    ensures forall s: nat, t: nat :: Edge(Circle(block, n), s, t) <==> 1 <= s <= n && t == Following(n, s)
  {
    var p := Circle(block, n);
    forall s: nat, t: nat ensures Edge(p, s, t) <==> 1 <= s <= n && t == Following(n, s) {
      if p.Has(s) {
        assert p.At(s) == Version(block, n, s) && p.Has(Following(n, s));
        assert p.At(Following(n, s)) == Version(block, n, Following(n, s));
      }
    }
  }

  lemma {:induction false} CirclePageClean(block: nat, n: nat)
    requires n >= 2
    ensures Clean(Circle(block, n))
  {
    var p := Circle(block, n);
    CircleEdges(block, n);
    forall k: nat | p.Has(k) ensures LpClean(p, k) && EdgeClean(p, k) && RootClean(p, k) {
      assert p.At(k) == Version(block, n, k);
      assert Edge(p, if k > 1 then k - 1 else n, k);
      forall t: nat | Edge(p, k, t) ensures Fits(p, k, t) { assert p.At(t) == Version(block, n, t); }
    }
  }

  /** Back from o to 1, and on from n down to o. */
  function AroundFrom(n: nat, o: nat): (r: seq<nat>)
    requires 1 <= o <= n
    ensures |r| == n + 1 && forall i :: 0 <= i <= n ==> r[i] == if i < o then o - i else n + o - i
  {
    seq(n + 1, i requires 0 <= i <= n => if i < o then o - i else n + o - i)
  }

  lemma {:induction false} CircleReturns(block: nat, n: nat, o: nat)
    requires n >= 2 && 1 <= o <= n
    ensures Returns(Circle(block, n), o)
  {
    var p, path := Circle(block, n), AroundFrom(n, o);
    CircleEdges(block, n);
    forall i | 0 <= i < |path| - 1 ensures Edge(p, path[i + 1], path[i]) {
      assert path[i] == Following(n, path[i + 1]);
    }
    assert Circles(p, path);
  }

  /** However long the circle and wherever the page, nothing is reported and no member has a root. */
  lemma {:induction false} CircleIsClean(block: nat, n: nat, o: nat)
    requires n >= 2 && 1 <= o <= n
    ensures Clean(Circle(block, n)) && Wanted(Circle(block, n), o) && Circle(block, n).At(o).tup.heapOnly
    ensures !exists e :: BeginsAt(Circle(block, n), o, e)
  {
    CirclePageClean(block, n);
    CircleReturns(block, n, o);
    BeginsIffNotReturns(Circle(block, n), o);
  }
}
