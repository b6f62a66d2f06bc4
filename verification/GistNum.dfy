/**
 Fixed-width keys: an interval over an ordered type, its union, split, search test
 and distance. Values are reals, ordered and subtracted as every such type is.
 */
module GistNum {
  import opened GistTree
  import GistNearest
  import GistRuns
  import opened Wrappers

  datatype Key = Key(lower: real, upper: real)

  function LeafKey(v: real): Key {
    Key(v, v)
  }

  predicate Covers(k: Key, v: real) {
    k.lower <= v <= k.upper
  }

  /** Bounds taken from the chosen entries, and past none of them. */
  ghost predicate IsHull(es: seq<Key>, chosen: seq<nat>, k: Key) {
    && chosen != [] && (forall i :: 0 <= i < |chosen| ==> chosen[i] < |es|)
    && (exists i :: 0 <= i < |chosen| && es[chosen[i]].lower == k.lower)
    && (exists i :: 0 <= i < |chosen| && es[chosen[i]].upper == k.upper)
    && (forall i :: 0 <= i < |chosen| ==> k.lower <= es[chosen[i]].lower && es[chosen[i]].upper <= k.upper)
  }

  function All(n: nat): (r: seq<nat>)
    ensures |r| == n && forall i :: 0 <= i < n ==> r[i] == i
  {
    seq(n, i => i)
  }

  /** The union method. */
  method Union(es: seq<Key>) returns (out: Key)
    requires es != []
    ensures IsHull(es, All(|es|), out)
  {
    out := es[0];
    assert All(1)[0] == 0;
    var i := 1;
    while i < |es|
      invariant 1 <= i <= |es| && IsHull(es, All(i), out)
    {
      Extends(es, All(i), out, i);
      assert All(i) + [i] == All(i + 1);
      if out.lower > es[i].lower { out := out.(lower := es[i].lower); }
      if out.upper < es[i].upper { out := out.(upper := es[i].upper); }
      i := i + 1;
    }
  }

  function Grown(k: Key, e: Key): Key {
    Key(if k.lower > e.lower then e.lower else k.lower, if k.upper < e.upper then e.upper else k.upper)
  }

  lemma {:induction false} Extends(es: seq<Key>, chosen: seq<nat>, k: Key, next: nat)
    requires IsHull(es, chosen, k) && next < |es|
    ensures IsHull(es, chosen + [next], Grown(k, es[next]))
  {
    var r, c := Grown(k, es[next]), chosen + [next];
    assert c[|chosen|] == next;
    var i :| 0 <= i < |chosen| && es[chosen[i]].lower == k.lower;
    var j :| 0 <= j < |chosen| && es[chosen[j]].upper == k.upper;
    assert es[c[if r.lower == k.lower then i else |chosen|]].lower == r.lower;
    assert es[c[if r.upper == k.upper then j else |chosen|]].upper == r.upper;
  }

  // ---------------------------------------------------------------- split

  datatype Split = Split(left: seq<nat>, right: seq<nat>, ldatum: Option<Key>, rdatum: Option<Key>)

  predicate SortsBefore(a: Key, b: Key) {
    a.lower < b.lower || (a.lower == b.lower && a.upper <= b.upper)
  }

  /** What sorting the page by lower, then upper bound leaves: the old positions in their new order. */
  predicate SortedPermutation(es: seq<Key>, order: seq<nat>) {
    && |order| == |es|
    && (forall i :: 0 <= i < |order| ==> order[i] < |es|)
    && (forall i, j :: 0 <= i < j < |order| ==> order[i] != order[j])
    && (forall i, j :: 0 <= i < j < |order| ==> SortsBefore(es[order[i]], es[order[j]]))
  }

  /** The datum of one side: absent exactly while the side is empty, otherwise its exact hull. */
  ghost predicate SideDatum(es: seq<Key>, side: seq<nat>, datum: Option<Key>) {
    (datum.None? <==> side == []) && (datum.Some? ==> IsHull(es, side, datum.value))
  }

  method BinUnion(u: Option<Key>, es: seq<Key>, ghost side: seq<nat>, next: nat) returns (r: Option<Key>)
    requires SideDatum(es, side, u) && next < |es|
    ensures SideDatum(es, side + [next], r)
    ensures r == if u.None? then Some(es[next]) else Some(Grown(u.value, es[next]))
  {
    match u
    case None =>
      r := Some(es[next]);
      assert (side + [next])[0] == next;
    case Some(k) =>
      Extends(es, side, k, next);
      r := Some(Grown(k, es[next]));
  }

  /** The lower half by position in the sorted order goes left, the rest right. */
  method PickSplit(es: seq<Key>, order: seq<nat>) returns (v: Split)
    requires SortedPermutation(es, order)
    ensures v.left == order[..|es| / 2] && v.right == order[|es| / 2..]
    ensures SideDatum(es, v.left, v.ldatum) && SideDatum(es, v.right, v.rdatum)
  {
    v := Halve(es, order, |es| / 2);
  }

  /** The first i entries are on their sides. */
  ghost predicate Halves(order: seq<nat>, half: nat, i: nat, left: seq<nat>, right: seq<nat>)
    requires half <= |order| && i <= |order|
  {
    var n := if i < half then i else half;
    left == order[..n] && right == order[n..i]
  }

  lemma HalvesNext(order: seq<nat>, half: nat, i: nat, left: seq<nat>, right: seq<nat>)
    requires half <= |order| && i < |order| && Halves(order, half, i, left, right)
    ensures i < half ==> Halves(order, half, i + 1, left + [order[i]], right)
    ensures i >= half ==> Halves(order, half, i + 1, left, right + [order[i]])
  {
    SliceNext(order, if i < half then i else half, i);
  }

  lemma HalvesEnd(order: seq<nat>, half: nat, left: seq<nat>, right: seq<nat>)
    requires half <= |order| && Halves(order, half, |order|, left, right)
    ensures left == order[..half] && right == order[half..]
  {
  }

  /** The union of one side so far; None while it is empty. */
  function SideHull(es: seq<Key>, side: seq<nat>): Option<Key> {
    if side == [] || side[|side| - 1] >= |es| then None
    else
      var e := es[side[|side| - 1]];
      match SideHull(es, side[..|side| - 1]) case None => Some(e) case Some(k) => Some(Grown(k, e))
  }

  lemma SideHullNext(es: seq<Key>, side: seq<nat>, next: nat)
    requires next < |es|
    ensures SideHull(es, side + [next]) ==
      match SideHull(es, side) case None => Some(es[next]) case Some(k) => Some(Grown(k, es[next]))
  {
    assert (side + [next])[..|side|] == side;
  }

  ghost predicate InRange(es: seq<Key>, side: seq<nat>) {
    forall i :: 0 <= i < |side| ==> side[i] < |es|
  }

  lemma {:induction false} SideHullDatum(es: seq<Key>, side: seq<nat>)
    requires InRange(es, side)
    ensures SideDatum(es, side, SideHull(es, side))
  {
    if side != [] {
      var front, last := side[..|side| - 1], side[|side| - 1];
      SideHullDatum(es, front);
      assert side == front + [last];
      if front == [] { assert side[0] == last; } else { Extends(es, front, SideHull(es, front).value, last); }
    }
  }

  method Halve(es: seq<Key>, order: seq<nat>, half: nat) returns (v: Split)
    requires half <= |order| && InRange(es, order)
    ensures v.left == order[..half] && v.right == order[half..]
    ensures SideDatum(es, v.left, v.ldatum) && SideDatum(es, v.right, v.rdatum)
  {
    v := Split([], [], None, None);
    var i := 0;
    while i < |order|
      invariant 0 <= i <= |order| && Halves(order, half, i, v.left, v.right)
      invariant v.ldatum == SideHull(es, v.left) && v.rdatum == SideHull(es, v.right)
    {
      HalvesNext(order, half, i, v.left, v.right);
      SidesInRange(es, order, half, i, v.left, v.right);
      if i + 1 <= half {
        var d := Grow(es, v.left, v.ldatum, order[i]);
        v := Split(v.left + [order[i]], v.right, d, v.rdatum);
      } else {
        var d := Grow(es, v.right, v.rdatum, order[i]);
        v := Split(v.left, v.right + [order[i]], v.ldatum, d);
      }
      i := i + 1;
    }
    HalvesEnd(order, half, v.left, v.right);
    SidesInRange(es, order, half, |order|, v.left, v.right);
    SideHullDatum(es, v.left);
    SideHullDatum(es, v.right);
  }

  lemma SidesInRange(es: seq<Key>, order: seq<nat>, half: nat, i: nat, left: seq<nat>, right: seq<nat>)
    requires half <= |order| && i <= |order| && InRange(es, order) && Halves(order, half, i, left, right)
    ensures InRange(es, left) && InRange(es, right)
  {
  }

  /** One entry more on one side. */
  method Grow(es: seq<Key>, ghost side: seq<nat>, u: Option<Key>, next: nat) returns (r: Option<Key>)
    requires next < |es| && InRange(es, side) && u == SideHull(es, side)
    ensures r == SideHull(es, side + [next])
  {
    SideHullDatum(es, side);
    SideHullNext(es, side, next);
    r := BinUnion(u, es, side, next);
  }

  /** Every entry goes to one side only, and no left lower bound passes a right one. */
  lemma {:induction false} SplitPartitions(es: seq<Key>, order: seq<nat>, left: seq<nat>, right: seq<nat>)
    requires SortedPermutation(es, order) && left == order[..|es| / 2] && right == order[|es| / 2..]
    ensures forall x: nat :: x < |es| ==> (x in left) != (x in right)
    ensures forall i, j :: 0 <= i < |left| && 0 <= j < |right| ==> es[left[i]].lower <= es[right[j]].lower
  {
    forall x: nat | x < |es| ensures (x in left) != (x in right) {
      EveryPosition(order, |es|, x);
      assert order == left + right;
    }
    forall i, j | 0 <= i < |left| && 0 <= j < |right| ensures es[left[i]].lower <= es[right[j]].lower {
      assert SortsBefore(es[order[i]], es[order[|left| + j]]);
    }
  }

  /** n distinct numbers below n are all of them. */
  lemma {:induction false} EveryPosition(order: seq<nat>, n: nat, x: nat)
    requires |order| == n && x < n
    requires forall i :: 0 <= i < |order| ==> order[i] < n
    requires forall i, j :: 0 <= i < j < |order| ==> order[i] != order[j]
    ensures x in order
  {
    if x !in order {
      var used := SetOf(order);
      SetSize(order);
      assert used <= NumbersBelow(n) - {x};
      Subset(used, NumbersBelow(n) - {x});
    }
  }

  ghost function SetOf(s: seq<nat>): set<nat> {
    set i | 0 <= i < |s| :: s[i]
  }

  lemma {:induction false} SetSize(s: seq<nat>)
    requires forall i, j :: 0 <= i < j < |s| ==> s[i] != s[j]
    ensures |SetOf(s)| == |s|
  {
    if s != [] {
      var n := |s| - 1;
      SetSize(s[..n]);
      assert SetOf(s) == SetOf(s[..n]) + {s[n]};
    }
  }

  ghost function NumbersBelow(n: nat): (r: set<nat>)
    ensures |r| == n && forall y: nat :: y in r <==> y < n
  {
    if n == 0 then {} else NumbersBelow(n - 1) + {n - 1}
  }

  lemma {:induction false} Subset(a: set<nat>, b: set<nat>)
    requires a <= b
    ensures |a| <= |b|
  {
    if a != {} {
      var x :| x in a;
      Subset(a - {x}, b - {x});
    }
  }

  // ---------------------------------------------------------------- search

  datatype Strategy = Less | LessEqual | Equal | GreaterEqual | Greater | NotEqual

  predicate Consistent(k: Key, q: real, st: Strategy, leaf: bool) {
    match st
    case LessEqual => q >= k.lower
    case Less => if leaf then q > k.lower else q >= k.lower
    case Equal => if leaf then q == k.lower else k.lower <= q <= k.upper
    case Greater => if leaf then q < k.upper else q <= k.upper
    case GreaterEqual => q <= k.upper
    case NotEqual => !(q == k.lower && q == k.upper)
  }

  predicate Satisfies(v: real, q: real, st: Strategy) {
    match st
    case Less => v < q
    case LessEqual => v <= q
    case Equal => v == q
    case GreaterEqual => v >= q
    case Greater => v > q
    case NotEqual => v != q
  }

  /** The internal test accepts exactly the intervals that can hold a match, strict bounds read as weak ones. */
  lemma ConsistentIff(k: Key, q: real, st: Strategy)
    requires k.lower <= k.upper
    ensures Consistent(k, q, st, false)
      <==> exists v :: Covers(k, v) && Satisfies(v, q, if st == Less then LessEqual else if st == Greater then GreaterEqual else st)
  {
    assert Covers(k, k.lower) && Covers(k, k.upper) && (k.lower <= q <= k.upper ==> Covers(k, q));
  }

  function Distance(k: Key, q: real): real {
    if q <= k.lower then Apart(q, k.lower)
    else if q >= k.upper then Apart(q, k.upper)
    else 0.0
  }

  function Apart(a: real, b: real): real {
    if a < b then b - a else a - b
  }

  /** The distance of a key is the least distance any value it covers can have. */
  lemma DistanceIsLeast(k: Key, q: real)
    requires k.lower <= k.upper
    ensures forall v :: Covers(k, v) ==> Distance(k, q) <= Apart(q, v)
    ensures exists v :: Covers(k, v) && Distance(k, q) == Apart(q, v)
    ensures forall v :: Distance(LeafKey(v), q) == Apart(q, v)
  {
    var v := if q <= k.lower then k.lower else if q >= k.upper then k.upper else q;
    assert Covers(k, v) && Distance(k, q) == Apart(q, v);
  }

  // ---------------------------------------------------------------- trees

  /** How the index makes its keys: the exact hull of a page's entries. */
  ghost function NumKeys(): Keys<Key, real> {
    Keys(LeafKey, (es: seq<Key>, k: Key) => HullOf(es, k), (k: Key) => true, Covers)
  }

  /** A computable form of the exact hull of all entries. */
  predicate HullOf(es: seq<Key>, k: Key) {
    && (exists i :: 0 <= i < |es| && es[i].lower == k.lower)
    && (exists i :: 0 <= i < |es| && es[i].upper == k.upper)
    && (forall i :: 0 <= i < |es| ==> k.lower <= es[i].lower && es[i].upper <= k.upper)
  }

  lemma UnionIsHullOf(es: seq<Key>, k: Key)
    requires IsHull(es, All(|es|), k)
    ensures HullOf(es, k)
  {
    var all := All(|es|);
    forall i | 0 <= i < |es| ensures k.lower <= es[i].lower && es[i].upper <= k.upper { assert all[i] == i; }
  }

  lemma NumKeysLawful()
    ensures Lawful(NumKeys())
  {
  }

  /** Wherever keys cover what is below them, every query is answered exactly, in page order. */
  lemma {:induction false} NumSearchExact(t: Tree<Key, real>, q: real, st: Strategy)
    requires Sound(t, NumKeys().covers)
    ensures Search(t, v => Consistent(LeafKey(v), q, st, true), k => Consistent(k, q, st, false))
      == Filter(Values(t), v => Satisfies(v, q, st))
  {
    var leaf: real -> bool := v => Consistent(LeafKey(v), q, st, true);
    var inner: Key -> bool := k => Consistent(k, q, st, false);
    SearchIsFilter(t, NumKeys().covers, leaf, inner);
    FilterSame(Values(t), leaf, v => Satisfies(v, q, st));
  }

  /** What an ordered scan by distance asks of these keys. */
  ghost function ByDistance(q: real): GistNearest.Query<Key, real> {
    GistNearest.Query(v => true, k => true, v => Apart(q, v), k => Distance(k, q), Covers)
  }

  /** A nearest-first scan may trust keys that cover what is below them. */
  lemma {:induction false} NumNearestAdmissible(t: Tree<Key, real>, q: real)
    requires Sound(t, NumKeys().covers)
    ensures GistNearest.Admissible(ByDistance(q)) && Sound(t, ByDistance(q).covers)
  {
  }

  // ---------------------------------------------------------------- the index under change

  /** The split method's outcome. */
  ghost predicate SplitsTo(es: seq<Key>, left: seq<nat>, right: seq<nat>, lk: Key, rk: Key) {
    && SortedPermutation(es, left + right) && |left| == |es| / 2
    && IsHull(es, left, lk) && IsHull(es, right, rk)
  }

  ghost function NumMethod(): GistRuns.Method<Key, real> {
    GistRuns.Method(NumKeys(), SplitsTo)
  }

  lemma NumMethodLawful()
    ensures GistRuns.LawfulMethod(NumMethod())
  {
    NumKeysLawful();
    var m := NumMethod();
    forall es, left, right, lk, rk | m.isSplit(es, left, right, lk, rk) && AllValid(m.keys, es)
      ensures GistRuns.SplitLaw(m, es, left, right, lk, rk)
    {
    }
  }

  /**
   Every tree the index goes through by inserts, splits, removals and unlinked pages,
   keys that deletions left too wide included: searches are exact, a nearest-first scan
   may trust the keys, and no value is lost.
   */
  lemma {:induction false} NumRunsExact(t: Tree<Key, real>, cs: seq<GistRuns.Change<Key, real>>, end: Tree<Key, real>, q: real, st: Strategy)
    requires UnionBuilt(t, NumKeys()) && GistRuns.Runs(NumMethod(), t, cs, end)
    ensures Search(end, v => Consistent(LeafKey(v), q, st, true), k => Consistent(k, q, st, false))
      == Filter(Values(end), v => Satisfies(v, q, st))
    ensures GistNearest.Admissible(ByDistance(q)) && Sound(end, ByDistance(q).covers)
    ensures forall v :: GistRuns.Occurs(Values(end), v) + GistRuns.Removes(NumMethod(), t, cs, end, v)
                     == GistRuns.Occurs(Values(t), v) + GistRuns.Inserts(cs, v)
  {
    var m := NumMethod();
    NumMethodLawful();
    GistRuns.UnionBuiltGood(m, t);
    GistRuns.RunKeeps(m, t, cs, end);
    NumSearchExact(end, q, st);
    NumNearestAdmissible(end, q);
    forall v ensures GistRuns.Occurs(Values(end), v) + GistRuns.Removes(m, t, cs, end, v)
                  == GistRuns.Occurs(Values(t), v) + GistRuns.Inserts(cs, v)
    {
      GistRuns.RunConserves(m, t, cs, end, v);
    }
  }
}
