/**
 Searching a tree of cut keys: the internal test never prunes a page that holds a
 match, so the search returns what testing every value returns.
 */
module GistVarSearch {
  import opened Bytes
  import opened GistTree
  import opened GistVar
  import GistRuns

  datatype Strategy = Less | LessEqual | Equal | GreaterEqual | Greater | NotEqual

  function PrefixMatch(k: Key, q: Str): bool {
    k.lower <= q || k.upper <= q
  }

  predicate Consistent(k: Key, q: Str, st: Strategy, leaf: bool) {
    match st
    case LessEqual => if leaf then Le(k.lower, q) else Le(k.lower, q) || PrefixMatch(k, q)
    case Less => if leaf then Lt(k.lower, q) else Le(k.lower, q) || PrefixMatch(k, q)
    case Equal => if leaf then q == k.lower else (Le(k.lower, q) && Le(q, k.upper)) || PrefixMatch(k, q)
    case Greater => if leaf then Lt(q, k.upper) else Le(q, k.upper) || PrefixMatch(k, q)
    case GreaterEqual => if leaf then Le(q, k.upper) else Le(q, k.upper) || PrefixMatch(k, q)
    case NotEqual => !(q == k.lower && q == k.upper)
  }

  /** What the operator says of a value. */
  predicate Satisfies(v: Str, q: Str, st: Strategy) {
    match st
    case Less => Lt(v, q)
    case LessEqual => Le(v, q)
    case Equal => v == q
    case GreaterEqual => Le(q, v)
    case Greater => Lt(q, v)
    case NotEqual => v != q
  }

  lemma LeafTestExact(v: Str, q: Str, st: Strategy)
    ensures Consistent(LeafKey(v), q, st, true) <==> Satisfies(v, q, st)
  {
  }

  /** For all six strategies: a key above a matching value is never pruned. */
  lemma {:induction false} NeverPrunes(k: Key, v: Str, q: Str, st: Strategy)
    requires Covers(k, v) && Satisfies(v, q, st)
    ensures Consistent(k, q, st, false)
  {
    match st
    case Less => LeTotal(v, q); LeTransitive(k.lower, v, q);
    case LessEqual => LeTransitive(k.lower, v, q);
    case Equal =>
    case GreaterEqual => AboveBound(k, v, q);
    case Greater => LeTotal(v, q); AboveBound(k, v, q);
    case NotEqual =>
      if q == k.lower && q == k.upper {
        if Le(v, k.upper) { LeAntisymmetric(v, q); } else { CpIsLongest(q, q, q); }
      }
  }

  lemma {:induction false} AboveBound(k: Key, v: Str, q: Str)
    requires Covers(k, v) && Le(q, v)
    ensures Le(q, k.upper) || k.upper <= q
  {
    if Le(v, k.upper) {
      LeTransitive(q, v, k.upper);
    } else if !Le(q, k.upper) {
      LeTotal(q, k.upper);
      LeReflexive(k.upper);
      Between(k.upper, k.upper, q, v);
    }
  }

  // ---------------------------------------------------------------- trees of cut keys

  /** How the index makes its keys: a union of ordered keys, cut to what the common prefix leaves. */
  function VarKeys(): Keys<Key, Str> {
    Keys(LeafKey, (es: seq<Key>, k: Key) => es != [] && k == Union(es), (k: Key) => k.Ordered(), Covers)
  }

  lemma {:induction false} UnionLawful(es: seq<Key>)
    requires es != [] && AllValid(VarKeys(), es)
    ensures Union(es).Ordered() && CoversAll(VarKeys(), es, Union(es))
  {
    forall i | 0 <= i < |es| ensures es[i].Ordered() { assert VarKeys().valid(es[i]); }
    HullOrdered(es);
    CutOrdered(Hull(es), Cp(Hull(es).lower, Hull(es).upper) + 2);
    forall i, v | 0 <= i < |es| && Covers(es[i], v) ensures Covers(Union(es), v) {
      UnionCovers(es, i, v);
    }
  }

  /** Through any number of levels, cut unions cover every value below them. */
  lemma {:induction false} VarKeysLawful()
    ensures Lawful(VarKeys())
  {
    var m := VarKeys();
    forall v ensures m.valid(m.leafKey(v)) && m.covers(m.leafKey(v), v) {
      LeReflexive(v);
      LeafCovers(v);
    }
    forall es, k | m.isUnion(es, k) && AllValid(m, es) ensures m.valid(k) && CoversAll(m, es, k) {
      UnionLawful(es);
    }
  }

  /** Wherever keys cover what is below them, every query is answered exactly, in page order. */
  lemma {:induction false} VarSearchExact(t: Tree<Key, Str>, q: Str, st: Strategy)
    requires Sound(t, VarKeys().covers)
    ensures Search(t, v => Consistent(LeafKey(v), q, st, true), k => Consistent(k, q, st, false))
      == Filter(Values(t), v => Satisfies(v, q, st))
  {
    var leaf: Str -> bool := v => Consistent(LeafKey(v), q, st, true);
    var inner: Key -> bool := k => Consistent(k, q, st, false);
    forall k, v | VarKeys().covers(k, v) && leaf(v) ensures inner(k) {
      LeafTestExact(v, q, st);
      NeverPrunes(k, v, q, st);
    }
    SearchIsFilter(t, VarKeys().covers, leaf, inner);
    forall v | v in Values(t) ensures leaf(v) == Satisfies(v, q, st) { LeafTestExact(v, q, st); }
    FilterSame(Values(t), leaf, v => Satisfies(v, q, st));
  }

  // ---------------------------------------------------------------- the index under change

  ghost predicate NoneOutgrown(es: seq<Key>, k: Key) {
    forall i :: 0 <= i < |es| ==> !Outgrows(k.upper, es[i])
  }

  /** The split method's outcome, for halves in which the longer shared cut outgrows no entry. */
  ghost predicate SplitsTo(es: seq<Key>, left: seq<nat>, right: seq<nat>, lk: Key, rk: Key) {
    && |es| >= 2 && SortedPermutation(es, left + right) && |left| == |es| / 2
    && GistRuns.InRange(|es|, left) && GistRuns.InRange(|es|, right) && right != []
    && (var l, r := Chosen(es, left), Chosen(es, right);
        lk == SideKey(l, r) && rk == SideKey(r, l) && NoneOutgrown(l, lk) && NoneOutgrown(r, rk))
  }

  ghost function VarMethod(): GistRuns.Method<Key, Str> {
    GistRuns.Method(VarKeys(), SplitsTo)
  }

  lemma {:induction false} SideLawful(es: seq<Key>, side: seq<nat>, other: seq<nat>)
    requires AllValid(VarKeys(), es) && side != [] && other != []
    requires GistRuns.InRange(|es|, side) && GistRuns.InRange(|es|, other)
    requires NoneOutgrown(Chosen(es, side), SideKey(Chosen(es, side), Chosen(es, other)))
    ensures var k := SideKey(Chosen(es, side), Chosen(es, other));
            k.Ordered() && GistRuns.CoversChosen(VarKeys(), es, side, k)
  {
    var l, r := Chosen(es, side), Chosen(es, other);
    var k := SideKey(l, r);
    forall i | 0 <= i < |l| ensures l[i].Ordered() { assert VarKeys().valid(es[side[i]]); }
    HullOrdered(l);
    CutOrdered(Hull(l), SplitLength(Hull(l), Hull(r)));
    forall i, v | 0 <= i < |side| && Covers(es[side[i]], v) ensures Covers(k, v) {
      SplitCoversIff(l, r, i);
      assert Covers(l[i], v);
    }
  }

  /** Unions and splits that outgrow no entry keep keys ordered and covering, and lose no entry. */
  lemma {:induction false} VarMethodLawful()
    ensures GistRuns.LawfulMethod(VarMethod())
  {
    var m := VarMethod();
    VarKeysLawful();
    forall es, left, right, lk, rk | m.isSplit(es, left, right, lk, rk) && AllValid(m.keys, es)
      ensures GistRuns.SplitLaw(m, es, left, right, lk, rk)
    {
      SideLawful(es, left, right);
      SideLawful(es, right, left);
    }
  }

  lemma {:induction false} LeafSideNotOutgrown(values: seq<Str>, side: seq<nat>, k: Key)
    requires GistRuns.InRange(|values|, side)
    ensures NoneOutgrown(Chosen(LeafKeys(values), side), k)
  {
    forall i | 0 <= i < |side| ensures !Outgrows(k.upper, Chosen(LeafKeys(values), side)[i]) {
      LeafNeverOutgrown(k.upper, values[side[i]]);
    }
  }

  lemma HalvesInRange(n: nat, order: seq<nat>, half: nat)
    requires half <= |order| && GistRuns.InRange(n, order)
    ensures GistRuns.InRange(n, order[..half]) && GistRuns.InRange(n, order[half..]) && order[..half] + order[half..] == order
  {
  }

  /** What the split method returns for a leaf page is always such an outcome. */
  lemma {:induction false} LeafSplitAllowed(values: seq<Str>, order: seq<nat>)
    requires |values| >= 2 && SortedPermutation(LeafKeys(values), order)
    ensures var es, left, right := LeafKeys(values), order[..|values| / 2], order[|values| / 2..];
            && left != [] && right != [] && GistRuns.InRange(|es|, left) && GistRuns.InRange(|es|, right)
            && SplitsTo(es, left, right, SideKey(Chosen(es, left), Chosen(es, right)), SideKey(Chosen(es, right), Chosen(es, left)))
  {
    var es, left, right := LeafKeys(values), order[..|values| / 2], order[|values| / 2..];
    HalvesInRange(|es|, order, |values| / 2);
    LeafSideNotOutgrown(values, left, SideKey(Chosen(es, left), Chosen(es, right)));
    LeafSideNotOutgrown(values, right, SideKey(Chosen(es, right), Chosen(es, left)));
  }

  /**
   Every tree the index goes through, from one built by unions, by inserts that adjust
   their downlinks, leaf splits, inner splits that outgrow no entry, removals and
   unlinked pages: every query is answered exactly, and the values are those that were
   there or inserted, less those removed.
   */
  lemma {:induction false} VarRunsExact(t: Tree<Key, Str>, cs: seq<GistRuns.Change<Key, Str>>, end: Tree<Key, Str>, q: Str, st: Strategy)
    requires UnionBuilt(t, VarKeys()) && GistRuns.Runs(VarMethod(), t, cs, end)
    ensures Search(end, v => Consistent(LeafKey(v), q, st, true), k => Consistent(k, q, st, false))
      == Filter(Values(end), v => Satisfies(v, q, st))
    ensures forall v :: GistRuns.Occurs(Values(end), v) + GistRuns.Removes(VarMethod(), t, cs, end, v)
                     == GistRuns.Occurs(Values(t), v) + GistRuns.Inserts(cs, v)
  {
    var m := VarMethod();
    VarMethodLawful();
    GistRuns.UnionBuiltGood(m, t);
    GistRuns.RunKeeps(m, t, cs, end);
    VarSearchExact(end, q, st);
    forall v ensures GistRuns.Occurs(Values(end), v) + GistRuns.Removes(m, t, cs, end, v)
                  == GistRuns.Occurs(Values(t), v) + GistRuns.Inserts(cs, v)
    {
      GistRuns.RunConserves(m, t, cs, end, v);
    }
  }

  // ---------------------------------------------------------------- inner splits that outgrow an entry

  /** A side's key that outgrows an entry: an equality search prunes the value lost exactly if the lower bound is no prefix of it. */
  lemma {:induction false} LostIsPrunedIff(side: seq<Key>, other: seq<Key>, i: nat)
    requires other != [] && i < |side| && side[i].Ordered() && Outgrows(SideKey(side, other).upper, side[i])
    ensures var k := SideKey(side, other);
            var v := LostValue(k.upper, side[i]);
            Covers(side[i], v) && (Consistent(k, v, Equal, false) <==> k.lower <= v)
  {
    var k, e := SideKey(side, other), side[i];
    var v := LostValue(k.upper, e);
    OutgrownLoses(k, e);
    CutHullLower(side, SplitLength(Hull(side), Hull(other)), i, v);
    LeReflexive(v);
    assert k.upper <= v ==> k.upper == v;
  }

  // "aa", "abc", "abc\xff\xff", "abcde", "abcdf" and "x123"
  const AA: Str := [97, 97]
  const ABC: Str := [97, 98, 99]
  const ABCFF: Str := [97, 98, 99, 255, 255]
  const ABCDE: Str := [97, 98, 99, 100, 101]
  const ABCDF: Str := [97, 98, 99, 100, 102]
  const X123: Str := [120, 49, 50, 51]

  /** Strings that first differ at byte n. */
  lemma {:induction false} Differ(a: Str, b: Str, n: nat)
    requires n < |a| && n < |b| && a[..n] == b[..n] && a[n] < b[n]
    ensures Le(a, b) && !Le(b, a) && Cp(a, b) == n
  {
    if n > 0 {
      assert a[0] == a[..n][0] == b[..n][0] == b[0];
      assert a[1..][..n - 1] == a[..n][1..] == b[..n][1..] == b[1..][..n - 1];
      Differ(a[1..], b[1..], n - 1);
    }
  }

  lemma SameStrings()
    ensures Le(X123, X123) && Cp(X123, X123) == 4 && !Le(ABCDF, ABC)
  {
    CpIsLongest(X123, X123, X123);
    LeReflexive(X123);
    LeBelowPrefix(ABC, [100, 102], []);
    assert ABCDF == ABC + [100, 102] && ABC == ABC + [];
  }

  /** The index before: four leaf pages under a root, every key the union of its page. */
  function Before(): Tree<Key, Str> {
    Inner([Key(AA, ABC), Key(ABCDE, ABCDF), LeafKey(X123), LeafKey(X123)],
          [Page([AA, ABCFF]), Page([ABCDE, ABCDF]), Page([X123]), Page([X123])])
  }

  lemma PairUnion(a: Str, b: Str, n: nat)
    requires n < |a| && n < |b| && a[..n] == b[..n] && a[n] < b[n]
    ensures Union([LeafKey(a), LeafKey(b)]) == Key(Cut(a, n + 2), Cut(b, n + 2))
  {
    Differ(a, b, n);
    PairHull(LeafKey(a), LeafKey(b));
  }

  lemma PageOfTwo(a: Str, b: Str, k: Key)
    requires Union([LeafKey(a), LeafKey(b)]) == k
    ensures VarKeys().isUnion(Entries(Page([a, b]), VarKeys()), k)
  {
    assert Entries(Page([a, b]), VarKeys()) == [LeafKey(a), LeafKey(b)];
  }

  lemma PageOfOne(a: Str)
    ensures VarKeys().isUnion(Entries(Page([a]), VarKeys()), LeafKey(a))
  {
    assert Entries(Page([a]), VarKeys()) == [LeafKey(a)];
    CpIsLongest(a, a, a);
    assert Cp(a, a) == |a| && Cut(a, |a| + 2) == a;
    assert Union([LeafKey(a)]) == LeafKey(a);
  }

  lemma FourPages(k: Key, p: seq<Str>, l: Key, q: seq<Str>, m: Key, r: seq<Str>)
    requires VarKeys().isUnion(Entries(Page(p), VarKeys()), k) && VarKeys().isUnion(Entries(Page(q), VarKeys()), l)
    requires VarKeys().isUnion(Entries(Page(r), VarKeys()), m)
    ensures UnionBuilt(Inner([k, l, m, m], [Page(p), Page(q), Page(r), Page(r)]), VarKeys())
  {
  }

  lemma BeforeUnionBuilt()
    ensures UnionBuilt(Before(), VarKeys())
  {
    PairUnion(AA, ABCFF, 1);
    PairUnion(ABCDE, ABCDF, 4);
    assert Cut(ABCFF, 3) == ABC && Cut(AA, 3) == AA && Cut(ABCDE, 6) == ABCDE && Cut(ABCDF, 6) == ABCDF;
    PageOfTwo(AA, ABCFF, Key(AA, ABC));
    PageOfTwo(ABCDE, ABCDF, Key(ABCDE, ABCDF));
    PageOfOne(X123);
    FourPages(Key(AA, ABC), [AA, ABCFF], Key(ABCDE, ABCDF), [ABCDE, ABCDF], LeafKey(X123), [X123]);
  }

  lemma BeforeSorted()
    ensures SortedPermutation(Before().keys, [0, 1, 2, 3])
  {
    Differ(AA, ABCDE, 1);
    Differ(AA, X123, 0);
    Differ(ABCDE, X123, 0);
    SameStrings();
    InOrder(Before().keys);
  }

  lemma InOrder(es: seq<Key>)
    requires |es| == 4
    requires SortsBefore(es[0], es[1]) && SortsBefore(es[0], es[2]) && SortsBefore(es[0], es[3])
    requires SortsBefore(es[1], es[2]) && SortsBefore(es[1], es[3]) && SortsBefore(es[2], es[3])
    ensures SortedPermutation(es, [0, 1, 2, 3])
  {
  }

  lemma SplitKeysOfBefore()
    ensures var es := Before().keys;
            SideKey([es[0], es[1]], [es[2], es[3]]) == Key(AA, ABCDF) && SideKey([es[2], es[3]], [es[0], es[1]]) == LeafKey(X123)
  {
    LeftHull();
    RightHull();
    Differ(AA, ABCDF, 1);
    SameStrings();
  }

  lemma LeftHull()
    ensures Hull([Key(AA, ABC), Key(ABCDE, ABCDF)]) == Key(AA, ABCDF)
  {
    Differ(AA, ABCDE, 1);
    SameStrings();
    PairHull(Key(AA, ABC), Key(ABCDE, ABCDF));
  }

  lemma RightHull()
    ensures Hull([LeafKey(X123), LeafKey(X123)]) == LeafKey(X123)
  {
    SameStrings();
    PairHull(LeafKey(X123), LeafKey(X123));
  }

  lemma NeitherHalfConsistent()
    ensures !Consistent(Key(AA, ABCDF), ABCFF, Equal, false) && !Consistent(LeafKey(X123), ABCFF, Equal, false)
  {
    Differ(ABCDF, ABCFF, 3);
    Differ(ABCFF, X123, 0);
    assert ABCFF[1] != AA[1] && ABCFF[3] != ABCDF[3] && ABCFF[0] != X123[0];
  }

  /** The root split of a tree of four pages in order: two go left, two go right. */
  method SplitRoot(t: Tree<Key, Str>) returns (s: Split, after: Tree<Key, Str>)
    requires t.Inner? && |t.keys| == |t.children| == 4 && SortedPermutation(t.keys, [0, 1, 2, 3])
    ensures s.left == [0, 1] && s.right == [2, 3] && SortedPermutation(t.keys, s.left + s.right)
    ensures s.ldatum == SideKey([t.keys[0], t.keys[1]], [t.keys[2], t.keys[3]])
    ensures s.rdatum == SideKey([t.keys[2], t.keys[3]], [t.keys[0], t.keys[1]])
    ensures SplitOf(t, s, after)
  {
    var es := t.keys;
    s := PickSplit(es, [0, 1, 2, 3]);
    assert s.left == [0, 1] && s.right == [2, 3] && s.left + s.right == [0, 1, 2, 3];
    assert Chosen(es, s.left) == [es[0], es[1]] && Chosen(es, s.right) == [es[2], es[3]];
    after := Inner([s.ldatum, s.rdatum], [GistRuns.Half(t, s.left), GistRuns.Half(t, s.right)]);
  }

  /** A search misses an indexed value. */
  ghost predicate Misses(t: Tree<Key, Str>, v: Str) {
    Below(t, v) && Search(t, x => Consistent(LeafKey(x), v, Equal, true), k => Consistent(k, v, Equal, false)) == []
  }

  /** The index before the split, as the split method meets it. */
  lemma BeforeFacts(t: Tree<Key, Str>)
    requires t == Before()
    ensures UnionBuilt(t, VarKeys()) && !Misses(t, ABCFF)
    ensures t.Inner? && |t.keys| == |t.children| == 4 && SortedPermutation(t.keys, [0, 1, 2, 3])
  {
    BeforeUnionBuilt();
    BeforeFinds(t);
    BeforeSorted();
  }

  lemma AfterMisses(t: Tree<Key, Str>, s: Split, after: Tree<Key, Str>)
    requires t == Before() && s.left == [0, 1] && s.right == [2, 3] && SplitOf(t, s, after)
    requires s.ldatum == SideKey([t.keys[0], t.keys[1]], [t.keys[2], t.keys[3]])
    requires s.rdatum == SideKey([t.keys[2], t.keys[3]], [t.keys[0], t.keys[1]])
    ensures Misses(after, ABCFF)
  {
    SplitKeysOfBefore();
    BelowLeftHalf(after.children[0], after);
    NeitherHalfConsistent();
    AllPruned(after, x => Consistent(LeafKey(x), ABCFF, Equal, true), k => Consistent(k, ABCFF, Equal, false));
  }

  /**
   An index whose root is split by the split method: "abc\xff\xff" stays on its page, the
   left half's key outgrows that page's key, and a search for the value returns nothing.
   */
  method InnerSplitMisses(before: Tree<Key, Str>) returns (s: Split, after: Tree<Key, Str>)
    requires before == Before()
    ensures UnionBuilt(before, VarKeys()) && !Misses(before, ABCFF)
    ensures SplitOf(before, s, after) && SortedPermutation(before.keys, s.left + s.right)
    ensures Misses(after, ABCFF)
  {
    BeforeFacts(before);
    s, after := SplitRoot(before);
    AfterMisses(before, s, after);
  }

  lemma BelowLeftHalf(l: Tree<Key, Str>, after: Tree<Key, Str>)
    requires l == GistRuns.Half(Before(), [0, 1]) && after.Inner? && |after.children| == 2 && after.children[0] == l
    ensures Below(after, ABCFF)
  {
    assert l.children[0] == Page([AA, ABCFF]);
    assert ABCFF == [AA, ABCFF][1];
    assert Below(l.children[0], ABCFF);
    assert Below(l, ABCFF);
    assert Below(after.children[0], ABCFF);
  }

  lemma AllPruned<K, V>(t: Tree<K, V>, leaf: V -> bool, inner: K -> bool)
    requires t.Inner? && |t.keys| == |t.children| == 2 && !inner(t.keys[0]) && !inner(t.keys[1])
    ensures Search(t, leaf, inner) == []
  {
    assert SearchInner(t, 1, leaf, inner) == [];
  }

  /** after is t with its root split in two sorted halves, with the keys the split method gives them. */
  ghost predicate SplitOf(t: Tree<Key, Str>, s: Split, after: Tree<Key, Str>) {
    && t.Inner? && |t.keys| == |t.children| && GistRuns.InRange(|t.keys|, s.left) && GistRuns.InRange(|t.keys|, s.right)
    && s.left != [] && s.right != []
    && s.ldatum == SideKey(Chosen(t.keys, s.left), Chosen(t.keys, s.right))
    && s.rdatum == SideKey(Chosen(t.keys, s.right), Chosen(t.keys, s.left))
    && after == Inner([s.ldatum, s.rdatum], [GistRuns.Half(t, s.left), GistRuns.Half(t, s.right)])
  }

  /** Before the split the search finds the value. */
  lemma BeforeFinds(t: Tree<Key, Str>)
    requires t == Before() && UnionBuilt(t, VarKeys())
    ensures !Misses(t, ABCFF)
  {
    VarKeysLawful();
    UnionBuiltSound(t, VarKeys());
    VarSearchExact(t, ABCFF, Equal);
    ValuesOfBefore();
    FilterHolds(Values(t), v => Satisfies(v, ABCFF, Equal), ABCFF);
  }

  lemma {:induction false} FilterHolds<V>(vs: seq<V>, p: V -> bool, v: V)
    requires v in vs && p(v)
    ensures v in Filter(vs, p)
  {
    if vs[|vs| - 1] != v { FilterHolds(vs[..|vs| - 1], p, v); }
  }

  lemma ValuesOfBefore()
    ensures ABCFF in Values(Before())
  {
    var t := Before();
    assert ValuesInner(t, 1) == ValuesInner(t, 0) + Values(t.children[0]);
    assert ABCFF in ValuesInner(t, 1);
    assert ABCFF in ValuesInner(t, 2) && ABCFF in ValuesInner(t, 3);
  }
}
