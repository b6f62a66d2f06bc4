/**
 Variable-length GiST keys for byte strings: an interval, cut back to little more
 than the common prefix of its ends, and the search that makes up for the cut.
 */
module GistVar {
  import opened Bytes
  import opened Wrappers

  /** lower and upper bound; a leaf entry has both equal to its value. */
  datatype Key = Key(lower: Str, upper: Str) {
    predicate Ordered() {
      Le(lower, upper)
    }
  }

  function LeafKey(v: Str): Key {
    Key(v, v)
  }

  // ---------------------------------------------------------------- common prefix, cut, union

  /** The scan for the first differing byte; single-byte encoding. */
  method NodeCpLen(k: Key) returns (i: nat)
    ensures i == Cp(k.lower, k.upper)
  {
    var ml := if |k.lower| < |k.upper| then |k.lower| else |k.upper|;
    i := 0;
    while i < ml
      invariant 0 <= i <= ml
      invariant Cp(k.lower, k.upper) == i + Cp(k.lower[i..], k.upper[i..])
    {
      if k.lower[i] != k.upper[i] { return; }
      assert k.lower[i..][1..] == k.lower[i + 1..] && k.upper[i..][1..] == k.upper[i + 1..];
      i := i + 1;
    }
  }

  /** Keep one byte more than cpf of either bound. */
  function Truncate(k: Key, cpf: nat): Key {
    Key(Cut(k.lower, cpf + 1), Cut(k.upper, cpf + 1))
  }

  function BinUnion(u: Option<Key>, e: Key): Key {
    if u.None? then e
    else Key(if !Le(u.value.lower, e.lower) then e.lower else u.value.lower,
             if !Le(e.upper, u.value.upper) then e.upper else u.value.upper)
  }

  /** The union of the first entries, not yet cut. */
  function Hull(es: seq<Key>): Key
    requires es != []
  {
    if |es| == 1 then es[0] else BinUnion(Some(Hull(es[..|es| - 1])), es[|es| - 1])
  }

  function Union(es: seq<Key>): Key
    requires es != []
  {
    var h := Hull(es);
    Truncate(h, Cp(h.lower, h.upper) + 1)
  }

  /** The union method: a loop over the entry vector, then the cut. */
  method UnionOf(es: seq<Key>) returns (out: Key)
    requires es != []
    ensures out == Union(es)
  {
    out := es[0];
    assert es[..1] == [es[0]];
    for i := 1 to |es|
      invariant out == Hull(es[..i])
    {
      assert es[..i + 1][..i] == es[..i];
      out := BinUnion(Some(out), es[i]);
    }
    assert es[..|es|] == es;
    var plen := NodeCpLen(out);
    out := Truncate(out, plen + 1);
  }

  lemma {:induction false} HullBounds(es: seq<Key>, i: nat)
    requires i < |es|
    ensures Le(Hull(es).lower, es[i].lower) && Le(es[i].upper, Hull(es).upper)
  {
    var n := |es| - 1;
    if n == 0 {
      LeReflexive(es[0].lower);
      LeReflexive(es[0].upper);
    } else {
      var h := Hull(es[..n]);
      LeTotal(h.lower, es[n].lower);
      LeTotal(h.upper, es[n].upper);
      LeReflexive(es[n].lower);
      LeReflexive(es[n].upper);
      if i < n {
        HullBounds(es[..n], i);
        LeTransitive(Hull(es).lower, h.lower, es[i].lower) by { LeReflexive(h.lower); }
        LeTransitive(es[i].upper, h.upper, Hull(es).upper) by { LeReflexive(h.upper); }
      }
    }
  }

  // ---------------------------------------------------------------- what a key stands for

  /** The values a key may have below it: inside the interval, or beginning with an upper bound that was cut. */
  predicate Covers(k: Key, v: Str) {
    Le(k.lower, v) && (Le(v, k.upper) || (k.upper <= v && |k.upper| >= Cp(k.lower, k.upper) + 2))
  }

  lemma LeafCovers(v: Str)
    ensures Covers(LeafKey(v), v)
  {
    LeReflexive(v);
  }

  /** A cut upper bound that grew past an entry's cut upper bound: some extension of that entry falls out. */
  predicate Outgrows(upper: Str, e: Key) {
    && |e.upper| >= Cp(e.lower, e.upper) + 2
    && e.upper <= upper && |e.upper| < |upper|
    && exists i :: |e.upper| <= i < |upper| && upper[i] != 255
  }

  lemma {:induction false} CutHullLower(es: seq<Key>, n: nat, i: nat, v: Str)
    requires i < |es| && Covers(es[i], v)
    ensures Le(Cut(Hull(es).lower, n), v)
  {
    HullBounds(es, i);
    CutLe(Hull(es).lower, n);
    LeTransitive(Cut(Hull(es).lower, n), Hull(es).lower, es[i].lower);
    LeTransitive(Cut(Hull(es).lower, n), es[i].lower, v);
  }

  /** A value at most the hull's upper bound is covered by the cut hull. */
  lemma {:induction false} CutCoversBelow(h: Key, n: nat, v: Str)
    requires n >= Cp(h.lower, h.upper) + 2
    requires Le(Cut(h.lower, n), v) && Le(v, h.upper)
    ensures Covers(Key(Cut(h.lower, n), Cut(h.upper, n)), v)
  {
    CpCut(h.lower, h.upper, n);
    if !Le(v, Cut(h.upper, n)) { AboveCut(v, h.upper, n); }
  }

  /** An extension of a cut entry bound that lies above the hull: the hull's bound extends the entry's. */
  lemma {:induction false} CutCoversExtension(es: seq<Key>, n: nat, i: nat, v: Str)
    requires es != [] && i < |es| && es[i].Ordered()
    requires n >= Cp(Hull(es).lower, Hull(es).upper) + 2
    requires Covers(es[i], v) && !Le(v, Hull(es).upper)
    requires !Outgrows(Cut(Hull(es).upper, n), es[i])
    ensures Covers(Key(Cut(Hull(es).lower, n), Cut(Hull(es).upper, n)), v)
  {
    var h, e := Hull(es), es[i];
    HullBounds(es, i);
    CutHullLower(es, n, i, v);
    CpNested(h.lower, e.lower, e.upper, h.upper);
    CpCut(h.lower, h.upper, n);
    CutBoundExtends(h.upper, n, e, v);
  }

  lemma {:induction false} CutBoundExtends(upper: Str, n: nat, e: Key, v: Str)
    requires Le(e.upper, upper) && Covers(e, v) && !Le(v, upper) && !Outgrows(Cut(upper, n), e)
    ensures Cut(upper, n) <= v && |e.upper| >= Cp(e.lower, e.upper) + 2 && |upper| >= |e.upper|
  {
    var u := Cut(upper, n);
    if Le(v, e.upper) { LeTransitive(v, e.upper, upper); }
    LeTotal(v, upper);
    Between(e.upper, e.upper, upper, v) by { LeReflexive(e.upper); }
    if |u| <= |e.upper| {
      PrefixOfPrefix(u, e.upper, upper);
    } else {
      PrefixOfPrefix(e.upper, u, upper);
      CutLe(upper, n);
      LeTransitive(u, upper, v);
      OnesAreLast(e.upper, u, v);
    }
  }

  /** An outgrown entry: this extension of it is lost. */
  function LostValue(upper: Str, e: Key): Str
    requires Outgrows(upper, e)
  {
    e.upper + Ones(|upper| - |e.upper|)
  }

  lemma {:induction false} OutgrownLoses(k: Key, e: Key)
    requires e.Ordered() && Outgrows(k.upper, e)
    ensures Covers(e, LostValue(k.upper, e)) && !Covers(k, LostValue(k.upper, e))
  {
    var m := |e.upper|;
    var v, w := LostValue(k.upper, e), k.upper[m..];
    assert k.upper == e.upper + w;
    PrefixLe(e.upper, v);
    LeTransitive(e.lower, e.upper, v);
    var i :| m <= i < |k.upper| && k.upper[i] != 255;
    assert w[i - m] != 255;
    OnesAbove(w);
    LeBelowPrefix(e.upper, Ones(|w|), w);
    assert v[i] == 255;
  }

  /**
   Cutting a hull to n bytes, n at least two more than its common prefix, keeps every
   value an entry covers exactly if the cut bound does not outgrow the entry.
   */
  lemma {:induction false} CutHullCoversIff(es: seq<Key>, n: nat, i: nat)
    requires es != [] && i < |es| && es[i].Ordered()
    requires n >= Cp(Hull(es).lower, Hull(es).upper) + 2
    ensures (forall v :: Covers(es[i], v) ==> Covers(Key(Cut(Hull(es).lower, n), Cut(Hull(es).upper, n)), v))
      <==> !Outgrows(Cut(Hull(es).upper, n), es[i])
  {
    var k := Key(Cut(Hull(es).lower, n), Cut(Hull(es).upper, n));
    if Outgrows(k.upper, es[i]) {
      OutgrownLoses(k, es[i]);
    } else {
      forall v | Covers(es[i], v) ensures Covers(k, v) {
        if Le(v, Hull(es).upper) {
          CutHullLower(es, n, i, v);
          CutCoversBelow(Hull(es), n, v);
        } else {
          CutCoversExtension(es, n, i, v);
        }
      }
    }
  }

  /** The union method cuts so short that no entry is outgrown: it covers whatever an entry covers. */
  lemma {:induction false} UnionCovers(es: seq<Key>, i: nat, v: Str)
    requires i < |es| && es[i].Ordered() && Covers(es[i], v)
    ensures Covers(Union(es), v)
  {
    var h := Hull(es);
    var n := Cp(h.lower, h.upper) + 2;
    HullBounds(es, i);
    if Outgrows(Cut(h.upper, n), es[i]) {
      CpNested(h.lower, es[i].lower, es[i].upper, h.upper);
      assert false;
    }
    CutHullCoversIff(es, n, i);
  }

  lemma {:induction false} HullOrdered(es: seq<Key>)
    requires es != [] && forall i :: 0 <= i < |es| ==> es[i].Ordered()
    ensures Hull(es).Ordered()
  {
    HullBounds(es, 0);
    LeTransitive(Hull(es).lower, es[0].lower, es[0].upper);
    LeTransitive(Hull(es).lower, es[0].upper, Hull(es).upper);
  }

  lemma {:induction false} CutOrdered(k: Key, n: nat)
    requires k.Ordered()
    ensures Le(Cut(k.lower, n), Cut(k.upper, n))
  {
    var l, u := Cut(k.lower, n), Cut(k.upper, n);
    CutLe(k.lower, n);
    LeTransitive(l, k.lower, k.upper);
    if |k.upper| >= n && !Le(l, u) {
      AboveCut(l, k.upper, n);
      assert l == u;
      LeReflexive(l);
    }
  }

  // ---------------------------------------------------------------- page split

  predicate SortedPermutation(es: seq<Key>, order: seq<nat>) {
    && |order| == |es|
    && (forall i :: 0 <= i < |order| ==> order[i] < |es|)
    && (forall i, j :: 0 <= i < j < |order| ==> order[i] != order[j])
    && (forall i, j :: 0 <= i < j < |order| ==> SortsBefore(es[order[i]], es[order[j]]))
  }

  predicate SortsBefore(a: Key, b: Key) {
    Lt(a.lower, b.lower) || (a.lower == b.lower && Le(a.upper, b.upper))
  }

  function Chosen(es: seq<Key>, order: seq<nat>): (r: seq<Key>)
    requires forall i :: 0 <= i < |order| ==> order[i] < |es|
    ensures |r| == |order| && forall i :: 0 <= i < |order| ==> r[i] == es[order[i]]
  {
    seq(|order|, i requires 0 <= i < |order| => es[order[i]])
  }

  datatype Split = Split(left: seq<nat>, right: seq<nat>, ldatum: Key, rdatum: Key)

  /** How many bytes both sides keep: two more than the longer of the two common prefixes. */
  function SplitLength(l: Key, r: Key): nat {
    var ll, lr := Cp(l.lower, l.upper), Cp(r.lower, r.upper);
    (if ll > lr then ll else lr) + 2
  }

  /** The split: the sorted entries in two halves, each with its hull, both cut to one length. */
  method PickSplit(es: seq<Key>, order: seq<nat>) returns (v: Split)
    requires |es| >= 2 && SortedPermutation(es, order)
    ensures v.left == order[..|es| / 2] && v.right == order[|es| / 2..]
    ensures var l, r := Hull(Chosen(es, v.left)), Hull(Chosen(es, v.right));
            var n := SplitLength(l, r);
            v.ldatum == Key(Cut(l.lower, n), Cut(l.upper, n)) && v.rdatum == Key(Cut(r.lower, n), Cut(r.upper, n))
  {
    var left, right, l, r := Halve(es, order, |es| / 2);
    var ldatum, rdatum := CutBoth(l, r);
    v := Split(left, right, ldatum, rdatum);
  }

  /** Both hulls cut to the length the longer common prefix asks for. */
  method CutBoth(l: Key, r: Key) returns (ldatum: Key, rdatum: Key)
    ensures var n := SplitLength(l, r);
            ldatum == Key(Cut(l.lower, n), Cut(l.upper, n)) && rdatum == Key(Cut(r.lower, n), Cut(r.upper, n))
  {
    var ll := NodeCpLen(l);
    var lr := NodeCpLen(r);
    ll := if ll > lr then ll else lr;
    ldatum, rdatum := Truncate(l, ll + 1), Truncate(r, ll + 1);
  }

  /** One pass over the sorted entries, growing the union of the side each one goes to. */
  method Halve(es: seq<Key>, order: seq<nat>, half: nat) returns (left: seq<nat>, right: seq<nat>, lhull: Key, rhull: Key)
    requires 0 < half < |order| && forall i :: 0 <= i < |order| ==> order[i] < |es|
    ensures left == order[..half] && right == order[half..]
    ensures lhull == Hull(Chosen(es, left)) && rhull == Hull(Chosen(es, right))
  {
    left, right := [], [];
    var l, r := None, None;
    for i := 0 to |order|
      invariant Halved(es, order, half, i, left, right, l, r)
    {
      HalveStep(es, order, half, i, left, right, l, r);
      if i < half {
        l := Some(BinUnion(l, es[order[i]]));
        left := left + [order[i]];
      } else {
        r := Some(BinUnion(r, es[order[i]]));
        right := right + [order[i]];
      }
    }
    assert order[half..|order|] == order[half..];
    SideHullIs(es, left);
    SideHullIs(es, right);
    lhull, rhull := l.value, r.value;
  }

  /** The first i entries are on their sides. */
  ghost predicate Halved(es: seq<Key>, order: seq<nat>, half: nat, i: nat, left: seq<nat>, right: seq<nat>, l: Option<Key>, r: Option<Key>)
    requires half <= |order| && i <= |order|
  {
    var n := if i < half then i else half;
    left == order[..n] && right == order[n..i] && l == SideHull(es, left) && r == SideHull(es, right)
  }

  lemma {:induction false} HalveStep(es: seq<Key>, order: seq<nat>, half: nat, i: nat, left: seq<nat>, right: seq<nat>, l: Option<Key>, r: Option<Key>)
    requires half <= |order| && i < |order| && order[i] < |es| && Halved(es, order, half, i, left, right, l, r)
    ensures i < half ==> Halved(es, order, half, i + 1, left + [order[i]], right, Some(BinUnion(l, es[order[i]])), r)
    ensures i >= half ==> Halved(es, order, half, i + 1, left, right + [order[i]], l, Some(BinUnion(r, es[order[i]])))
  {
    if i < half {
      assert order[..i + 1] == order[..i] + [order[i]] && order[i..i] == order[i + 1..i + 1] == [];
      SideHullStep(es, left, order[i]);
    } else {
      assert order[half..i + 1] == order[half..i] + [order[i]];
      SideHullStep(es, right, order[i]);
    }
  }

  /** The union of one side so far; None while it is empty. */
  function SideHull(es: seq<Key>, order: seq<nat>): Option<Key> {
    if order == [] || order[|order| - 1] >= |es| then None
    else Some(BinUnion(SideHull(es, order[..|order| - 1]), es[order[|order| - 1]]))
  }

  lemma SideHullStep(es: seq<Key>, order: seq<nat>, k: nat)
    requires k < |es|
    ensures SideHull(es, order + [k]) == Some(BinUnion(SideHull(es, order), es[k]))
  {
    assert (order + [k])[..|order|] == order;
  }

  lemma {:induction false} SideHullIs(es: seq<Key>, order: seq<nat>)
    requires order != [] && forall i :: 0 <= i < |order| ==> order[i] < |es|
    ensures SideHull(es, order) == Some(Hull(Chosen(es, order)))
  {
    var n := |order| - 1;
    if n > 0 {
      SideHullIs(es, order[..n]);
      assert Chosen(es, order)[..n] == Chosen(es, order[..n]);
    }
  }

  /** Splitting a leaf page: either side's key covers every value put on that side. */
  lemma {:induction false} LeafSplitCovers(values: seq<Str>, side: seq<nat>, n: nat, i: nat)
    requires i < |side| && forall j :: 0 <= j < |side| ==> side[j] < |values|
    requires var h := Hull(Chosen(LeafKeys(values), side)); n >= Cp(h.lower, h.upper) + 2
    ensures var h := Hull(Chosen(LeafKeys(values), side));
            Covers(Key(Cut(h.lower, n), Cut(h.upper, n)), values[side[i]])
  {
    var es := Chosen(LeafKeys(values), side);
    LeReflexive(values[side[i]]);
    CpIsLongest(values[side[i]], values[side[i]], values[side[i]]);
    CutHullCoversIff(es, n, i);
    LeafCovers(values[side[i]]);
  }

  function LeafKeys(values: seq<Str>): (es: seq<Key>)
    ensures |es| == |values| && forall i :: 0 <= i < |values| ==> es[i] == LeafKey(values[i])
  {
    seq(|values|, i requires 0 <= i < |values| => LeafKey(values[i]))
  }

  /** The key a split gives one side. */
  function SideKey(side: seq<Key>, other: seq<Key>): Key
    requires side != [] && other != []
  {
    var n := SplitLength(Hull(side), Hull(other));
    Key(Cut(Hull(side).lower, n), Cut(Hull(side).upper, n))
  }

  /** Splitting pages of any keys: a side's key covers all that an entry covered exactly if it does not outgrow the entry. */
  lemma {:induction false} SplitCoversIff(side: seq<Key>, other: seq<Key>, i: nat)
    requires other != [] && i < |side| && side[i].Ordered()
    ensures (forall v :: Covers(side[i], v) ==> Covers(SideKey(side, other), v))
      <==> !Outgrows(SideKey(side, other).upper, side[i])
  {
    CutHullCoversIff(side, SplitLength(Hull(side), Hull(other)), i);
  }

  /** A leaf entry stands for its value alone, so no bound outgrows it. */
  lemma LeafNeverOutgrown(upper: Str, v: Str)
    ensures !Outgrows(upper, LeafKey(v))
  {
    CpIsLongest(v, v, v);
  }

  lemma PairHull(k: Key, e: Key)
    ensures Hull([k, e]) == BinUnion(Some(k), e)
  {
    assert [k, e][..1] == [k];
  }

  /** A key grown for a value does not change when it is grown for that value again. */
  lemma {:induction false} GrowOnce(k: Key, e: Key)
    requires k.Ordered() && e.Ordered()
    ensures Union([Union([k, e]), e]) == Union([k, e])
  {
    var h := Hull([k, e]);
    assert [k, e][1] == e;
    HullBounds([k, e], 1);
    forall i | 0 <= i < 2 ensures [k, e][i].Ordered() { }
    HullOrdered([k, e]);
    PairHull(Union([k, e]), e);
    CutGrowsBack(h, e, Cp(h.lower, h.upper));
  }

  /** A hull, cut, and joined with an entry it had: the same after the cut. */
  lemma {:induction false} CutGrowsBack(h: Key, e: Key, c: nat)
    requires h.Ordered() && Le(h.lower, e.lower) && Le(e.upper, h.upper) && c == Cp(h.lower, h.upper)
    ensures var u := Truncate(h, c + 1);
            var g := BinUnion(Some(u), e);
            Cp(g.lower, g.upper) == c && Truncate(g, c + 1) == u
  {
    var u := Truncate(h, c + 1);
    CutLe(h.lower, c + 2);
    LeTransitive(u.lower, h.lower, e.lower);
    CpCut(h.lower, h.upper, c + 2);
    if !Le(e.upper, u.upper) {
      AboveCut(e.upper, h.upper, c + 2);
      if |u.upper| <= c { PrefixAtMost(h.lower, h.upper); }
      CpOfExtension(u.lower, u.upper, e.upper, c);
    }
  }

  /** A string that is all common prefix, and not below the other, is the other. */
  lemma PrefixAtMost(a: Str, b: Str)
    requires Le(a, b) && |b| == Cp(a, b)
    ensures a == b
  {
    CpIsCommon(a, b);
    PrefixLe(b, a);
    LeAntisymmetric(a, b);
  }

  /** Extending the upper bound past a full cut does not lengthen the common prefix. */
  lemma {:induction false} CpOfExtension(a: Str, b: Str, c: Str, n: nat)
    requires b <= c && Cp(a, b) == n && (|b| > n || |a| == n)
    ensures Cp(a, c) == n
  {
    if n > 0 {
      CpOfExtension(a[1..], b[1..], c[1..], n - 1);
    }
  }
}
