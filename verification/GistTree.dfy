/**
 Search over a generalised search tree, for any key type: what the support
 functions of an index must promise for a pruned search to lose nothing.
 */
module GistTree {

  datatype Tree<K, V> = Page(values: seq<V>) | Inner(keys: seq<K>, children: seq<Tree<K, V>>)

  predicate Below<K, V(==)>(t: Tree<K, V>, v: V) {
    match t
    case Page(vs) => v in vs
    case Inner(_, ts) => exists i :: 0 <= i < |ts| && Below(ts[i], v)
  }

  /** Every child's key covers every value below the child. */
  ghost predicate Sound<K, V(!new)>(t: Tree<K, V>, covers: (K, V) -> bool) {
    match t
    case Page(_) => true
    case Inner(ks, ts) =>
      && |ks| == |ts|
      && (forall i :: 0 <= i < |ts| ==> Sound(ts[i], covers))
      && (forall i, v :: 0 <= i < |ts| && Below(ts[i], v) ==> covers(ks[i], v))
  }

  /** The values a search returns, page by page, descending only where `inner` accepts the key. */
  function Search<K, V>(t: Tree<K, V>, leaf: V -> bool, inner: K -> bool): seq<V>
    decreases t, 1
  {
    match t
    case Page(vs) => Filter(vs, leaf)
    case Inner(ks, ts) => if |ks| != |ts| then [] else SearchInner(t, |ts|, leaf, inner)
  }

  function SearchInner<K, V>(t: Tree<K, V>, n: nat, leaf: V -> bool, inner: K -> bool): seq<V>
    requires t.Inner? && n <= |t.keys| == |t.children|
    decreases t, 0, n
  {
    if n == 0 then []
    else SearchInner(t, n - 1, leaf, inner)
         + (if inner(t.keys[n - 1]) then Search(t.children[n - 1], leaf, inner) else [])
  }

  function Filter<V>(vs: seq<V>, leaf: V -> bool): seq<V> {
    if vs == [] then []
    else Filter(vs[..|vs| - 1], leaf) + (if leaf(vs[|vs| - 1]) then [vs[|vs| - 1]] else [])
  }

  /** All values, page by page. */
  function Values<K, V>(t: Tree<K, V>): seq<V>
    decreases t, 1
  {
    match t
    case Page(vs) => vs
    case Inner(_, ts) => ValuesInner(t, |ts|)
  }

  function ValuesInner<K, V>(t: Tree<K, V>, n: nat): seq<V>
    requires t.Inner? && n <= |t.children|
    decreases t, 0, n
  {
    if n == 0 then [] else ValuesInner(t, n - 1) + Values(t.children[n - 1])
  }

  lemma {:induction false} FilterConcat<V>(a: seq<V>, b: seq<V>, leaf: V -> bool)
    ensures Filter(a + b, leaf) == Filter(a, leaf) + Filter(b, leaf)
  {
    if b == [] {
      assert a + b == a;
    } else {
      var front, last := b[..|b| - 1], b[|b| - 1];
      FilterConcat(a, front, leaf);
      assert a + b == a + front + [last] && b == front + [last];
      FilterLast(a + front, last, leaf);
      FilterLast(front, last, leaf);
    }
  }

  lemma FilterLast<V>(vs: seq<V>, last: V, leaf: V -> bool)
    ensures Filter(vs + [last], leaf) == Filter(vs, leaf) + (if leaf(last) then [last] else [])
  {
    assert (vs + [last])[..|vs|] == vs;
  }

  lemma {:induction false} FilterSame<V>(vs: seq<V>, p: V -> bool, q: V -> bool)
    requires forall v :: v in vs ==> p(v) == q(v)
    ensures Filter(vs, p) == Filter(vs, q)
  {
    if vs != [] { FilterSame(vs[..|vs| - 1], p, q); }
  }

  lemma {:induction false} FilterEmpty<V>(vs: seq<V>, leaf: V -> bool)
    requires forall v :: v in vs ==> !leaf(v)
    ensures Filter(vs, leaf) == []
  {
    if vs != [] { FilterEmpty(vs[..|vs| - 1], leaf); }
  }

  lemma {:induction false} ValuesAreBelow<K, V>(t: Tree<K, V>, v: V)
    requires v in Values(t)
    ensures Below(t, v)
    decreases t, 1
  {
    if t.Inner? { ValuesInnerAreBelow(t, |t.children|, v); }
  }

  lemma {:induction false} ValuesInnerAreBelow<K, V>(t: Tree<K, V>, n: nat, v: V)
    requires t.Inner? && n <= |t.children| && v in ValuesInner(t, n)
    ensures Below(t, v)
    decreases t, 0, n
  {
    if v in ValuesInner(t, n - 1) { ValuesInnerAreBelow(t, n - 1, v); } else { ValuesAreBelow(t.children[n - 1], v); }
  }

  /** On a sound tree a search that never prunes a match returns exactly the matching values, in order. */
  lemma {:induction false} SearchIsFilter<K(!new), V(!new)>(t: Tree<K, V>, covers: (K, V) -> bool, leaf: V -> bool, inner: K -> bool)
    requires Sound(t, covers) && forall k, v :: covers(k, v) && leaf(v) ==> inner(k)
    ensures Search(t, leaf, inner) == Filter(Values(t), leaf)
    decreases t, 1
  {
    if t.Inner? { SearchInnerIsFilter(t, |t.children|, covers, leaf, inner); }
  }

  lemma {:induction false} SearchInnerIsFilter<K(!new), V(!new)>(t: Tree<K, V>, n: nat, covers: (K, V) -> bool, leaf: V -> bool, inner: K -> bool)
    requires Sound(t, covers) && t.Inner? && n <= |t.children|
    requires forall k, v :: covers(k, v) && leaf(v) ==> inner(k)
    ensures SearchInner(t, n, leaf, inner) == Filter(ValuesInner(t, n), leaf)
    decreases t, 0, n
  {
    if n > 0 {
      var child, k := t.children[n - 1], t.keys[n - 1];
      SearchInnerIsFilter(t, n - 1, covers, leaf, inner);
      SearchIsFilter(child, covers, leaf, inner);
      FilterConcat(ValuesInner(t, n - 1), Values(child), leaf);
      if !inner(k) {
        forall v | v in Values(child) ensures !leaf(v) {
          ValuesAreBelow(child, v);
          assert covers(k, v);
        }
        FilterEmpty(Values(child), leaf);
      }
    }
  }

  /** Soundness may be read together with anything all values below have in common. */
  lemma {:induction false} SoundWith<K(!new), V(!new)>(t: Tree<K, V>, covers: (K, V) -> bool, common: V -> bool)
    requires Sound(t, covers) && forall v :: Below(t, v) ==> common(v)
    ensures Sound(t, (k, v) => covers(k, v) && common(v))
  {
    if t.Inner? {
      forall i, v | 0 <= i < |t.children| && Below(t.children[i], v) ensures common(v) { assert Below(t, v); }
      forall i | 0 <= i < |t.children| ensures Sound(t.children[i], (k, v) => covers(k, v) && common(v)) {
        SoundWith(t.children[i], covers, common);
      }
    }
  }

  lemma {:induction false} SearchIsFilterWhere<K(!new), V(!new)>(
    t: Tree<K, V>, covers: (K, V) -> bool, common: V -> bool, leaf: V -> bool, inner: K -> bool)
    requires Sound(t, covers) && forall v :: Below(t, v) ==> common(v)
    requires forall k, v :: covers(k, v) && common(v) && leaf(v) ==> inner(k)
    ensures Search(t, leaf, inner) == Filter(Values(t), leaf)
  {
    SoundWith(t, covers, common);
    SearchIsFilter(t, (k, v) => covers(k, v) && common(v), leaf, inner);
  }

  // ---------------------------------------------------------------- keys built by the union method, level by level

  /** What an index makes its keys with, and what they are meant to cover. */
  datatype Keys<!K, !V> = Keys(
    leafKey: V -> K, isUnion: (seq<K>, K) -> bool, valid: K -> bool, covers: (K, V) -> bool)

  /** A union of valid keys is valid and covers all that any of them covers. */
  ghost predicate Lawful<K(!new), V(!new)>(m: Keys<K, V>) {
    && (forall v :: m.valid(m.leafKey(v)) && m.covers(m.leafKey(v), v))
    && (forall es, k :: m.isUnion(es, k) && AllValid(m, es) ==> m.valid(k) && CoversAll(m, es, k))
  }

  ghost predicate AllValid<K, V>(m: Keys<K, V>, es: seq<K>) {
    forall i :: 0 <= i < |es| ==> m.valid(es[i])
  }

  ghost predicate CoversAll<K, V(!new)>(m: Keys<K, V>, es: seq<K>, k: K) {
    forall i, v :: 0 <= i < |es| && m.covers(es[i], v) ==> m.covers(k, v)
  }

  /** The entries a page passes to the union method. */
  function Entries<K, V>(t: Tree<K, V>, m: Keys<K, V>): (es: seq<K>)
    ensures t.Page? ==> |es| == |t.values| && forall i :: 0 <= i < |es| ==> es[i] == m.leafKey(t.values[i])
  {
    match t
    case Page(vs) => seq(|vs|, i requires 0 <= i < |vs| => m.leafKey(vs[i]))
    case Inner(ks, _) => ks
  }

  /** Every key above a page is the union of that page's entries. */
  ghost predicate UnionBuilt<K, V>(t: Tree<K, V>, m: Keys<K, V>) {
    match t
    case Page(_) => true
    case Inner(ks, ts) =>
      && |ks| == |ts|
      && forall i :: 0 <= i < |ts| ==> UnionBuilt(ts[i], m) && m.isUnion(Entries(ts[i], m), ks[i])
  }

  lemma {:induction false} UnionBuiltValid<K(!new), V(!new)>(t: Tree<K, V>, m: Keys<K, V>)
    requires Lawful(m) && UnionBuilt(t, m)
    ensures AllValid(m, Entries(t, m))
  {
    if t.Inner? {
      forall i | 0 <= i < |t.keys| ensures m.valid(t.keys[i]) { UnionBuiltValid(t.children[i], m); }
    }
  }

  /** However many levels of unions lie between, a page's union covers every value below it. */
  lemma {:induction false} UnionCoversBelow<K(!new), V(!new)>(t: Tree<K, V>, m: Keys<K, V>, k: K, v: V)
    requires Lawful(m) && UnionBuilt(t, m) && m.isUnion(Entries(t, m), k) && Below(t, v)
    ensures m.covers(k, v)
  {
    UnionBuiltValid(t, m);
    var es := Entries(t, m);
    assert CoversAll(m, es, k);
    match t
    case Page(vs) =>
      var i :| 0 <= i < |vs| && vs[i] == v;
      assert m.covers(es[i], v);
    case Inner(ks, ts) =>
      var i :| 0 <= i < |ts| && Below(ts[i], v);
      UnionCoversBelow(ts[i], m, ks[i], v);
      assert m.covers(es[i], v);
  }

  lemma {:induction false} UnionBuiltSound<K(!new), V(!new)>(t: Tree<K, V>, m: Keys<K, V>)
    requires Lawful(m) && UnionBuilt(t, m)
    ensures Sound(t, m.covers)
  {
    if t.Inner? {
      forall i | 0 <= i < |t.children| ensures Sound(t.children[i], m.covers) { UnionBuiltSound(t.children[i], m); }
      forall i, v | 0 <= i < |t.children| && Below(t.children[i], v) ensures m.covers(t.keys[i], v) {
        UnionCoversBelow(t.children[i], m, t.keys[i], v);
      }
    }
  }

  /** A tree whose keys come from a lawful union method answers every query exactly. */
  lemma {:induction false} UnionBuiltSearchExact<K(!new), V(!new)>(t: Tree<K, V>, m: Keys<K, V>, leaf: V -> bool, inner: K -> bool)
    requires Lawful(m) && UnionBuilt(t, m)
    requires forall k, v :: m.covers(k, v) && leaf(v) ==> inner(k)
    ensures Search(t, leaf, inner) == Filter(Values(t), leaf)
  {
    UnionBuiltSound(t, m);
    SearchIsFilter(t, m.covers, leaf, inner);
  }
}
