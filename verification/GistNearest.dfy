/**
 The ordered scan: a queue of pages and values, the nearest taken first. With
 admissible key distances it reports every match once, nearest first.
 */
module GistNearest {
  import opened GistTree

  /** What a scan asks of the support functions. */
  datatype Query<!K, !V> = Query(
    leaf: V -> bool, inner: K -> bool, distance: V -> real, bound: K -> real, covers: (K, V) -> bool)

  /** No key over a match is refused or put further away than the match. */
  ghost predicate Admissible<K(!new), V(!new)>(q: Query<K, V>) {
    forall k, v :: q.covers(k, v) && q.leaf(v) ==> q.inner(k) && q.bound(k) <= q.distance(v)
  }

  datatype Item<K, V> = Heap(value: V, at: real) | Lower(page: Tree<K, V>, at: real)

  /** How often a value is among the matches an item stands for. */
  ghost function Copies<K, V>(item: Item<K, V>, q: Query<K, V>, v: V): nat {
    match item
    case Heap(w, _) => if w == v then 1 else 0
    case Lower(t, _) => Matches(Values(t), q, v)
  }

  ghost function Matches<K, V>(vs: seq<V>, q: Query<K, V>, v: V): nat {
    multiset(Filter(vs, q.leaf))[v]
  }

  ghost function Pending<K, V>(queue: seq<Item<K, V>>, q: Query<K, V>, v: V): nat {
    if queue == [] then 0 else Pending(queue[..|queue| - 1], q, v) + Copies(queue[|queue| - 1], q, v)
  }

  lemma {:induction false} PendingConcat<K, V>(a: seq<Item<K, V>>, b: seq<Item<K, V>>, q: Query<K, V>, v: V)
    ensures Pending(a + b, q, v) == Pending(a, q, v) + Pending(b, q, v)
  {
    if b == [] {
      assert a + b == a;
    } else {
      var n := |b| - 1;
      PendingConcat(a, b[..n], q, v);
      assert (a + b)[..|a + b| - 1] == a + b[..n];
    }
  }

  lemma PendingOne<K, V>(queue: seq<Item<K, V>>, item: Item<K, V>, q: Query<K, V>, v: V)
    ensures Pending(queue + [item], q, v) == Pending(queue, q, v) + Copies(item, q, v)
  {
    assert (queue + [item])[..|queue|] == queue;
  }

  lemma PendingWithout<K, V>(queue: seq<Item<K, V>>, i: nat, q: Query<K, V>, v: V)
    requires i < |queue|
    ensures Pending(queue, q, v) == Pending(queue[..i] + queue[i + 1..], q, v) + Copies(queue[i], q, v)
  {
    assert queue == queue[..i + 1] + queue[i + 1..];
    PendingConcat(queue[..i + 1], queue[i + 1..], q, v);
    assert queue[..i + 1][..i] == queue[..i];
    PendingConcat(queue[..i], queue[i + 1..], q, v);
  }

  lemma {:induction false} PendingHasItem<K, V>(queue: seq<Item<K, V>>, v: V, q: Query<K, V>) returns (i: nat)
    requires Pending(queue, q, v) > 0
    ensures i < |queue| && Copies(queue[i], q, v) > 0
  {
    var n := |queue| - 1;
    if Copies(queue[n], q, v) > 0 { i := n; } else { i := PendingHasItem(queue[..n], v, q); }
  }

  lemma {:induction false} MatchesConcat<K, V>(a: seq<V>, b: seq<V>, q: Query<K, V>, v: V)
    ensures Matches(a + b, q, v) == Matches(a, q, v) + Matches(b, q, v)
  {
    FilterConcat(a, b, q.leaf);
  }

  /** An item is no further than what it stands for. */
  ghost predicate Fair<K, V(!new)>(item: Item<K, V>, q: Query<K, V>) {
    && (item.Heap? ==> item.at == q.distance(item.value))
    && (item.Lower? ==> Sound(item.page, q.covers))
    && forall v :: Copies(item, q, v) > 0 ==> item.at <= q.distance(v)
  }

  ghost predicate AllFair<K, V(!new)>(queue: seq<Item<K, V>>, q: Query<K, V>) {
    forall i :: 0 <= i < |queue| ==> Fair(queue[i], q)
  }

  // ---------------------------------------------------------------- termination

  function Size<K, V>(t: Tree<K, V>): (n: nat)
    ensures n > 0
    decreases t, 1
  {
    match t
    case Page(vs) => 1 + |vs|
    case Inner(_, ts) => 1 + SizeInner(t, |ts|)
  }

  function SizeInner<K, V>(t: Tree<K, V>, n: nat): nat
    requires t.Inner? && n <= |t.children|
    decreases t, 0, n
  {
    if n == 0 then 0 else SizeInner(t, n - 1) + Size(t.children[n - 1])
  }

  function Weight<K, V>(queue: seq<Item<K, V>>): nat {
    if queue == [] then 0 else Weight(queue[..|queue| - 1]) + WeightOf(queue[|queue| - 1])
  }

  function WeightOf<K, V>(item: Item<K, V>): (n: nat)
    ensures n > 0
  {
    match item
    case Heap(_, _) => 1
    case Lower(t, _) => Size(t)
  }

  lemma {:induction false} WeightConcat<K, V>(a: seq<Item<K, V>>, b: seq<Item<K, V>>)
    ensures Weight(a + b) == Weight(a) + Weight(b)
  {
    if b == [] {
      assert a + b == a;
    } else {
      var n := |b| - 1;
      WeightConcat(a, b[..n]);
      assert (a + b)[..|a + b| - 1] == a + b[..n];
    }
  }

  lemma WeightOne<K, V>(queue: seq<Item<K, V>>, item: Item<K, V>)
    ensures Weight(queue + [item]) == Weight(queue) + WeightOf(item)
  {
    assert (queue + [item])[..|queue|] == queue;
  }

  lemma WeightWithout<K, V>(queue: seq<Item<K, V>>, i: nat)
    requires i < |queue|
    ensures Weight(queue) == Weight(queue[..i] + queue[i + 1..]) + WeightOf(queue[i])
  {
    assert queue == queue[..i + 1] + queue[i + 1..];
    WeightConcat(queue[..i + 1], queue[i + 1..]);
    assert queue[..i + 1][..i] == queue[..i];
    WeightConcat(queue[..i], queue[i + 1..]);
  }

  // ---------------------------------------------------------------- the scan

  /** Reading one page into the queue: nothing it stands for is lost or put too far away. */
  method ScanPage<K(!new), V(!new)>(queue: seq<Item<K, V>>, t: Tree<K, V>, q: Query<K, V>) returns (r: seq<Item<K, V>>)
    requires Admissible(q) && Sound(t, q.covers) && AllFair(queue, q)
    ensures AllFair(r, q)
    ensures forall v :: Pending(r, q, v) == Pending(queue, q, v) + Matches(Values(t), q, v)
    ensures Weight(r) < Weight(queue) + Size(t)
  {
    match t
    case Page(vs) => r := ScanLeaf(queue, vs, q);
    case Inner(_, _) => r := ScanInner(queue, t, q);
  }

  lemma MatchesNext<K, V>(vs: seq<V>, i: nat, q: Query<K, V>, v: V)
    requires i < |vs|
    ensures Matches(vs[..i + 1], q, v) == Matches(vs[..i], q, v) + (if q.leaf(vs[i]) && vs[i] == v then 1 else 0)
  {
    assert vs[..i + 1][..i] == vs[..i];
  }

  /** Values of a page are in the queue, as far as they match. */
  ghost predicate Taken<K, V(!new)>(queue: seq<Item<K, V>>, r: seq<Item<K, V>>, vs: seq<V>, q: Query<K, V>) {
    && AllFair(r, q) && Weight(r) <= Weight(queue) + |vs|
    && forall v :: Pending(r, q, v) == Pending(queue, q, v) + Matches(vs, q, v)
  }

  lemma {:induction false} TakeOne<K, V(!new)>(queue: seq<Item<K, V>>, r: seq<Item<K, V>>, vs: seq<V>, i: nat, q: Query<K, V>)
    requires i < |vs| && Taken(queue, r, vs[..i], q)
    ensures Taken(queue, if q.leaf(vs[i]) then r + [Heap(vs[i], q.distance(vs[i]))] else r, vs[..i + 1], q)
  {
    var item := Heap(vs[i], q.distance(vs[i]));
    var r' := if q.leaf(vs[i]) then r + [item] else r;
    WeightOne(r, item);
    forall v ensures Pending(r', q, v) == Pending(queue, q, v) + Matches(vs[..i + 1], q, v) {
      MatchesNext(vs, i, q, v);
      PendingOne(r, item, q, v);
    }
  }

  method ScanLeaf<K, V(!new)>(queue: seq<Item<K, V>>, vs: seq<V>, q: Query<K, V>) returns (r: seq<Item<K, V>>)
    requires AllFair(queue, q)
    ensures AllFair(r, q)
    ensures forall v :: Pending(r, q, v) == Pending(queue, q, v) + Matches(vs, q, v)
    ensures Weight(r) <= Weight(queue) + |vs|
  {
    r := queue;
    var i := 0;
    while i < |vs|
      invariant 0 <= i <= |vs| && Taken(queue, r, vs[..i], q)
    {
      TakeOne(queue, r, vs, i, q);
      if q.leaf(vs[i]) { r := r + [Heap(vs[i], q.distance(vs[i]))]; }
      i := i + 1;
    }
    assert vs[..i] == vs;
  }

  /** The first i children are in the queue, as far as their keys are accepted. */
  ghost predicate Scanned<K, V(!new)>(queue: seq<Item<K, V>>, r: seq<Item<K, V>>, t: Tree<K, V>, i: nat, q: Query<K, V>)
    requires t.Inner? && i <= |t.children|
  {
    && AllFair(r, q) && Weight(r) <= Weight(queue) + SizeInner(t, i)
    && forall v :: Pending(r, q, v) == Pending(queue, q, v) + Matches(ValuesInner(t, i), q, v)
  }

  lemma {:induction false} NextMatches<K, V>(t: Tree<K, V>, i: nat, q: Query<K, V>, v: V)
    requires t.Inner? && i < |t.children|
    ensures Matches(ValuesInner(t, i + 1), q, v) == Matches(ValuesInner(t, i), q, v) + Matches(Values(t.children[i]), q, v)
  {
    MatchesConcat(ValuesInner(t, i), Values(t.children[i]), q, v);
  }

  lemma {:induction false} ScanOne<K(!new), V(!new)>(queue: seq<Item<K, V>>, r: seq<Item<K, V>>, t: Tree<K, V>, i: nat, q: Query<K, V>)
    requires Admissible(q) && t.Inner? && Sound(t, q.covers) && i < |t.children| && Scanned(queue, r, t, i, q)
    ensures Scanned(queue, if q.inner(t.keys[i]) then r + [Lower(t.children[i], q.bound(t.keys[i]))] else r, t, i + 1, q)
  {
    var item := Lower(t.children[i], q.bound(t.keys[i]));
    var r' := if q.inner(t.keys[i]) then r + [item] else r;
    ChildMatches(t, i, q);
    WeightOne(r, item);
    forall v ensures Pending(r', q, v) == Pending(queue, q, v) + Matches(ValuesInner(t, i + 1), q, v) {
      NextMatches(t, i, q, v);
      PendingOne(r, item, q, v);
    }
  }

  method ScanInner<K(!new), V(!new)>(queue: seq<Item<K, V>>, t: Tree<K, V>, q: Query<K, V>) returns (r: seq<Item<K, V>>)
    requires Admissible(q) && Sound(t, q.covers) && AllFair(queue, q) && t.Inner?
    ensures Scanned(queue, r, t, |t.children|, q)
  {
    r := queue;
    var i := 0;
    while i < |t.children|
      invariant 0 <= i <= |t.children| && Scanned(queue, r, t, i, q)
    {
      ScanOne(queue, r, t, i, q);
      if q.inner(t.keys[i]) { r := r + [Lower(t.children[i], q.bound(t.keys[i]))]; }
      i := i + 1;
    }
  }

  /** A child whose key is refused holds no match; an accepted one is put no further than its matches. */
  lemma {:induction false} ChildMatches<K(!new), V(!new)>(t: Tree<K, V>, i: nat, q: Query<K, V>)
    requires Admissible(q) && Sound(t, q.covers) && t.Inner? && i < |t.children|
    ensures !q.inner(t.keys[i]) ==> forall v :: Matches(Values(t.children[i]), q, v) == 0
    ensures Fair(Lower(t.children[i], q.bound(t.keys[i])), q)
  {
    var child, k := t.children[i], t.keys[i];
    forall v | v in Values(child) ensures q.covers(k, v) { ValuesAreBelow(child, v); }
    if !q.inner(k) {
      FilterEmpty(Values(child), q.leaf);
    }
    forall v | v in Filter(Values(child), q.leaf) ensures q.bound(k) <= q.distance(v) {
      FilterMember(Values(child), q.leaf, v);
    }
  }

  lemma {:induction false} FilterMember<V>(vs: seq<V>, leaf: V -> bool, v: V)
    requires v in Filter(vs, leaf)
    ensures v in vs && leaf(v)
  {
    var n := |vs| - 1;
    if v in Filter(vs[..n], leaf) { FilterMember(vs[..n], leaf, v); }
  }

  predicate Ascending<V>(vs: seq<V>, distance: V -> real) {
    forall i, j :: 0 <= i < j < |vs| ==> distance(vs[i]) <= distance(vs[j])
  }

  /** What was reported is no further than what is pending. */
  ghost predicate Ahead<K, V(!new)>(out: seq<V>, queue: seq<Item<K, V>>, q: Query<K, V>) {
    forall i, v :: 0 <= i < |out| && Pending(queue, q, v) > 0 ==> q.distance(out[i]) <= q.distance(v)
  }

  /** Taking the first item of the queue; how the heap breaks ties is left open. */
  method TakeFirst<K, V>(queue: seq<Item<K, V>>) returns (i: nat)
    requires queue != []
    ensures i < |queue| && forall j :: 0 <= j < |queue| ==> queue[i].at <= queue[j].at
  {
    i := 0;
    var n := 1;
    while n < |queue|
      invariant 1 <= n <= |queue| && i < |queue|
      invariant forall j :: 0 <= j < n ==> queue[i].at <= queue[j].at
    {
      if queue[n].at < queue[i].at || (queue[n].at == queue[i].at && queue[n].Heap?) { i := n; }
      n := n + 1;
    }
  }

  /** The first item of a fair queue is no further than anything pending. */
  lemma {:induction false} FirstIsNearest<K, V(!new)>(queue: seq<Item<K, V>>, i: nat, v: V, q: Query<K, V>)
    requires AllFair(queue, q) && i < |queue| && Pending(queue, q, v) > 0
    requires forall j :: 0 <= j < |queue| ==> queue[i].at <= queue[j].at
    ensures queue[i].at <= q.distance(v)
  {
    var j := PendingHasItem(queue, v, q);
    assert Fair(queue[j], q);
  }

  /** Everything in `all` is either reported or pending. */
  ghost predicate Accounted<K, V(!new)>(out: seq<V>, queue: seq<Item<K, V>>, all: seq<V>, q: Query<K, V>) {
    forall v :: multiset(out)[v] + Pending(queue, q, v) == Matches(all, q, v)
  }

  lemma {:induction false} AllReported<K, V(!new)>(out: seq<V>, queue: seq<Item<K, V>>, all: seq<V>, q: Query<K, V>)
    requires Accounted(out, queue, all, q) && queue == []
    ensures multiset(out) == multiset(Filter(all, q.leaf))
  {
    forall v ensures multiset(out)[v] == multiset(Filter(all, q.leaf))[v] {
      assert multiset(out)[v] + Pending(queue, q, v) == Matches(all, q, v);
    }
  }

  lemma WithoutFair<K, V(!new)>(queue: seq<Item<K, V>>, i: nat, q: Query<K, V>)
    requires AllFair(queue, q) && i < |queue|
    ensures AllFair(queue[..i] + queue[i + 1..], q) && Fair(queue[i], q)
    ensures Weight(queue) == Weight(queue[..i] + queue[i + 1..]) + WeightOf(queue[i])
  {
    WeightWithout(queue, i);
  }

  lemma {:induction false} FirstIsNearestToRest<K, V(!new)>(queue: seq<Item<K, V>>, i: nat, q: Query<K, V>)
    requires AllFair(queue, q) && i < |queue| && queue[i].Heap? && forall j :: 0 <= j < |queue| ==> queue[i].at <= queue[j].at
    ensures Pending(queue, q, queue[i].value) > 0
    ensures forall v :: Pending(queue[..i] + queue[i + 1..], q, v) > 0 ==> q.distance(queue[i].value) <= q.distance(v)
    ensures forall v :: Pending(queue[..i] + queue[i + 1..], q, v) > 0 ==> Pending(queue, q, v) > 0
  {
    var item, rest := queue[i], queue[..i] + queue[i + 1..];
    assert Fair(item, q);
    PendingWithout(queue, i, q, item.value);
    forall v | Pending(rest, q, v) > 0 ensures Pending(queue, q, v) > 0 && q.distance(item.value) <= q.distance(v) {
      PendingWithout(queue, i, q, v);
      FirstIsNearest(queue, i, v, q);
    }
  }

  lemma AscendingAppend<V>(out: seq<V>, x: V, distance: V -> real)
    requires Ascending(out, distance) && forall i :: 0 <= i < |out| ==> distance(out[i]) <= distance(x)
    ensures Ascending(out + [x], distance)
  {
  }

  lemma AheadAppend<K, V(!new)>(out: seq<V>, x: V, queue: seq<Item<K, V>>, rest: seq<Item<K, V>>, q: Query<K, V>)
    requires Ahead(out, queue, q) && forall v :: Pending(rest, q, v) > 0 ==> Pending(queue, q, v) > 0 && q.distance(x) <= q.distance(v)
    ensures Ahead(out + [x], rest, q)
  {
  }

  lemma {:induction false} ReportAccounts<K, V(!new)>(out: seq<V>, queue: seq<Item<K, V>>, i: nat, all: seq<V>, q: Query<K, V>)
    requires Accounted(out, queue, all, q) && i < |queue| && queue[i].Heap?
    ensures Accounted(out + [queue[i].value], queue[..i] + queue[i + 1..], all, q)
  {
    var x, rest := queue[i].value, queue[..i] + queue[i + 1..];
    forall v ensures multiset(out + [x])[v] + Pending(rest, q, v) == Matches(all, q, v) {
      PendingWithout(queue, i, q, v);
      assert multiset(out)[v] + Pending(queue, q, v) == Matches(all, q, v);
    }
  }

  /** Reporting the first item. */
  lemma {:induction false} ReportKeeps<K, V(!new)>(out: seq<V>, queue: seq<Item<K, V>>, i: nat, all: seq<V>, q: Query<K, V>)
    requires AllFair(queue, q) && Ascending(out, q.distance) && Ahead(out, queue, q) && Accounted(out, queue, all, q)
    requires i < |queue| && queue[i].Heap? && forall j :: 0 <= j < |queue| ==> queue[i].at <= queue[j].at
    ensures var rest := queue[..i] + queue[i + 1..];
            && Ascending(out + [queue[i].value], q.distance)
            && Ahead(out + [queue[i].value], rest, q)
            && Accounted(out + [queue[i].value], rest, all, q)
  {
    FirstIsNearestToRest(queue, i, q);
    ReportAccounts(out, queue, i, all, q);
    AscendingAppend(out, queue[i].value, q.distance);
    AheadAppend(out, queue[i].value, queue, queue[..i] + queue[i + 1..], q);
  }

  /** Opening the first item, a page, into the queue. */
  lemma {:induction false} OpenKeeps<K, V(!new)>(out: seq<V>, queue: seq<Item<K, V>>, i: nat, wider: seq<Item<K, V>>, all: seq<V>, q: Query<K, V>)
    requires Ahead(out, queue, q) && Accounted(out, queue, all, q) && i < |queue| && queue[i].Lower?
    requires forall v :: Pending(wider, q, v) == Pending(queue[..i] + queue[i + 1..], q, v) + Matches(Values(queue[i].page), q, v)
    ensures Ahead(out, wider, q) && Accounted(out, wider, all, q)
  {
    forall v ensures Pending(wider, q, v) == Pending(queue, q, v) { PendingWithout(queue, i, q, v); }
  }

  /** The whole scan: exactly the matches, each as often as it is stored, nearest first. */
  method Nearest<K(!new), V(!new)>(t: Tree<K, V>, q: Query<K, V>) returns (out: seq<V>)
    requires Admissible(q) && Sound(t, q.covers)
    ensures multiset(out) == multiset(Filter(Values(t), q.leaf))
    ensures Ascending(out, q.distance)
  {
    out := [];
    var queue := ScanPage([], t, q);
    while queue != []
      invariant AllFair(queue, q) && Ascending(out, q.distance)
      invariant Ahead(out, queue, q) && Accounted(out, queue, Values(t), q)
      decreases Weight(queue)
    {
      var i := TakeFirst(queue);
      var rest := queue[..i] + queue[i + 1..];
      WithoutFair(queue, i, q);
      match queue[i]
      case Heap(v, _) =>
        ReportKeeps(out, queue, i, Values(t), q);
        out, queue := out + [v], rest;
      case Lower(page, _) =>
        var next := ScanPage(rest, page, q);
        OpenKeeps(out, queue, i, next, Values(t), q);
        queue := next;
    }
    AllReported(out, queue, Values(t), q);
  }
}
