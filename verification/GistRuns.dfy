/**
 A search tree under change: inserts that grow the keys on their way down, page splits
 at any level, removals that leave keys as they are, and pages that leave the tree.
 Every run of such steps keeps each key covering all that is below it, so every search
 of every tree reached returns exactly the values inserted and not removed that match.
 */
module GistRuns {
  import opened GistTree

  /** How an index makes keys, and what pages and keys a split of a page's entries gives. */
  datatype Method<!K, !V> = Method(keys: Keys<K, V>, isSplit: (seq<K>, seq<nat>, seq<nat>, K, K) -> bool)

  /** What happens at the end of a descent. */
  datatype Local<K, V> =
    | Add(v: V)               // a value goes on a leaf page
    | Touch(v: V)             // the descent for a value is given up; keys have grown
    | Take(at: nat)           // vacuum removes a value of a leaf page
    | Unlink(child: nat)      // an empty leaf page leaves its parent
    | SplitChild(child: nat, left: seq<nat>, right: seq<nat>, lkey: K, rkey: K)

  /** A change below the root along a path, with the keys the path has afterwards, or a split of the root. */
  datatype Change<K, V> =
    | Edits(path: seq<nat>, grown: seq<K>, local: Local<K, V>)
    | SplitRoot(left: seq<nat>, right: seq<nat>, lkey: K, rkey: K)

  predicate InRange(n: nat, at: seq<nat>) {
    forall i :: 0 <= i < |at| ==> at[i] < n
  }

  /** n different positions below n, in any order. */
  predicate Permutes(n: nat, all: seq<nat>) {
    |all| == n && InRange(n, all) && forall i, j :: 0 <= i < j < |all| ==> all[i] != all[j]
  }

  function Chosen<T>(s: seq<T>, at: seq<nat>): (r: seq<T>)
    requires forall i :: 0 <= i < |at| ==> at[i] < |s|
    ensures |r| == |at| && forall i :: 0 <= i < |at| ==> r[i] == s[at[i]]
  {
    seq(|at|, i requires 0 <= i < |at| => s[at[i]])
  }

  predicate WellFormed<K, V>(t: Tree<K, V>) {
    t.Inner? ==> |t.keys| == |t.children|
  }

  function Width<K, V>(t: Tree<K, V>): nat {
    match t
    case Page(vs) => |vs|
    case Inner(ks, _) => |ks|
  }

  /** One half of a page. */
  function Half<K, V>(t: Tree<K, V>, at: seq<nat>): Tree<K, V>
    requires WellFormed(t) && InRange(Width(t), at)
  {
    match t
    case Page(vs) => Page(Chosen(vs, at))
    case Inner(ks, ts) => Inner(Chosen(ks, at), Chosen(ts, at))
  }

  function Drop<T>(s: seq<T>, i: nat): seq<T>
    requires i < |s|
  {
    s[..i] + s[i + 1..]
  }

  // ---------------------------------------------------------------- the steps

  ghost predicate SplitAllowed<K, V>(m: Method<K, V>, t: Tree<K, V>, left: seq<nat>, right: seq<nat>, lkey: K, rkey: K) {
    && WellFormed(t) && InRange(Width(t), left) && InRange(Width(t), right)
    && m.isSplit(Entries(t, m.keys), left, right, lkey, rkey)
  }

  ghost predicate AllowedHere<K, V>(m: Method<K, V>, t: Tree<K, V>, l: Local<K, V>) {
    match l
    case Add(v) => t.Page?
    case Touch(v) => true
    case Take(i) => t.Page? && i < |t.values|
    case Unlink(c) => t.Inner? && c < |t.keys| == |t.children| && t.children[c] == Page([])
    case SplitChild(c, left, right, lk, rk) =>
      t.Inner? && c < |t.keys| == |t.children| && SplitAllowed(m, t.children[c], left, right, lk, rk)
  }

  /** A downlink on the way is the union of its old key and the new value's, or is left alone. */
  ghost predicate KeyAfter<K, V>(m: Method<K, V>, old_: K, new_: K, l: Local<K, V>) {
    if l.Add? || l.Touch? then m.keys.isUnion([old_, m.keys.leafKey(l.v)], new_) else new_ == old_
  }

  ghost predicate Allowed<K, V>(m: Method<K, V>, t: Tree<K, V>, path: seq<nat>, grown: seq<K>, l: Local<K, V>)
    decreases |path|
  {
    if path == [] then AllowedHere(m, t, l)
    else
      && t.Inner? && path[0] < |t.keys| == |t.children| && grown != []
      && KeyAfter(m, t.keys[path[0]], grown[0], l)
      && Allowed(m, t.children[path[0]], path[1..], grown[1..], l)
  }

  ghost function EditHere<K, V>(m: Method<K, V>, t: Tree<K, V>, l: Local<K, V>): Tree<K, V>
    requires AllowedHere(m, t, l)
  {
    match l
    case Add(v) => Page(t.values + [v])
    case Touch(_) => t
    case Take(i) => Page(Drop(t.values, i))
    case Unlink(c) => Inner(Drop(t.keys, c), Drop(t.children, c))
    case SplitChild(c, left, right, lk, rk) =>
      Inner(Drop(t.keys, c) + [lk, rk], Drop(t.children, c) + [Half(t.children[c], left), Half(t.children[c], right)])
  }

  ghost function Edit<K, V>(m: Method<K, V>, t: Tree<K, V>, path: seq<nat>, grown: seq<K>, l: Local<K, V>): Tree<K, V>
    requires Allowed(m, t, path, grown, l)
    decreases |path|
  {
    if path == [] then EditHere(m, t, l)
    else
      var i := path[0];
      Inner(t.keys[i := grown[0]], t.children[i := Edit(m, t.children[i], path[1..], grown[1..], l)])
  }

  ghost predicate Enabled<K, V>(m: Method<K, V>, t: Tree<K, V>, c: Change<K, V>) {
    match c
    case Edits(path, grown, l) => Allowed(m, t, path, grown, l)
    case SplitRoot(left, right, lk, rk) => SplitAllowed(m, t, left, right, lk, rk)
  }

  ghost function Next<K, V>(m: Method<K, V>, t: Tree<K, V>, c: Change<K, V>): Tree<K, V>
    requires Enabled(m, t, c)
  {
    match c
    case Edits(path, grown, l) => Edit(m, t, path, grown, l)
    case SplitRoot(left, right, lk, rk) => Inner([lk, rk], [Half(t, left), Half(t, right)])
  }

  // ---------------------------------------------------------------- laws of the method

  ghost predicate CoversChosen<K, V(!new)>(m: Keys<K, V>, es: seq<K>, at: seq<nat>, k: K) {
    forall i, v :: 0 <= i < |at| && at[i] < |es| && m.covers(es[at[i]], v) ==> m.covers(k, v)
  }

  /** A split distributes the entries, and each side's key is valid and covers what that side's entries cover. */
  ghost predicate SplitLaw<K(!new), V(!new)>(m: Method<K, V>, es: seq<K>, left: seq<nat>, right: seq<nat>, lk: K, rk: K) {
    && Permutes(|es|, left + right)
    && m.keys.valid(lk) && CoversChosen(m.keys, es, left, lk)
    && m.keys.valid(rk) && CoversChosen(m.keys, es, right, rk)
  }

  ghost predicate LawfulMethod<K(!new), V(!new)>(m: Method<K, V>) {
    && Lawful(m.keys)
    && forall es, left, right, lk, rk :: m.isSplit(es, left, right, lk, rk) && AllValid(m.keys, es) ==> SplitLaw(m, es, left, right, lk, rk)
  }

  // ---------------------------------------------------------------- what every step keeps

  ghost predicate KeysValid<K, V>(t: Tree<K, V>, m: Keys<K, V>) {
    t.Inner? ==> AllValid(m, t.keys) && forall i :: 0 <= i < |t.children| ==> KeysValid(t.children[i], m)
  }

  /** Every key is valid and covers every value below it. */
  ghost predicate Good<K, V(!new)>(m: Method<K, V>, t: Tree<K, V>) {
    Sound(t, m.keys.covers) && KeysValid(t, m.keys)
  }

  lemma {:induction false} EntriesValid<K(!new), V(!new)>(m: Method<K, V>, t: Tree<K, V>)
    requires LawfulMethod(m) && Good(m, t)
    ensures AllValid(m.keys, Entries(t, m.keys))
  {
  }

  lemma {:induction false} HalfGood<K(!new), V(!new)>(m: Method<K, V>, t: Tree<K, V>, at: seq<nat>)
    requires Good(m, t) && WellFormed(t) && InRange(Width(t), at)
    ensures Good(m, Half(t, at))
    ensures forall v :: Below(Half(t, at), v) ==> Below(t, v)
  {
    if t.Inner? {
      var h := Half(t, at);
      forall i, v | 0 <= i < |h.children| && Below(h.children[i], v) ensures m.keys.covers(h.keys[i], v) && Below(t, v) {
        assert Below(t.children[at[i]], v);
      }
    }
  }

  /** The key of a half covers every value on it. */
  lemma {:induction false} HalfCovered<K(!new), V(!new)>(m: Method<K, V>, t: Tree<K, V>, at: seq<nat>, k: K, v: V)
    requires LawfulMethod(m) && Good(m, t) && WellFormed(t) && InRange(Width(t), at)
    requires CoversChosen(m.keys, Entries(t, m.keys), at, k) && Below(Half(t, at), v)
    ensures m.keys.covers(k, v)
  {
    var es, h := Entries(t, m.keys), Half(t, at);
    match t
    case Page(vs) =>
      var i :| 0 <= i < |h.values| && h.values[i] == v;
      assert m.keys.covers(es[at[i]], v);
    case Inner(ks, ts) =>
      var i :| 0 <= i < |h.children| && Below(h.children[i], v);
      assert Below(ts[at[i]], v);
      assert m.keys.covers(es[at[i]], v);
  }

  lemma {:induction false} SplitKeeps<K(!new), V(!new)>(m: Method<K, V>, t: Tree<K, V>, left: seq<nat>, right: seq<nat>, lk: K, rk: K)
    requires LawfulMethod(m) && Good(m, t) && SplitAllowed(m, t, left, right, lk, rk)
    ensures SplitLaw(m, Entries(t, m.keys), left, right, lk, rk)
    ensures Good(m, Half(t, left)) && Good(m, Half(t, right))
    ensures forall v :: Below(Half(t, left), v) ==> Below(t, v) && m.keys.covers(lk, v)
    ensures forall v :: Below(Half(t, right), v) ==> Below(t, v) && m.keys.covers(rk, v)
  {
    EntriesValid(m, t);
    HalfGood(m, t, left);
    HalfGood(m, t, right);
    forall v | Below(Half(t, left), v) ensures m.keys.covers(lk, v) { HalfCovered(m, t, left, lk, v); }
    forall v | Below(Half(t, right), v) ensures m.keys.covers(rk, v) { HalfCovered(m, t, right, rk, v); }
  }

  /** An inner node is good if its keys are valid and each pair of key and child is. */
  ghost predicate PairGood<K, V(!new)>(m: Method<K, V>, k: K, t: Tree<K, V>) {
    m.keys.valid(k) && Good(m, t) && forall v :: Below(t, v) ==> m.keys.covers(k, v)
  }

  lemma {:induction false} GoodPairs<K(!new), V(!new)>(m: Method<K, V>, ks: seq<K>, ts: seq<Tree<K, V>>)
    requires |ks| == |ts| && forall i :: 0 <= i < |ts| ==> PairGood(m, ks[i], ts[i])
    ensures Good(m, Inner(ks, ts))
  {
    forall i, v | 0 <= i < |ts| && Below(ts[i], v) ensures m.keys.covers(ks[i], v) { assert PairGood(m, ks[i], ts[i]); }
    forall i | 0 <= i < |ts| ensures Sound(ts[i], m.keys.covers) && KeysValid(ts[i], m.keys) && m.keys.valid(ks[i]) {
      assert PairGood(m, ks[i], ts[i]);
    }
  }

  lemma {:induction false} PairsGood<K(!new), V(!new)>(m: Method<K, V>, t: Tree<K, V>)
    requires Good(m, t) && t.Inner?
    ensures |t.keys| == |t.children| && forall i :: 0 <= i < |t.children| ==> PairGood(m, t.keys[i], t.children[i])
  {
  }

  /** The values a change may bring in. */
  ghost predicate Gains<K, V>(l: Local<K, V>, v: V) {
    l.Add? && l.v == v
  }

  lemma {:induction false} UnlinkKeeps<K(!new), V(!new)>(m: Method<K, V>, t: Tree<K, V>, c: nat)
    requires Good(m, t) && AllowedHere(m, t, Unlink(c))
    ensures Good(m, EditHere(m, t, Unlink(c)))
    ensures forall v :: Below(EditHere(m, t, Unlink(c)), v) ==> Below(t, v)
  {
    var t' := EditHere(m, t, Unlink(c));
    PairsGood(m, t);
    GoodPairs(m, t'.keys, t'.children);
    forall v | Below(t', v) ensures Below(t, v) {
      var i :| 0 <= i < |t'.children| && Below(t'.children[i], v);
      assert Below(t.children[if i < c then i else i + 1], v);
    }
  }

  lemma {:induction false} ReplacedGood<K(!new), V(!new)>(m: Method<K, V>, ks: seq<K>, ts: seq<Tree<K, V>>, c: nat,
                                                          lk: K, lh: Tree<K, V>, rk: K, rh: Tree<K, V>)
    requires c < |ks| == |ts| && forall i :: 0 <= i < |ts| ==> PairGood(m, ks[i], ts[i])
    requires PairGood(m, lk, lh) && PairGood(m, rk, rh)
    ensures Good(m, Inner(Drop(ks, c) + [lk, rk], Drop(ts, c) + [lh, rh]))
  {
    var ks', ts', n := Drop(ks, c) + [lk, rk], Drop(ts, c) + [lh, rh], |ts| - 1;
    forall i | 0 <= i < |ts'| ensures PairGood(m, ks'[i], ts'[i]) {
      if i < n { assert PairGood(m, ks[if i < c then i else i + 1], ts[if i < c then i else i + 1]); }
    }
    GoodPairs(m, ks', ts');
  }

  lemma {:induction false} ReplacedBelow<K, V>(ks: seq<K>, ts: seq<Tree<K, V>>, ks': seq<K>, c: nat, lh: Tree<K, V>, rh: Tree<K, V>, v: V)
    requires c < |ts| && Below(Inner(ks', Drop(ts, c) + [lh, rh]), v)
    requires Below(lh, v) || Below(rh, v) ==> Below(ts[c], v)
    ensures Below(Inner(ks, ts), v)
  {
    var ts', n := Drop(ts, c) + [lh, rh], |ts| - 1;
    var i :| 0 <= i < |ts'| && Below(ts'[i], v);
    assert Below(ts[if i < c then i else if i < n then i + 1 else c], v);
  }

  lemma {:induction false} SplitChildKeeps<K(!new), V(!new)>(m: Method<K, V>, t: Tree<K, V>, l: Local<K, V>)
    requires LawfulMethod(m) && Good(m, t) && l.SplitChild? && AllowedHere(m, t, l)
    ensures Good(m, EditHere(m, t, l))
    ensures forall v :: Below(EditHere(m, t, l), v) ==> Below(t, v)
  {
    var t', c := EditHere(m, t, l), l.child;
    var lh, rh := Half(t.children[c], l.left), Half(t.children[c], l.right);
    PairsGood(m, t);
    assert PairGood(m, t.keys[c], t.children[c]);
    SplitKeeps(m, t.children[c], l.left, l.right, l.lkey, l.rkey);
    ReplacedGood(m, t.keys, t.children, c, l.lkey, lh, l.rkey, rh);
    forall v | Below(t', v) ensures Below(t, v) { ReplacedBelow(t.keys, t.children, t'.keys, c, lh, rh, v); }
  }

  lemma {:induction false} EditHereKeeps<K(!new), V(!new)>(m: Method<K, V>, t: Tree<K, V>, l: Local<K, V>)
    requires LawfulMethod(m) && Good(m, t) && AllowedHere(m, t, l)
    ensures Good(m, EditHere(m, t, l))
    ensures forall v :: Below(EditHere(m, t, l), v) ==> Below(t, v) || Gains(l, v)
  {
    match l
    case Unlink(c) => UnlinkKeeps(m, t, c);
    case SplitChild(_, _, _, _, _) => SplitChildKeeps(m, t, l);
    case _ =>
  }

  /** A grown key covers what it covered and the value it grew for. */
  lemma {:induction false} GrownCovers<K(!new), V(!new)>(m: Method<K, V>, k: K, k': K, l: Local<K, V>)
    requires LawfulMethod(m) && m.keys.valid(k) && KeyAfter(m, k, k', l)
    ensures m.keys.valid(k')
    ensures forall v :: m.keys.covers(k, v) || Gains(l, v) ==> m.keys.covers(k', v)
  {
    if l.Add? || l.Touch? {
      var es := [k, m.keys.leafKey(l.v)];
      assert AllValid(m.keys, es);
      assert CoversAll(m.keys, es, k');
      assert es[0] == k && es[1] == m.keys.leafKey(l.v);
    }
  }

  lemma {:induction false} EditKeeps<K(!new), V(!new)>(m: Method<K, V>, t: Tree<K, V>, path: seq<nat>, grown: seq<K>, l: Local<K, V>)
    requires LawfulMethod(m) && Good(m, t) && Allowed(m, t, path, grown, l)
    ensures Good(m, Edit(m, t, path, grown, l))
    ensures forall v :: Below(Edit(m, t, path, grown, l), v) ==> Below(t, v) || Gains(l, v)
    decreases |path|
  {
    if path == [] {
      EditHereKeeps(m, t, l);
    } else {
      var i := path[0];
      var t' := Edit(m, t, path, grown, l);
      EditKeeps(m, t.children[i], path[1..], grown[1..], l);
      PairsGood(m, t);
      GrownCovers(m, t.keys[i], grown[0], l);
      GoodPairs(m, t'.keys, t'.children);
      forall v | Below(t', v) ensures Below(t, v) || Gains(l, v) {
        var j :| 0 <= j < |t'.children| && Below(t'.children[j], v);
        assert j != i ==> Below(t.children[j], v);
      }
    }
  }

  /** Every step keeps every key covering what is below it. */
  lemma {:induction false} StepKeeps<K(!new), V(!new)>(m: Method<K, V>, t: Tree<K, V>, c: Change<K, V>)
    requires LawfulMethod(m) && Good(m, t) && Enabled(m, t, c)
    ensures Good(m, Next(m, t, c))
  {
    match c
    case Edits(path, grown, l) => EditKeeps(m, t, path, grown, l);
    case SplitRoot(left, right, lk, rk) =>
      SplitKeeps(m, t, left, right, lk, rk);
      GoodPairs(m, [lk, rk], [Half(t, left), Half(t, right)]);
  }

  // ---------------------------------------------------------------- nothing is lost or made up

  function Occurs<V(==)>(vs: seq<V>, v: V): nat {
    if vs == [] then 0 else Occurs(vs[..|vs| - 1], v) + (if vs[|vs| - 1] == v then 1 else 0)
  }

  lemma {:induction false} OccursConcat<V>(a: seq<V>, b: seq<V>, v: V)
    ensures Occurs(a + b, v) == Occurs(a, v) + Occurs(b, v)
  {
    if b == [] {
      assert a + b == a;
    } else {
      assert (a + b)[..|a + b| - 1] == a + b[..|b| - 1];
      OccursConcat(a, b[..|b| - 1], v);
    }
  }

  lemma {:induction false} OccursDrop<V>(vs: seq<V>, i: nat, v: V)
    requires i < |vs|
    ensures Occurs(vs, v) == Occurs(Drop(vs, i), v) + (if vs[i] == v then 1 else 0)
  {
    assert vs == vs[..i] + [vs[i]] + vs[i + 1..];
    OccursConcat(vs[..i] + [vs[i]], vs[i + 1..], v);
    OccursConcat(vs[..i], [vs[i]], v);
    OccursConcat(vs[..i], vs[i + 1..], v);
    assert [vs[i]][..0] == [];
  }

  /** How often a value is in the tree. */
  function Count<K, V(==)>(t: Tree<K, V>, v: V): nat
    decreases t, 1
  {
    match t
    case Page(vs) => Occurs(vs, v)
    case Inner(_, ts) => CountOf(ts, v)
  }

  function CountOf<K, V(==)>(ts: seq<Tree<K, V>>, v: V): nat
    decreases ts, 0
  {
    if ts == [] then 0 else CountOf(ts[..|ts| - 1], v) + Count(ts[|ts| - 1], v)
  }

  lemma {:induction false} CountConcat<K, V>(a: seq<Tree<K, V>>, b: seq<Tree<K, V>>, v: V)
    ensures CountOf(a + b, v) == CountOf(a, v) + CountOf(b, v)
    decreases |b|
  {
    if b == [] {
      assert a + b == a;
    } else {
      assert (a + b)[..|a + b| - 1] == a + b[..|b| - 1];
      CountConcat(a, b[..|b| - 1], v);
    }
  }

  lemma {:induction false} CountDrop<K, V>(ts: seq<Tree<K, V>>, i: nat, v: V)
    requires i < |ts|
    ensures CountOf(ts, v) == CountOf(Drop(ts, i), v) + Count(ts[i], v)
  {
    assert ts == ts[..i] + [ts[i]] + ts[i + 1..];
    CountConcat(ts[..i] + [ts[i]], ts[i + 1..], v);
    CountConcat(ts[..i], [ts[i]], v);
    CountConcat(ts[..i], ts[i + 1..], v);
    assert [ts[i]][..0] == [];
  }

  lemma {:induction false} CountUpdate<K, V>(ts: seq<Tree<K, V>>, i: nat, t: Tree<K, V>, v: V)
    requires i < |ts|
    ensures CountOf(ts[i := t], v) + Count(ts[i], v) == CountOf(ts, v) + Count(t, v)
  {
    CountDrop(ts, i, v);
    CountDrop(ts[i := t], i, v);
    assert Drop(ts[i := t], i) == Drop(ts, i);
  }

  // sums over positions, in any order

  function SumAt(f: nat -> nat, at: seq<nat>): nat {
    if at == [] then 0 else SumAt(f, at[..|at| - 1]) + f(at[|at| - 1])
  }

  function SumTo(f: nat -> nat, n: nat): nat {
    if n == 0 then 0 else SumTo(f, n - 1) + f(n - 1)
  }

  lemma {:induction false} SumAtConcat(f: nat -> nat, a: seq<nat>, b: seq<nat>)
    ensures SumAt(f, a + b) == SumAt(f, a) + SumAt(f, b)
  {
    if b == [] {
      assert a + b == a;
    } else {
      assert (a + b)[..|a + b| - 1] == a + b[..|b| - 1];
      SumAtConcat(f, a, b[..|b| - 1]);
    }
  }

  lemma {:induction false} SumAtDrop(f: nat -> nat, at: seq<nat>, j: nat)
    requires j < |at|
    ensures SumAt(f, at) == SumAt(f, Drop(at, j)) + f(at[j])
  {
    assert at == at[..j] + [at[j]] + at[j + 1..];
    SumAtConcat(f, at[..j] + [at[j]], at[j + 1..]);
    SumAtConcat(f, at[..j], [at[j]]);
    SumAtConcat(f, at[..j], at[j + 1..]);
    assert [at[j]][..0] == [];
  }

  /** Summing over a permutation of positions is summing over all of them. */
  lemma {:induction false} SumPermutes(f: nat -> nat, n: nat, all: seq<nat>)
    requires Permutes(n, all)
    ensures SumAt(f, all) == SumTo(f, n)
  {
    if n > 0 {
      var j := LastPosition(n, all);
      SumAtDrop(f, all, j);
      SumPermutes(f, n - 1, Drop(all, j));
    }
  }

  /** A permutation of n positions has n - 1 somewhere, and is one of n - 1 positions without it. */
  lemma {:induction false} LastPosition(n: nat, all: seq<nat>) returns (j: nat)
    requires n > 0 && Permutes(n, all)
    ensures j < n && all[j] == n - 1 && Permutes(n - 1, Drop(all, j))
  {
    if n - 1 !in all { TooMany(n - 1, all); }
    j :| 0 <= j < |all| && all[j] == n - 1;
    var rest := Drop(all, j);
    assert forall i :: 0 <= i < |rest| ==> rest[i] == all[if i < j then i else i + 1];
  }

  /** More than n different numbers below n do not exist. */
  lemma {:induction false} TooMany(n: nat, all: seq<nat>)
    requires |all| > n && InRange(n, all)
    ensures exists i, j :: 0 <= i < j < |all| && all[i] == all[j]
  {
    assert all[0] < n;
    if exists k :: 0 <= k < |all| && all[k] == n - 1 {
      var k :| 0 <= k < |all| && all[k] == n - 1;
      var rest := Drop(all, k);
      if h :| 0 <= h < |rest| && rest[h] == n - 1 {
        assert all[if h < k then h else h + 1] == all[k];
      } else {
        TooMany(n - 1, rest);
        var i, j :| 0 <= i < j < |rest| && rest[i] == rest[j];
        assert all[if i < k then i else i + 1] == all[if j < k then j else j + 1];
      }
    } else {
      TooMany(n - 1, all);
    }
  }

  /** What entry i of a page contributes to the count of v. */
  function Weight<K, V(==)>(t: Tree<K, V>, v: V): nat -> nat {
    (i: nat) =>
      match t
      case Page(vs) => if i < |vs| && vs[i] == v then 1 else 0
      case Inner(_, ts) => if i < |ts| then Count(ts[i], v) else 0
  }

  lemma {:induction false} CountIsSum<K, V>(t: Tree<K, V>, v: V, n: nat)
    requires n <= match t case Page(vs) => |vs| case Inner(_, ts) => |ts|
    ensures match t
            case Page(vs) => Occurs(vs[..n], v) == SumTo(Weight(t, v), n)
            case Inner(_, ts) => CountOf(ts[..n], v) == SumTo(Weight(t, v), n)
  {
    if n > 0 {
      CountIsSum(t, v, n - 1);
      match t
      case Page(vs) => assert vs[..n][..n - 1] == vs[..n - 1];
      case Inner(_, ts) => assert ts[..n][..n - 1] == ts[..n - 1];
    }
  }

  lemma {:induction false} HalfIsSum<K, V>(t: Tree<K, V>, v: V, at: seq<nat>)
    requires WellFormed(t) && InRange(Width(t), at)
    ensures Count(Half(t, at), v) == SumAt(Weight(t, v), at)
    decreases |at|
  {
    if at != [] {
      var n := |at| - 1;
      HalfIsSum(t, v, at[..n]);
      match t
      case Page(vs) => assert Chosen(vs, at)[..n] == Chosen(vs, at[..n]);
      case Inner(_, ts) => assert Chosen(ts, at)[..n] == Chosen(ts, at[..n]);
    }
  }

  /** Both halves together hold what the page held. */
  lemma {:induction false} HalvesHoldAll<K, V>(t: Tree<K, V>, left: seq<nat>, right: seq<nat>, v: V)
    requires WellFormed(t) && InRange(Width(t), left) && InRange(Width(t), right) && Permutes(Width(t), left + right)
    ensures Count(Half(t, left), v) + Count(Half(t, right), v) == Count(t, v)
  {
    var f := Weight(t, v);
    HalfIsSum(t, v, left);
    HalfIsSum(t, v, right);
    SumAtConcat(f, left, right);
    SumPermutes(f, Width(t), left + right);
    CountIsSum(t, v, Width(t));
    match t
    case Page(vs) => assert vs[..|vs|] == vs;
    case Inner(_, ts) => assert ts[..|ts|] == ts;
  }

  /** How many occurrences of v a change adds, and how many it removes. */
  function Added<K, V(==)>(l: Local<K, V>, v: V): nat {
    if l.Add? && l.v == v then 1 else 0
  }

  ghost function Removed<K, V>(m: Method<K, V>, t: Tree<K, V>, path: seq<nat>, grown: seq<K>, l: Local<K, V>, v: V): nat
    requires Allowed(m, t, path, grown, l)
    decreases |path|
  {
    if path != [] then Removed(m, t.children[path[0]], path[1..], grown[1..], l, v)
    else if l.Take? && t.values[l.at] == v then 1 else 0
  }

  lemma {:induction false} SplitChildConserves<K(!new), V(!new)>(m: Method<K, V>, t: Tree<K, V>, l: Local<K, V>, v: V)
    requires LawfulMethod(m) && Good(m, t) && l.SplitChild? && AllowedHere(m, t, l)
    ensures Count(EditHere(m, t, l), v) == Count(t, v)
  {
    var s := t.children[l.child];
    var lh, rh := Half(s, l.left), Half(s, l.right);
    SplitKeeps(m, s, l.left, l.right, l.lkey, l.rkey);
    HalvesHoldAll(s, l.left, l.right, v);
    CountDrop(t.children, l.child, v);
    CountPair(Drop(t.children, l.child), lh, rh, v);
  }

  lemma {:induction false} CountPair<K, V>(ts: seq<Tree<K, V>>, a: Tree<K, V>, b: Tree<K, V>, v: V)
    ensures CountOf(ts + [a, b], v) == CountOf(ts, v) + Count(a, v) + Count(b, v)
  {
    assert ts + [a, b] == (ts + [a]) + [b];
    assert (ts + [a, b])[..|ts| + 1] == ts + [a];
    assert (ts + [a])[..|ts|] == ts;
  }

  lemma {:induction false} EditConserves<K(!new), V(!new)>(m: Method<K, V>, t: Tree<K, V>, path: seq<nat>, grown: seq<K>, l: Local<K, V>, v: V)
    requires LawfulMethod(m) && Good(m, t) && Allowed(m, t, path, grown, l)
    ensures Count(Edit(m, t, path, grown, l), v) + Removed(m, t, path, grown, l, v) == Count(t, v) + Added(l, v)
    decreases |path|
  {
    if path != [] {
      var i := path[0];
      EditConserves(m, t.children[i], path[1..], grown[1..], l, v);
      CountUpdate(t.children, i, Edit(m, t.children[i], path[1..], grown[1..], l), v);
    } else {
      match l
      case Add(x) => assert (t.values + [x])[..|t.values|] == t.values;
      case Touch(_) =>
      case Take(i) => OccursDrop(t.values, i, v);
      case Unlink(c) => CountDrop(t.children, c, v);
      case SplitChild(_, _, _, _, _) => SplitChildConserves(m, t, l, v);
    }
  }

  // ---------------------------------------------------------------- whole runs

  ghost function StepAdds<K, V>(c: Change<K, V>, v: V): nat {
    if c.Edits? then Added(c.local, v) else 0
  }

  ghost function StepRemoves<K, V>(m: Method<K, V>, t: Tree<K, V>, c: Change<K, V>, v: V): nat
    requires Enabled(m, t, c)
  {
    match c
    case Edits(path, grown, l) => Removed(m, t, path, grown, l, v)
    case SplitRoot(_, _, _, _) => 0
  }

  lemma {:induction false} StepConserves<K(!new), V(!new)>(m: Method<K, V>, t: Tree<K, V>, c: Change<K, V>, v: V)
    requires LawfulMethod(m) && Good(m, t) && Enabled(m, t, c)
    ensures Count(Next(m, t, c), v) + StepRemoves(m, t, c, v) == Count(t, v) + StepAdds(c, v)
  {
    match c
    case Edits(path, grown, l) => EditConserves(m, t, path, grown, l, v);
    case SplitRoot(left, right, lk, rk) =>
      SplitKeeps(m, t, left, right, lk, rk);
      HalvesHoldAll(t, left, right, v);
      CountPair([], Half(t, left), Half(t, right), v);
      assert [] + [Half(t, left), Half(t, right)] == [Half(t, left), Half(t, right)];
  }

  /** Changes made one after the other, each allowed where it is made. */
  ghost predicate Runs<K, V>(m: Method<K, V>, t: Tree<K, V>, cs: seq<Change<K, V>>, end: Tree<K, V>)
    decreases |cs|
  {
    if cs == [] then end == t else Enabled(m, t, cs[0]) && Runs(m, Next(m, t, cs[0]), cs[1..], end)
  }

  /** How often a run inserts v, and how often it removes v. */
  ghost function Inserts<K, V>(cs: seq<Change<K, V>>, v: V): nat {
    if cs == [] then 0 else StepAdds(cs[0], v) + Inserts(cs[1..], v)
  }

  ghost function Removes<K, V>(m: Method<K, V>, t: Tree<K, V>, cs: seq<Change<K, V>>, end: Tree<K, V>, v: V): nat
    requires Runs(m, t, cs, end)
    decreases |cs|
  {
    if cs == [] then 0 else StepRemoves(m, t, cs[0], v) + Removes(m, Next(m, t, cs[0]), cs[1..], end, v)
  }

  /** After any run keys cover what is below them. */
  lemma {:induction false} RunKeeps<K(!new), V(!new)>(m: Method<K, V>, t: Tree<K, V>, cs: seq<Change<K, V>>, end: Tree<K, V>)
    requires LawfulMethod(m) && Good(m, t) && Runs(m, t, cs, end)
    ensures Good(m, end)
    decreases |cs|
  {
    if cs != [] {
      StepKeeps(m, t, cs[0]);
      RunKeeps(m, Next(m, t, cs[0]), cs[1..], end);
    }
  }

  /** After any run the tree holds each value as often as it was there, inserted and not removed. */
  lemma {:induction false} RunConserves<K(!new), V(!new)>(m: Method<K, V>, t: Tree<K, V>, cs: seq<Change<K, V>>, end: Tree<K, V>, v: V)
    requires LawfulMethod(m) && Good(m, t) && Runs(m, t, cs, end)
    ensures Occurs(Values(end), v) + Removes(m, t, cs, end, v) == Occurs(Values(t), v) + Inserts(cs, v)
    decreases |cs|
  {
    if cs != [] {
      var t' := Next(m, t, cs[0]);
      StepKeeps(m, t, cs[0]);
      StepConserves(m, t, cs[0], v);
      CountIsOccurs(t, v);
      CountIsOccurs(t', v);
      RunConserves(m, t', cs[1..], end, v);
    }
  }

  lemma {:induction false} CountIsOccurs<K, V>(t: Tree<K, V>, v: V)
    ensures Occurs(Values(t), v) == Count(t, v)
    decreases t, 1
  {
    if t.Inner? {
      CountIsOccursInner(t, |t.children|, v);
      assert t.children[..|t.children|] == t.children;
    }
  }

  lemma {:induction false} CountIsOccursInner<K, V>(t: Tree<K, V>, n: nat, v: V)
    requires t.Inner? && n <= |t.children|
    ensures Occurs(ValuesInner(t, n), v) == CountOf(t.children[..n], v)
    decreases t, 0, n
  {
    if n > 0 {
      CountIsOccursInner(t, n - 1, v);
      CountIsOccurs(t.children[n - 1], v);
      OccursConcat(ValuesInner(t, n - 1), Values(t.children[n - 1]), v);
      assert t.children[..n][..n - 1] == t.children[..n - 1];
    }
  }

  /** Every tree an index goes through answers a search with its matching values, all of them, in page order. */
  lemma {:induction false} RunSearchExact<K(!new), V(!new)>(m: Method<K, V>, t: Tree<K, V>, cs: seq<Change<K, V>>, end: Tree<K, V>,
                                                            leaf: V -> bool, inner: K -> bool)
    requires LawfulMethod(m) && Good(m, t) && Runs(m, t, cs, end)
    requires forall k, v :: m.keys.covers(k, v) && leaf(v) ==> inner(k)
    ensures Search(end, leaf, inner) == Filter(Values(end), leaf)
  {
    RunKeeps(m, t, cs, end);
    SearchIsFilter(end, m.keys.covers, leaf, inner);
  }

  /** A tree whose keys are all unions of their pages, such as one empty page, is where a run may start. */
  lemma {:induction false} UnionBuiltGood<K(!new), V(!new)>(m: Method<K, V>, t: Tree<K, V>)
    requires LawfulMethod(m) && UnionBuilt(t, m.keys)
    ensures Good(m, t)
  {
    UnionBuiltSound(t, m.keys);
    UnionBuiltKeysValid(t, m.keys);
  }

  lemma {:induction false} UnionBuiltKeysValid<K(!new), V(!new)>(t: Tree<K, V>, m: Keys<K, V>)
    requires Lawful(m) && UnionBuilt(t, m)
    ensures KeysValid(t, m)
  {
    if t.Inner? {
      UnionBuiltValid(t, m);
      forall i | 0 <= i < |t.children| ensures KeysValid(t.children[i], m) { UnionBuiltKeysValid(t.children[i], m); }
    }
  }
}
