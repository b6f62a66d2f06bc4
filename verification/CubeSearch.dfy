/**
 The search tests of the box index: where the test on an internal key may be trusted
 to keep every page that holds a match.
 */
module CubeSearch {
  import opened Cube
  import opened CubeOrder
  import opened GistTree

  datatype Strategy = OverlapStrategy | SameStrategy | ContainsStrategy | ContainedByStrategy | OtherStrategy

  ghost predicate LeafConsistent(key: Box, query: Box, st: Strategy) {
    match st
    case OverlapStrategy => Overlap(key, query)
    case SameStrategy => CmpBox(key, query) == 0
    case ContainsStrategy => Contains(key, query)
    case ContainedByStrategy => Contains(query, key)
    case OtherStrategy => false
  }

  ghost predicate InternalConsistent(key: Box, query: Box, st: Strategy) {
    match st
    case OverlapStrategy => Overlap(key, query)
    case SameStrategy => Contains(key, query)
    case ContainsStrategy => Contains(key, query)
    case ContainedByStrategy => Overlap(key, query)
    case OtherStrategy => false
  }

  method LeafConsistentV0(key: Box, query: Box, st: Strategy) returns (r: bool)
    ensures r <==> LeafConsistent(key, query, st)
  {
    match st
    case OverlapStrategy => r := OverlapV0(key, query);
    case SameStrategy => var c := Cmp(key, query); r := c == 0;
    case ContainsStrategy => r := ContainsV0(key, query);
    case ContainedByStrategy => r := ContainsV0(query, key);
    case OtherStrategy => r := false;
  }

  method InternalConsistentV0(key: Box, query: Box, st: Strategy) returns (r: bool)
    ensures r <==> InternalConsistent(key, query, st)
  {
    match st
    case OverlapStrategy => r := OverlapV0(key, query);
    case SameStrategy => r := ContainsV0(key, query);
    case ContainsStrategy => r := ContainsV0(key, query);
    case ContainedByStrategy => r := OverlapV0(key, query);
    case OtherStrategy => r := false;
  }

  /** Overlap, equality and containment of the query: no key above a match is refused. */
  lemma {:induction false} NeverPrunes(key: Box, leaf: Box, query: Box, st: Strategy)
    requires Covers(key, leaf) && LeafConsistent(leaf, query, st) && st != ContainedByStrategy
    ensures InternalConsistent(key, query, st)
  {
    if st == SameStrategy { CmpZeroIff(leaf, query); }
  }

  /** Containment in the query: every key above a match is kept exactly when the query's further dimensions straddle zero. */
  lemma {:induction false} ContainedByIff(leaf: Box, query: Box)
    requires LeafConsistent(leaf, query, ContainedByStrategy)
    ensures (forall key: Box :: Covers(key, leaf) ==> InternalConsistent(key, query, ContainedByStrategy))
      <==> StraddlesFrom(query, leaf.dim)
  {
    if StraddlesFrom(query, leaf.dim) {
      forall key: Box | Covers(key, leaf) ensures Overlap(key, query) {
        forall i: nat ensures Lo(key, i) <= Hi(query, i) && Lo(query, i) <= Hi(key, i) { LoHi(leaf, i); }
      }
    }
    if forall key: Box :: Covers(key, leaf) ==> InternalConsistent(key, query, ContainedByStrategy) {
      assert Covers(leaf, leaf) && Overlap(leaf, query);
      forall i: nat | i >= leaf.dim ensures Lo(query, i) <= 0.0 <= Hi(query, i) {
        assert Lo(leaf, i) == 0.0 == Hi(leaf, i);
      }
    }
  }

  // ---------------------------------------------------------------- trees

  ghost function CubeKeys(): Keys<Box, Box> {
    Keys((c: Box) => c, (es: seq<Box>, k: Box) => IsUnion(es, k), (k: Box) => true, (k: Box, c: Box) => Covers(k, c))
  }

  lemma {:induction false} CubeKeysLawful()
    ensures Lawful(CubeKeys())
  {
    var m := CubeKeys();
    forall es, k | m.isUnion(es, k) && AllValid(m, es) ensures m.valid(k) && CoversAll(m, es, k) {
      forall i, v | 0 <= i < |es| && m.covers(es[i], v) ensures m.covers(k, v) { CoversTransitive(k, es[i], v); }
    }
  }

  ghost function LeafTest(query: Box, st: Strategy): Box -> bool {
    (c: Box) => LeafConsistent(c, query, st)
  }

  ghost function InternalTest(query: Box, st: Strategy): Box -> bool {
    (k: Box) => InternalConsistent(k, query, st)
  }

  /** What a search for containment in the query needs of the boxes below. */
  ghost function Reachable(query: Box, st: Strategy): Box -> bool {
    (c: Box) => st == ContainedByStrategy ==> StraddlesFrom(query, c.dim)
  }

  lemma {:induction false} NeverPrunesReachable(k: Box, c: Box, query: Box, st: Strategy)
    requires Covers(k, c) && Reachable(query, st)(c) && LeafConsistent(c, query, st)
    ensures InternalConsistent(k, query, st)
  {
    if st == ContainedByStrategy { ContainedByIff(c, query); } else { NeverPrunes(k, c, query, st); }
  }

  /** Wherever keys cover what is below them, a search finds exactly the boxes the operator accepts, in page order. */
  lemma {:induction false} CubeSearchExact(t: Tree<Box, Box>, query: Box, st: Strategy)
    requires Sound(t, CubeKeys().covers) && forall c :: Below(t, c) ==> Reachable(query, st)(c)
    ensures Search(t, LeafTest(query, st), InternalTest(query, st)) == Filter(Values(t), LeafTest(query, st))
  {
    forall k, c | CubeKeys().covers(k, c) && Reachable(query, st)(c) && LeafTest(query, st)(c)
      ensures InternalTest(query, st)(k)
    {
      NeverPrunesReachable(k, c, query, st);
    }
    SearchIsFilterWhere(t, CubeKeys().covers, Reachable(query, st), LeafTest(query, st), InternalTest(query, st));
  }

  /** A box whose page is skipped: a query that reaches into a third dimension away from zero. */
  lemma {:induction false} ContainedByMisses() returns (leaf: Box, query: Box)
    ensures LeafConsistent(leaf, query, ContainedByStrategy)
    ensures !InternalConsistent(leaf, query, ContainedByStrategy)
    ensures Covers(leaf, leaf)
  {
    leaf, query := NdBox(2, true, [1.0, 1.0]), NdBox(3, false, [0.0, 0.0, 1.0, 2.0, 2.0, 2.0]);
    assert Lo(query, 2) == 1.0;
    assert Hi(leaf, 2) == 0.0;
  }
}
