/**
 The box index under change: unions on the way down, quadratic splits at any level,
 removals. Every tree reached answers searches exactly and supports ordered scans.
 */
module CubeRuns {
  import opened Cube
  import opened CubeDistance
  import opened CubeSearch
  import opened CubeSplit
  import opened GistTree
  import GistNearest
  import GistRuns

  /** Offsets of an entry vector, which start at 1, for positions of a page. */
  function Offsets(at: seq<nat>): (r: seq<nat>)
    ensures |r| == |at| && forall i :: 0 <= i < |at| ==> r[i] == at[i] + 1
  {
    seq(|at|, i requires 0 <= i < |at| => at[i] + 1)
  }

  /** The split method's outcome for a page's entries behind the unused position 0. */
  ghost predicate SplitsWith(es: seq<Box>, blank: Box, one: nat, two: nat, left: seq<nat>, right: seq<nat>, lk: Box, rk: Box) {
    var vector := [blank] + es;
    && |es| >= 2 && SeedsOf(vector, one, two, WasteOf)
    && Placed(Guttman(), vector, one, two, |es|) == Sides(Offsets(left), Offsets(right), lk, rk)
  }

  ghost predicate SplitsTo(es: seq<Box>, left: seq<nat>, right: seq<nat>, lk: Box, rk: Box) {
    exists blank, one, two :: SplitsWith(es, blank, one, two, left, right, lk, rk)
  }

  ghost function CubeMethod(): GistRuns.Method<Box, Box> {
    GistRuns.Method(CubeKeys(), SplitsTo)
  }

  lemma {:induction false} PartitionPermutes(s: Sides, n: nat, left: seq<nat>, right: seq<nat>)
    requires Partition(s, n) && s.left == Offsets(left) && s.right == Offsets(right)
    ensures GistRuns.Permutes(n, left + right)
  {
    var all := left + right;
    forall i | 0 <= i < |all| ensures all[i] < n {
      assert if i < |left| then s.left[i] in s.left else s.right[i - |left|] in s.right;
    }
    forall i, j | 0 <= i < j < |all| ensures all[i] != all[j] {
      if j < |left| {
        assert s.left[i] < s.left[j];
      } else if i < |left| {
        assert s.left[i] in s.left && s.right[j - |left|] in s.right;
      } else {
        assert s.right[i - |left|] < s.right[j - |left|];
      }
    }
  }

  lemma {:induction false} SideCovers(es: seq<Box>, blank: Box, at: seq<nat>, k: Box)
    requires CoversSide([blank] + es, Offsets(at), k)
    ensures GistRuns.CoversChosen(CubeKeys(), es, at, k)
  {
    var vector := [blank] + es;
    forall i, v | 0 <= i < |at| && at[i] < |es| && Covers(es[at[i]], v) ensures Covers(k, v) {
      assert Offsets(at)[i] == at[i] + 1 && vector[at[i] + 1] == es[at[i]];
      CoversTransitive(k, es[at[i]], v);
    }
  }

  lemma {:induction false} PlacedLawful(m: Measure, es: seq<Box>, blank: Box, one: nat, two: nat, s: Sides, left: seq<nat>, right: seq<nat>)
    requires Growing(m) && 1 <= one < two <= |es| && s == Placed(m, [blank] + es, one, two, |es|)
    requires s.left == Offsets(left) && s.right == Offsets(right)
    ensures GistRuns.Permutes(|es|, left + right)
    ensures GistRuns.CoversChosen(CubeKeys(), es, left, s.ldatum) && GistRuns.CoversChosen(CubeKeys(), es, right, s.rdatum)
  {
    PlacedIsPartition(m, [blank] + es, one, two);
    PartitionPermutes(s, |es|, left, right);
    SideCovers(es, blank, left, s.ldatum);
    SideCovers(es, blank, right, s.rdatum);
  }

  lemma {:induction false} SplitLawful(es: seq<Box>, blank: Box, one: nat, two: nat, left: seq<nat>, right: seq<nat>, lk: Box, rk: Box)
    requires SplitsWith(es, blank, one, two, left, right, lk, rk)
    ensures GistRuns.Permutes(|es|, left + right)
    ensures GistRuns.CoversChosen(CubeKeys(), es, left, lk) && GistRuns.CoversChosen(CubeKeys(), es, right, rk)
  {
    GuttmanGrows();
    PlacedLawful(Guttman(), es, blank, one, two, Sides(Offsets(left), Offsets(right), lk, rk), left, right);
  }

  /** The quadratic split distributes a page's boxes, and each side's box covers what was put there. */
  lemma {:induction false} CubeMethodLawful()
    ensures GistRuns.LawfulMethod(CubeMethod())
  {
    CubeKeysLawful();
    var m := CubeMethod();
    forall es, left, right, lk, rk | m.isSplit(es, left, right, lk, rk) && AllValid(m.keys, es)
      ensures GistRuns.SplitLaw(m, es, left, right, lk, rk)
    {
      var blank, one, two :| SplitsWith(es, blank, one, two, left, right, lk, rk);
      SplitLawful(es, blank, one, two, left, right, lk, rk);
    }
  }

  /**
   Every tree the index goes through by inserts, splits, removals and unlinked pages:
   searches are exact, given what containment in the query needs of the boxes below,
   ordered scans may trust the keys, and no box is lost.
   */
  lemma {:induction false} CubeRunsExact(t: Tree<Box, Box>, cs: seq<GistRuns.Change<Box, Box>>, end: Tree<Box, Box>,
                                         query: Box, st: Strategy, o: Ordering)
    requires UnionBuilt(t, CubeKeys()) && GistRuns.Runs(CubeMethod(), t, cs, end) && o.Valid()
    ensures (forall c :: Below(end, c) ==> Reachable(query, st)(c)) ==>
      Search(end, LeafTest(query, st), InternalTest(query, st)) == Filter(Values(end), LeafTest(query, st))
    ensures GistNearest.Admissible(Ordered(o)) && Sound(end, Ordered(o).covers)
    ensures forall c :: GistRuns.Occurs(Values(end), c) + GistRuns.Removes(CubeMethod(), t, cs, end, c)
                     == GistRuns.Occurs(Values(t), c) + GistRuns.Inserts(cs, c)
  {
    var m := CubeMethod();
    CubeMethodLawful();
    GistRuns.UnionBuiltGood(m, t);
    GistRuns.RunKeeps(m, t, cs, end);
    if forall c :: Below(end, c) ==> Reachable(query, st)(c) { CubeSearchExact(end, query, st); }
    CubeNearestAdmissible(end, o);
    forall c ensures GistRuns.Occurs(Values(end), c) + GistRuns.Removes(m, t, cs, end, c)
                  == GistRuns.Occurs(Values(t), c) + GistRuns.Inserts(cs, c)
    {
      GistRuns.RunConserves(m, t, cs, end, c);
    }
  }
}
