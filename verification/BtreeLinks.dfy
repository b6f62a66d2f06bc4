/**
 Pages of one index as a block map, and the walk to the left over half-dead pages.
 Nothing is assumed of the links: blocks may be missing, links may run in circles.
 */
module BtreeLinks {
  import opened BtreeKeys
  import opened Wrappers

  const P_NONE := 0

  datatype Status = Live | HalfDead | Deleted

  datatype Page = Page(prev: nat, next: nat, status: Status, level: nat, root: bool, high: Tuple, items: seq<Tuple>) {
    predicate Ignorable() {
      status != Live
    }

    predicate Rightmost() {
      next == P_NONE
    }

    /** Items with a key: an internal page's first one has none. */
    function Real(): seq<Tuple> {
      if level == 0 || items == [] then items else items[1..]
    }
  }

  /** Blocks that can be read and pass the checks made on loading; any other block is missing. */
  type Pages = map<nat, Page>

  /** The block k right links away. */
  function Right(pages: Pages, b: nat, k: nat): nat {
    if k == 0 then b
    else
      var a := Right(pages, b, k - 1);
      if a in pages then pages[a].next else P_NONE
  }

  /** The k-th page of the level that begins at b is there. */
  ghost predicate Reached(pages: Pages, b: nat, k: nat) {
    forall i: nat :: i <= k ==> Right(pages, b, i) in pages && Right(pages, b, i) != P_NONE
  }

  /** A level without half-dead or deleted pages; other levels may have them. */
  ghost predicate LiveLevel(pages: Pages, b: nat) {
    forall k: nat :: Reached(pages, b, k) ==> pages[Right(pages, b, k)].status == Live
  }

  /** Blocks reached by left links, each but the first half-dead and pointing back to the one before. */
  ghost predicate LeftChain(pages: Pages, start: nat, c: seq<nat>) {
    && c != [] && c[0] == start && (forall k :: 0 <= k < |c| ==> c[k] in pages)
    && (forall k, l :: 0 <= k && l == k + 1 < |c| ==> Linked(pages, c[k], c[l]))
  }

  ghost predicate Linked(pages: Pages, right: nat, left: nat)
    requires right in pages && left in pages
  {
    left != P_NONE && pages[right].prev == left && pages[left].next == right && pages[left].status == HalfDead
  }

  /** The chain ends where there is nothing to the left. */
  ghost predicate WholeChain(pages: Pages, start: nat, c: seq<nat>) {
    LeftChain(pages, start, c) && pages[c[|c| - 1]].prev == P_NONE
  }

  /** A chain that never comes back to its start has no block twice. */
  lemma {:induction false} ChainDistinct(pages: Pages, start: nat, c: seq<nat>, i: nat, j: nat)
    requires LeftChain(pages, start, c) && (forall k :: 1 <= k < |c| ==> c[k] != start) && i < j < |c|
    ensures c[i] != c[j]
    decreases i
  {
    if i > 0 {
      ChainDistinct(pages, start, c, i - 1, j - 1);
      assert Linked(pages, c[i - 1], c[i]) && Linked(pages, c[j - 1], c[j]);
    }
  }

  /** A chain that ends has no block twice: a repeated block would be followed by what followed it before. */
  lemma {:induction false} WholeChainDistinct(pages: Pages, start: nat, c: seq<nat>, i: nat, j: nat)
    requires WholeChain(pages, start, c) && i < j < |c|
    ensures c[i] != c[j]
    decreases |c| - j
  {
    assert Linked(pages, c[i], c[i + 1]);
    if j + 1 < |c| {
      WholeChainDistinct(pages, start, c, i + 1, j + 1);
      assert Linked(pages, c[j], c[j + 1]);
    }
  }

  /** Two chains from one start agree as far as both go. */
  lemma {:induction false} ChainsAgree(pages: Pages, start: nat, c: seq<nat>, d: seq<nat>, k: nat)
    requires LeftChain(pages, start, c) && LeftChain(pages, start, d) && k < |c| && k < |d|
    ensures c[k] == d[k]
  {
    if k > 0 {
      ChainsAgree(pages, start, c, d, k - 1);
      assert Linked(pages, c[k - 1], c[k]) && Linked(pages, d[k - 1], d[k]);
    }
  }

  lemma ChainGoesOn(pages: Pages, start: nat, c: seq<nat>, n: nat)
    requires LeftChain(pages, start, c) && n + 1 < |c|
    ensures pages[c[n]].prev != P_NONE
  {
    assert Linked(pages, c[n], c[n + 1]);
  }

  /** Where a walk along c stops short, no whole chain exists. */
  lemma {:induction false} NoWholeChain(pages: Pages, start: nat, c: seq<nat>, d: seq<nat>)
    requires LeftChain(pages, start, c) && pages[c[|c| - 1]].prev != P_NONE
    requires var last, reached := c[|c| - 1], pages[c[|c| - 1]].prev;
             reached in pages && Linked(pages, last, reached) ==> reached == start || reached == last
    ensures !WholeChain(pages, start, d)
  {
    if WholeChain(pages, start, d) {
      var n := if |c| < |d| then |c| - 1 else |d| - 1;
      ChainsAgree(pages, start, c, d, n);
      if |d| < |c| { ChainGoesOn(pages, start, c, n); }
      if |c| < |d| {
        assert Linked(pages, d[n], d[n + 1]);
        if d[n + 1] == start { WholeChainDistinct(pages, start, d, 0, n + 1); } else { WholeChainDistinct(pages, start, d, n, n + 1); }
      }
    }
  }

  /**
   Whether a page is leftmost but for half-dead pages. The walk ends on every page graph, and says
   yes exactly if a mutually linked half-dead chain leads to the end. The blocks it goes past are
   all different; besides those it reads at most one more, the one it stops at.
   */
  method LeftmostIgnoringHalfDead(pages: Pages, start: nat) returns (r: Option<bool>, ghost seen: seq<nat>, ghost fetched: seq<nat>)
    requires start in pages
    ensures r == Some(true) <==> exists c :: WholeChain(pages, start, c)
    ensures LeftChain(pages, start, seen) && |seen| <= |pages| && forall i, j :: 0 <= i < j < |seen| ==> seen[i] != seen[j]
    ensures r == None ==> pages[seen[|seen| - 1]].prev !in pages
    ensures fetched == seen[1..] + (if r == Some(true) then [] else [pages[seen[|seen| - 1]].prev])
  {
    var reached, from := pages[start].prev, start;
    var allHalfDead := true;
    seen, fetched := [start], [];
    ChainFits(pages, start, seen);
    while reached != P_NONE && allHalfDead
      invariant LeftChain(pages, start, seen) && from == seen[|seen| - 1] && reached == pages[from].prev
      invariant |seen| <= |pages| && forall k :: 1 <= k < |seen| ==> seen[k] != start
      invariant !allHalfDead ==> reached != P_NONE && (reached in pages && Linked(pages, from, reached) ==> reached == start || reached == from)
      invariant fetched == seen[1..] + (if allHalfDead then [] else [reached])
      decreases if allHalfDead then |pages| - |seen| + 1 else 0
    {
      fetched := fetched + [reached];
      if reached !in pages {
        forall d ensures !WholeChain(pages, start, d) { NoWholeChain(pages, start, seen, d); }
        Distinct(pages, start, seen);
        return None, seen, fetched;
      }
      var p := pages[reached];
      allHalfDead := p.status == HalfDead && reached != start && reached != from && p.next == from;
      if allHalfDead {
        ghost var before := seen;
        seen := seen + [reached];
        Extend(pages, start, before, reached);
        ChainFits(pages, start, seen);
        from := reached;
        reached := p.prev;
      }
    }
    Distinct(pages, start, seen);
    if allHalfDead {
      assert WholeChain(pages, start, seen);
    } else {
      forall d ensures !WholeChain(pages, start, d) { NoWholeChain(pages, start, seen, d); }
    }
    return Some(allHalfDead), seen, fetched;
  }

  lemma {:induction false} Extend(pages: Pages, start: nat, c: seq<nat>, reached: nat)
    requires LeftChain(pages, start, c) && reached in pages && Linked(pages, c[|c| - 1], reached)
    ensures LeftChain(pages, start, c + [reached])
  {
    var d := c + [reached];
    forall k, l | 0 <= k && l == k + 1 < |d| ensures Linked(pages, d[k], d[l]) {
      if l < |c| { assert Linked(pages, c[k], c[l]); }
    }
  }

  lemma {:induction false} Distinct(pages: Pages, start: nat, c: seq<nat>)
    requires LeftChain(pages, start, c) && forall k :: 1 <= k < |c| ==> c[k] != start
    ensures forall i, j :: 0 <= i < j < |c| ==> c[i] != c[j]
  {
    forall i, j | 0 <= i < j < |c| ensures c[i] != c[j] { ChainDistinct(pages, start, c, i, j); }
  }

  /** Distinct blocks are no more than there are. */
  lemma {:induction false} ChainFits(pages: Pages, start: nat, c: seq<nat>)
    requires LeftChain(pages, start, c) && forall k :: 1 <= k < |c| ==> c[k] != start
    ensures |c| <= |pages|
  {
    Distinct(pages, start, c);
    DistinctFits(pages, c);
  }

  lemma {:induction false} DistinctFits(pages: Pages, c: seq<nat>)
    requires (forall k :: 0 <= k < |c| ==> c[k] in pages) && forall i, j :: 0 <= i < j < |c| ==> c[i] != c[j]
    ensures |c| <= |pages|
  {
    if c != [] {
      var n := |c| - 1;
      var rest := map b | b in pages && b != c[n] :: pages[b];
      assert pages.Keys == rest.Keys + {c[n]};
      assert |rest| == |rest.Keys| && |pages| == |pages.Keys|;
      DistinctFits(rest, c[..n]);
    }
  }
}
