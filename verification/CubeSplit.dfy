/**
 Guttman's quadratic split of a page of boxes. Entry vectors run from offset 1 to n - 1;
 position 0 is not an entry.
 */
module CubeSplit {
  import opened Cube

  // ---------------------------------------------------------------- sizes

  function Extent(c: Box, n: nat): real
    requires n <= c.dim
  {
    if n == 0 then 1.0 else Extent(c, n - 1) * (Hi(c, n - 1) - Lo(c, n - 1))
  }

  /** Volume; boxes without dimensions and points have none. */
  function Size(c: Box): real {
    if c.point || c.dim == 0 then 0.0 else Extent(c, c.dim)
  }

  method SizeOf(c: Box) returns (size: real)
    ensures size == Size(c)
  {
    if c.point || c.dim == 0 { return 0.0; }
    size := 1.0;
    var i := 0;
    while i < c.dim
      invariant 0 <= i <= c.dim && size == Extent(c, i)
    {
      var d := c.UR(i) - c.LL(i);
      size := size * (if d < 0.0 then -d else d);
      i := i + 1;
    }
  }

  /** The intersection in its stored form; it is a box even when nothing is shared. */
  function InterBox(a: Box, b: Box): (r: Box)
    ensures r.dim == MaxDim(a, b)
  {
    var lows := InnerLows(a, b, MaxDim(a, b));
    var highs := InnerHighs(a, b, MaxDim(a, b));
    if lows == highs then NdBox(MaxDim(a, b), true, lows) else NdBox(MaxDim(a, b), false, lows + highs)
  }

  function InnerLows(a: Box, b: Box, n: nat): (r: seq<real>)
    ensures |r| == n
  {
    seq(n, (i: nat) => Max(Lo(a, i), Lo(b, i)))
  }

  function InnerHighs(a: Box, b: Box, n: nat): (r: seq<real>)
    ensures |r| == n
  {
    seq(n, (i: nat) => Min(Hi(a, i), Hi(b, i)))
  }

  lemma InterAt(a: Box, b: Box, i: nat)
    requires Overlap(a, b)
    ensures Lo(InterBox(a, b), i) == Max(Lo(a, i), Lo(b, i)) && Hi(InterBox(a, b), i) == Min(Hi(a, i), Hi(b, i))
  {
    LoHi(a, i);
    LoHi(b, i);
    assert Lo(a, i) <= Hi(b, i) && Lo(b, i) <= Hi(a, i);
  }

  /** Where boxes overlap, the intersection is the set of their common points. */
  lemma {:induction false} InterMeansCommonPoints(a: Box, b: Box, p: nat -> real)
    requires Overlap(a, b)
    ensures In(p, InterBox(a, b)) <==> In(p, a) && In(p, b)
  {
    var c := InterBox(a, b);
    forall i: nat ensures Lo(c, i) == Max(Lo(a, i), Lo(b, i)) && Hi(c, i) == Min(Hi(a, i), Hi(b, i)) {
      InterAt(a, b, i);
    }
    if In(p, c) {
      forall i: nat ensures Lo(a, i) <= p(i) <= Hi(a, i) && Lo(b, i) <= p(i) <= Hi(b, i) {
        assert Lo(c, i) <= p(i) <= Hi(c, i);
      }
    }
  }

  /** The intersection loop. */
  method Inter(a0: Box, b0: Box) returns (r: Box)
    ensures r == InterBox(a0, b0)
  {
    var a, b := a0, b0;
    if a.dim < b.dim { a, b := b, a; }
    var x := InnerCorners(a, b);
    var lows, highs := InnerLows(a, b, a.dim), InnerHighs(a, b, a.dim);
    assert lows == InnerLows(a0, b0, a.dim) && highs == InnerHighs(a0, b0, a.dim);
    assert (lows + highs)[..a.dim] == lows && (lows + highs)[a.dim..] == highs;
    var flat := IsPoint(NdBox(a.dim, false, x));
    r := if flat then NdBox(a.dim, true, x[..a.dim]) else NdBox(a.dim, false, x);
  }

  method InnerCorners(a: Box, b: Box) returns (s: seq<real>)
    requires b.dim <= a.dim
    ensures s == InnerLows(a, b, a.dim) + InnerHighs(a, b, a.dim)
  {
    var x := new real[2 * a.dim](_ => 0.0);
    CommonInnerCorners(x, a, b);
    var i := b.dim;
    while i < a.dim
      invariant b.dim <= i <= a.dim && Met(x[..], a, b, i)
    {
      var low, high := Max(0.0, Min(a.LL(i), a.UR(i))), Min(0.0, Max(a.LL(i), a.UR(i)));
      MetNext(x[..], a, b, i);
      assert low == Max(Lo(a, i), Lo(b, i)) && high == Min(Hi(a, i), Hi(b, i));
      SetCorner(x, a.dim, i, low, high);
      i := i + 1;
    }
    s := x[..];
    MetIs(s, a, b);
  }

  method CommonInnerCorners(x: array<real>, a: Box, b: Box)
    requires b.dim <= a.dim && x.Length == 2 * a.dim
    modifies x
    ensures Met(x[..], a, b, b.dim)
  {
    var i := 0;
    while i < b.dim
      invariant 0 <= i <= b.dim && Met(x[..], a, b, i)
    {
      var low := Max(Min(a.LL(i), a.UR(i)), Min(b.LL(i), b.UR(i)));
      var high := Min(Max(a.LL(i), a.UR(i)), Max(b.LL(i), b.UR(i)));
      MetNext(x[..], a, b, i);
      assert low == Max(Lo(a, i), Lo(b, i)) && high == Min(Hi(a, i), Hi(b, i));
      SetCorner(x, a.dim, i, low, high);
      i := i + 1;
    }
  }

  lemma MetNext(x: seq<real>, a: Box, b: Box, i: nat)
    requires b.dim <= a.dim && i < a.dim && Met(x, a, b, i)
    ensures Met(x[i := Max(Lo(a, i), Lo(b, i))][i + a.dim := Min(Hi(a, i), Hi(b, i))], a, b, i + 1)
  {
  }

  lemma MetIs(x: seq<real>, a: Box, b: Box)
    requires b.dim <= a.dim && Met(x, a, b, a.dim)
    ensures x == InnerLows(a, b, a.dim) + InnerHighs(a, b, a.dim)
  {
  }

  ghost predicate Met(x: seq<real>, a: Box, b: Box, n: nat) {
    && |x| == 2 * a.dim && n <= a.dim
    && (forall j: nat :: j < n ==> x[j] == Max(Lo(a, j), Lo(b, j)))
    && (forall j: nat :: a.dim <= j < a.dim + n ==> x[j] == Min(Hi(a, j - a.dim), Hi(b, j - a.dim)))
  }

  // ---------------------------------------------------------------- seeds

  /** Space a pair would waste on one page. */
  function WasteOf(a: Box, b: Box): real {
    Size(UnionBox(a, b)) - Size(InterBox(a, b))
  }

  /** A pair of the first n - 2 entries that wastes most, or the two entries there are. */
  ghost predicate SeedsOf(vector: seq<Box>, one: nat, two: nat, waste: (Box, Box) -> real) {
    && 1 <= one < two < |vector|
    && (|vector| > 3 ==> two < |vector| - 1)
    && (forall i, j :: 1 <= i < j < |vector| - 1 ==> waste(vector[i], vector[j]) <= waste(vector[one], vector[two]))
  }

  /** The best pair so far; `first` until a pair has been looked at. */
  datatype Seeds = Seeds(one: nat, two: nat, waste: real, first: bool)

  /** No pair looked at so far, up to second entry j of the pairs of i, wastes more. */
  ghost predicate Best(vector: seq<Box>, s: Seeds, i: nat, j: nat, wasteOf: (Box, Box) -> real)
    requires |vector| >= 3
  {
    var maxoff := |vector| - 2;
    && (s.first ==> i == 1 && j == 2 && s.one == 1 && s.two == 2)
    && (!s.first ==> 1 <= s.one < s.two <= maxoff && s.waste == wasteOf(vector[s.one], vector[s.two]))
    && (forall k, l :: 1 <= k < l <= maxoff && (k < i || (k == i && l < j)) ==> wasteOf(vector[k], vector[l]) <= s.waste)
  }

  function Better(s: Seeds, waste: real, i: nat, j: nat): Seeds {
    if waste > s.waste || s.first then Seeds(i, j, waste, false) else s
  }

  lemma BestPair(vector: seq<Box>, s: Seeds, i: nat, j: nat, wasteOf: (Box, Box) -> real)
    requires |vector| >= 3 && 1 <= i < j <= |vector| - 2 && Best(vector, s, i, j, wasteOf)
    ensures Best(vector, Better(s, wasteOf(vector[i], vector[j]), i, j), i, j + 1, wasteOf)
  {
  }

  lemma BestRow(vector: seq<Box>, s: Seeds, i: nat, wasteOf: (Box, Box) -> real)
    requires |vector| >= 3 && 1 <= i < |vector| - 2 && Best(vector, s, i, |vector| - 1, wasteOf)
    ensures Best(vector, s, i + 1, i + 2, wasteOf)
  {
  }

  lemma BestIsSeeds(vector: seq<Box>, s: Seeds, i: nat, wasteOf: (Box, Box) -> real)
    requires |vector| >= 3 && i >= |vector| - 2 && Best(vector, s, i, i + 1, wasteOf)
    ensures SeedsOf(vector, s.one, s.two, wasteOf)
  {
  }

  /** The search over all pairs, for any measure of waste. */
  method PickSeeds(vector: seq<Box>, wasteOf: (Box, Box) -> real) returns (one: nat, two: nat)
    requires |vector| >= 3
    ensures SeedsOf(vector, one, two, wasteOf)
  {
    var maxoff := |vector| - 2;
    var s := Seeds(1, 2, 0.0, true);
    var i := 1;
    while i < maxoff
      invariant 1 <= i <= maxoff && Best(vector, s, i, i + 1, wasteOf)
    {
      var j := i + 1;
      while j <= maxoff
        invariant i + 1 <= j <= maxoff + 1 && Best(vector, s, i, j, wasteOf)
      {
        BestPair(vector, s, i, j, wasteOf);
        s := Better(s, wasteOf(vector[i], vector[j]), i, j);
        j := j + 1;
      }
      BestRow(vector, s, i, wasteOf);
      i := i + 1;
    }
    BestIsSeeds(vector, s, i, wasteOf);
    return s.one, s.two;
  }

  // ---------------------------------------------------------------- placement

  /** What the placement of entries works with. */
  datatype Measure = Measure(union: (Box, Box) -> Box, size: Box -> real)

  /** Both sides so far: their offsets and the union of what they hold. */
  datatype Sides = Sides(left: seq<nat>, right: seq<nat>, ldatum: Box, rdatum: Box)

  /** Where offsets up to n go: seeds to their sides, the rest where the union grows less. */
  function Placed(m: Measure, vector: seq<Box>, one: nat, two: nat, n: nat): Sides
    requires 1 <= one < two < |vector| && n < |vector|
  {
    if n == 0 then Sides([], [], vector[one], vector[two])
    else
      var s := Placed(m, vector, one, two, n - 1);
      if n == one then s.(left := s.left + [n])
      else if n == two then s.(right := s.right + [n])
      else
        var ul, ur := m.union(s.ldatum, vector[n]), m.union(s.rdatum, vector[n]);
        if m.size(ul) - m.size(s.ldatum) < m.size(ur) - m.size(s.rdatum)
        then s.(left := s.left + [n], ldatum := ul)
        else s.(right := s.right + [n], rdatum := ur)
  }

  /** Filling the offset arrays: each holds its side and then the end mark, within the space allocated. */
  method Place(m: Measure, vector: seq<Box>, one: nat, two: nat)
    returns (left: array<nat>, right: array<nat>, nleft: nat, nright: nat, ldatum: Box, rdatum: Box)
    requires 1 <= one < two < |vector|
    ensures nleft < left.Length == |vector| && nright < right.Length == |vector|
    ensures Placed(m, vector, one, two, |vector| - 1) == Sides(left[..nleft], right[..nright], ldatum, rdatum)
    ensures left[nleft] == 1 && right[nright] == 1
  {
    ghost var s;
    left, right, nleft, nright, ldatum, rdatum, s := Fill(m, vector, one, two);
    NeitherFull(m, vector, one, two);
    left[nleft] := 1;
    right[nright] := 1;
  }

  method Fill(m: Measure, vector: seq<Box>, one: nat, two: nat)
    returns (left: array<nat>, right: array<nat>, nleft: nat, nright: nat, ldatum: Box, rdatum: Box, ghost s: Sides)
    requires 1 <= one < two < |vector|
    ensures fresh(left) && fresh(right) && left != right && left.Length == right.Length == |vector|
    ensures s == Placed(m, vector, one, two, |vector| - 1) && Stored(s, left, nleft, right, nright)
    ensures s.ldatum == ldatum && s.rdatum == rdatum
  {
    left, right := new nat[|vector|](_ => 0), new nat[|vector|](_ => 0);
    nleft, nright, ldatum, rdatum := 0, 0, vector[one], vector[two];
    var sizel, sizer := m.size(ldatum), m.size(rdatum);
    s := Placed(m, vector, one, two, 0);
    var i := 1;
    while i <= |vector| - 1
      invariant 1 <= i <= |vector| && nleft + nright == i - 1 && s == Placed(m, vector, one, two, i - 1)
      invariant Stored(s, left, nleft, right, nright) && s.ldatum == ldatum && s.rdatum == rdatum
      invariant sizel == m.size(ldatum) && sizer == m.size(rdatum)
    {
      nleft, nright, ldatum, rdatum, sizel, sizer, s := Assign(m, vector, one, two, i, left, nleft, right, nright, ldatum, rdatum, sizel, sizer, s);
      i := i + 1;
    }
  }

  /** One entry chosen for a side and written there. */
  method Assign(m: Measure, vector: seq<Box>, one: nat, two: nat, i: nat, left: array<nat>, nleft: nat, right: array<nat>, nright: nat,
                l: Box, r: Box, sizel: real, sizer: real, ghost s: Sides)
    returns (nleft': nat, nright': nat, l': Box, r': Box, sizel': real, sizer': real, ghost next: Sides)
    requires 1 <= one < two < |vector| && 1 <= i < |vector| && s == Placed(m, vector, one, two, i - 1)
    requires l == s.ldatum && r == s.rdatum && sizel == m.size(l) && sizer == m.size(r)
    requires left != right && left.Length == right.Length == |vector| && nleft + nright == i - 1 && Stored(s, left, nleft, right, nright)
    modifies left, right
    ensures next == Placed(m, vector, one, two, i) && next.ldatum == l' && next.rdatum == r'
    ensures sizel' == m.size(l') && sizer' == m.size(r')
    ensures nleft' + nright' == i && Stored(next, left, nleft', right, nright')
  {
    var intoLeft;
    intoLeft, l', r', sizel', sizer', next := Choose(m, vector, one, two, i, s, l, r, sizel, sizer);
    nleft', nright' := Record(left, nleft, right, nright, i, intoLeft, s, next);
  }

  /** Writing an offset at the end of its side. */
  method Record(left: array<nat>, nleft: nat, right: array<nat>, nright: nat, i: nat, intoLeft: bool, ghost s: Sides, ghost t: Sides)
    returns (nleft': nat, nright': nat)
    requires left != right && nleft < left.Length && nright < right.Length && Stored(s, left, nleft, right, nright)
    requires if intoLeft then t.left == s.left + [i] && t.right == s.right else t.left == s.left && t.right == s.right + [i]
    modifies left, right
    ensures Stored(t, left, nleft', right, nright') && nleft' + nright' == nleft + nright + 1
  {
    if intoLeft {
      left[nleft] := i;
      return nleft + 1, nright;
    } else {
      right[nright] := i;
      return nleft, nright + 1;
    }
  }

  /** The arrays hold the sides. */
  ghost predicate Stored(s: Sides, left: array<nat>, nleft: nat, right: array<nat>, nright: nat)
    reads left, right
  {
    && nleft <= left.Length && nright <= right.Length
    && left[..nleft] == s.left && right[..nright] == s.right
  }

  lemma {:induction false} NeitherFull(m: Measure, vector: seq<Box>, one: nat, two: nat)
    requires 1 <= one < two < |vector|
    ensures var s := Placed(m, vector, one, two, |vector| - 1); |s.left| < |vector| && |s.right| < |vector|
  {
    PlacedPartitions(m, vector, one, two, |vector| - 1);
  }

  /** One entry: its side, and the sides' unions and sizes with it. */
  method Choose(m: Measure, vector: seq<Box>, one: nat, two: nat, i: nat, ghost s: Sides, l: Box, r: Box, sizel: real, sizer: real)
    returns (intoLeft: bool, l': Box, r': Box, sizel': real, sizer': real, ghost next: Sides)
    requires 1 <= one < two < |vector| && 1 <= i < |vector| && s == Placed(m, vector, one, two, i - 1)
    requires l == s.ldatum && r == s.rdatum && sizel == m.size(l) && sizer == m.size(r)
    ensures sizel' == m.size(l') && sizer' == m.size(r')
    ensures next == Placed(m, vector, one, two, i)
    ensures next == if intoLeft then Sides(s.left + [i], s.right, l', r') else Sides(s.left, s.right + [i], l', r')
  {
    next := Placed(m, vector, one, two, i);
    intoLeft, l', r', sizel', sizer' := i == one, l, r, sizel, sizer;
    if i != one && i != two {
      var ul, ur := m.union(l, vector[i]), m.union(r, vector[i]);
      var alpha, beta := m.size(ul), m.size(ur);
      intoLeft := alpha - sizel < beta - sizer;
      if intoLeft { l', sizel' := ul, alpha; } else { r', sizer' := ur, beta; }
    }
  }

  // ---------------------------------------------------------------- what the split guarantees

  predicate Increasing(s: seq<nat>) {
    forall i, j :: 0 <= i < j < |s| ==> s[i] < s[j]
  }

  /** Offsets 1 to n, each on one side, in order. */
  ghost predicate Partition(s: Sides, n: nat) {
    && Increasing(s.left) && Increasing(s.right) && |s.left| + |s.right| == n
    && (forall x: nat :: 1 <= x <= n <==> (x in s.left || x in s.right))
    && (forall x: nat :: !(x in s.left && x in s.right))
  }

  lemma PartitionGrows(s: Sides, t: Sides, n: nat)
    requires n > 0 && Partition(s, n - 1)
    requires (t.left == s.left + [n] && t.right == s.right) || (t.left == s.left && t.right == s.right + [n])
    ensures Partition(t, n)
  {
    Append(s.left, n);
    Append(s.right, n);
  }

  lemma {:induction false} PlacedPartitions(m: Measure, vector: seq<Box>, one: nat, two: nat, n: nat)
    requires 1 <= one < two < |vector| && n < |vector|
    ensures Partition(Placed(m, vector, one, two, n), n)
    ensures n >= one ==> one in Placed(m, vector, one, two, n).left
    ensures n >= two ==> two in Placed(m, vector, one, two, n).right
  {
    if n > 0 {
      PlacedPartitions(m, vector, one, two, n - 1);
      var s, t := Placed(m, vector, one, two, n - 1), Placed(m, vector, one, two, n);
      PartitionGrows(s, t, n);
      assert t.left == s.left || t.left[|s.left|] == n;
      assert t.right == s.right || t.right[|s.right|] == n;
    }
  }

  lemma Append(s: seq<nat>, n: nat)
    requires Increasing(s) && forall x :: x in s ==> x < n
    ensures Increasing(s + [n]) && forall x :: x in s + [n] <==> x in s || x == n
  {
    var t := s + [n];
    forall i, j | 0 <= i < j < |t| ensures t[i] < t[j] {
      assert s[i] in s;
    }
  }

  ghost predicate CoversSide(vector: seq<Box>, side: seq<nat>, datum: Box) {
    forall i :: 0 <= i < |side| ==> side[i] < |vector| && Covers(datum, vector[side[i]])
  }

  /** The union covers both its arguments. */
  ghost predicate Growing(m: Measure) {
    forall a, b :: Covers(m.union(a, b), a) && Covers(m.union(a, b), b)
  }

  lemma {:induction false} Grow(m: Measure, vector: seq<Box>, side: seq<nat>, datum: Box, seed: nat, n: nat)
    requires seed < |vector| && n < |vector| && Growing(m) && Covers(datum, vector[seed]) && CoversSide(vector, side, datum)
    ensures var u := m.union(datum, vector[n]); CoversSide(vector, side + [n], u) && Covers(u, vector[seed])
    ensures n == seed ==> CoversSide(vector, side + [n], datum)
  {
    var u := m.union(datum, vector[n]);
    CoversTransitive(u, datum, vector[seed]);
    forall i | 0 <= i < |side| ensures Covers(u, vector[side[i]]) { CoversTransitive(u, datum, vector[side[i]]); }
  }

  /** Each side's datum covers every box put on that side, and its own seed from the start. */
  lemma {:induction false} PlacedCovers(m: Measure, vector: seq<Box>, one: nat, two: nat, n: nat)
    requires 1 <= one < two < |vector| && n < |vector| && Growing(m)
    ensures var s := Placed(m, vector, one, two, n);
            && Covers(s.ldatum, vector[one]) && Covers(s.rdatum, vector[two])
            && CoversSide(vector, s.left, s.ldatum) && CoversSide(vector, s.right, s.rdatum)
  {
    if n > 0 {
      PlacedCovers(m, vector, one, two, n - 1);
      var s := Placed(m, vector, one, two, n - 1);
      Grow(m, vector, s.left, s.ldatum, one, n);
      Grow(m, vector, s.right, s.rdatum, two, n);
    }
  }

  /** Union and volume of boxes. */
  function Guttman(): Measure {
    Measure((a: Box, b: Box) => UnionBox(a, b), (c: Box) => Size(c))
  }

  /** The split method. */
  method PickSplit(vector: seq<Box>)
    returns (one: nat, two: nat, left: array<nat>, right: array<nat>, nleft: nat, nright: nat, ldatum: Box, rdatum: Box)
    requires |vector| >= 3
    ensures SeedsOf(vector, one, two, WasteOf)
    ensures nleft < left.Length == |vector| && nright < right.Length == |vector|
    ensures Placed(Guttman(), vector, one, two, |vector| - 1) == Sides(left[..nleft], right[..nright], ldatum, rdatum)
    ensures left[nleft] == 1 && right[nright] == 1
  {
    one, two := PickSeeds(vector, WasteOf);
    left, right, nleft, nright, ldatum, rdatum := Place(Guttman(), vector, one, two);
  }

  lemma {:induction false} GuttmanGrows()
    ensures Growing(Guttman())
  {
    var m := Guttman();
    forall a, b ensures Covers(m.union(a, b), a) && Covers(m.union(a, b), b) { UnionIsLeast(a, b, a); }
  }

  lemma {:induction false} PlacedIsPartition(m: Measure, vector: seq<Box>, one: nat, two: nat)
    requires 1 <= one < two < |vector| && Growing(m)
    ensures var s := Placed(m, vector, one, two, |vector| - 1);
            && s.left != [] && s.right != [] && Partition(s, |vector| - 1)
            && CoversSide(vector, s.left, s.ldatum) && CoversSide(vector, s.right, s.rdatum)
  {
    PlacedPartitions(m, vector, one, two, |vector| - 1);
    PlacedCovers(m, vector, one, two, |vector| - 1);
  }

  /** Every page splits into two non-empty increasing sides that share nothing, miss nothing, and are covered. */
  lemma {:induction false} SplitIsPartition(vector: seq<Box>, one: nat, two: nat)
    requires |vector| >= 3 && SeedsOf(vector, one, two, WasteOf)
    ensures var s := Placed(Guttman(), vector, one, two, |vector| - 1);
            && s.left != [] && s.right != [] && Partition(s, |vector| - 1)
            && CoversSide(vector, s.left, s.ldatum) && CoversSide(vector, s.right, s.rdatum)
  {
    GuttmanGrows();
    PlacedIsPartition(Guttman(), vector, one, two);
  }
}
