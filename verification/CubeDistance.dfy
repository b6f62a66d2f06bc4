/**
 Distances between boxes and the ordering values of the index: what the loops compute
 is the least distance between two points, and a key is never further than its leaves.
 */
module CubeDistance {
  import opened Cube
  import opened CubeSearch
  import opened GistTree
  import GistNearest
  import opened Wrappers

  function Abs(x: real): real {
    if x < 0.0 then -x else x
  }

  function Distance1D(a1: real, a2: real, b1: real, b2: real): real {
    if a1 <= b1 && a2 <= b1 && a1 <= b2 && a2 <= b2 then Min(b1, b2) - Max(a1, a2)
    else if a1 > b1 && a2 > b1 && a1 > b2 && a2 > b2 then Min(a1, a2) - Max(b1, b2)
    else 0.0
  }

  /** How far apart two boxes are in one dimension. */
  function Gap(a: Box, b: Box, i: nat): (r: real)
    ensures r >= 0.0
  {
    Max(0.0, Max(Lo(b, i) - Hi(a, i), Lo(a, i) - Hi(b, i)))
  }

  lemma Distance1DIsGap(a: Box, b: Box, i: nat)
    ensures i < a.dim && i < b.dim ==> Distance1D(a.LL(i), a.UR(i), b.LL(i), b.UR(i)) == Gap(a, b, i)
    ensures i < a.dim && i >= b.dim ==> Distance1D(a.LL(i), a.UR(i), 0.0, 0.0) == Gap(a, b, i)
    ensures Gap(a, b, i) == Gap(b, a, i)
  {
  }

  // ---------------------------------------------------------------- the three metrics over any per-dimension distance

  datatype Metric = Taxicab | Euclid | Chebyshev

  /** Euclidean distances are compared by their squares. */
  function Combine(m: Metric, total: real, d: real): real {
    match m
    case Taxicab => total + d
    case Euclid => total + d * d
    case Chebyshev => Max(total, d)
  }

  function Total(m: Metric, d: nat -> real, n: nat): real {
    if n == 0 then 0.0 else Combine(m, Total(m, d, n - 1), d(n - 1))
  }

  lemma SquareMonotone(x: real, y: real)
    requires 0.0 <= x <= y
    ensures x * x <= y * y
  {
    assert x * x <= x * y <= y * y;
  }

  lemma {:induction false} TotalMonotone(m: Metric, d: nat -> real, e: nat -> real, n: nat)
    requires forall i: nat :: i < n ==> 0.0 <= d(i) <= e(i)
    ensures Total(m, d, n) <= Total(m, e, n)
  {
    if n > 0 {
      TotalMonotone(m, d, e, n - 1);
      SquareMonotone(d(n - 1), e(n - 1));
    }
  }

  lemma {:induction false} TotalSame(m: Metric, d: nat -> real, e: nat -> real, n: nat)
    requires forall i: nat :: i < n ==> d(i) == e(i)
    ensures Total(m, d, n) == Total(m, e, n)
  {
    if n > 0 { TotalSame(m, d, e, n - 1); }
  }

  lemma {:induction false} TotalNonNegative(m: Metric, d: nat -> real, n: nat)
    requires forall i: nat :: i < n ==> d(i) >= 0.0
    ensures Total(m, d, n) >= 0.0
  {
    if n > 0 {
      TotalNonNegative(m, d, n - 1);
      SquareMonotone(0.0, d(n - 1));
    }
  }

  /** Dimensions at distance zero change nothing. */
  lemma {:induction false} TotalPads(m: Metric, d: nat -> real, n: nat, more: nat)
    requires n <= more && (forall i: nat :: d(i) >= 0.0) && forall i: nat :: i >= n ==> d(i) == 0.0
    ensures Total(m, d, more) == Total(m, d, n)
  {
    if n < more {
      TotalPads(m, d, n, more - 1);
      TotalNonNegative(m, d, n);
    }
  }

  // ---------------------------------------------------------------- distances between boxes

  function Gaps(a: Box, b: Box): nat -> real {
    (i: nat) => Gap(a, b, i)
  }

  function BoxDistance(m: Metric, a: Box, b: Box): real {
    Total(m, Gaps(a, b), MaxDim(a, b))
  }

  /** One more dimension, of both boxes or of the larger one. */
  lemma TotalNext(m: Metric, a: Box, b: Box, i: nat)
    requires i < a.dim
    ensures var d := if i < b.dim then Distance1D(a.LL(i), a.UR(i), b.LL(i), b.UR(i)) else Distance1D(a.LL(i), a.UR(i), 0.0, 0.0);
            Total(m, Gaps(a, b), i + 1) == Combine(m, Total(m, Gaps(a, b), i), Abs(d))
  {
    Distance1DIsGap(a, b, i);
  }

  /** The distance loops: common dimensions, then the larger box against zero. */
  method Distance(m: Metric, a0: Box, b0: Box) returns (distance: real)
    ensures distance == BoxDistance(m, a0, b0)
  {
    var a, b := a0, b0;
    if a.dim < b.dim { a, b := b, a; }
    distance := 0.0;
    var i := 0;
    while i < b.dim
      invariant 0 <= i <= b.dim && distance == Total(m, Gaps(a, b), i)
    {
      var d := Distance1D(a.LL(i), a.UR(i), b.LL(i), b.UR(i));
      TotalNext(m, a, b, i);
      distance := Combine(m, distance, Abs(d));
      i := i + 1;
    }
    while i < a.dim
      invariant b.dim <= i <= a.dim && distance == Total(m, Gaps(a, b), i)
    {
      var d := Distance1D(a.LL(i), a.UR(i), 0.0, 0.0);
      TotalNext(m, a, b, i);
      distance := Combine(m, distance, Abs(d));
      i := i + 1;
    }
    DistanceSymmetric(m, a, b);
  }

  lemma {:induction false} DistanceSymmetric(m: Metric, a: Box, b: Box)
    ensures BoxDistance(m, a, b) == BoxDistance(m, b, a)
  {
    forall j: nat ensures Gaps(a, b)(j) == Gaps(b, a)(j) { Distance1DIsGap(a, b, j); }
    TotalSame(m, Gaps(a, b), Gaps(b, a), MaxDim(a, b));
  }

  function Apart(p: nat -> real, r: nat -> real): nat -> real {
    (i: nat) => Abs(p(i) - r(i))
  }

  /** It is the least distance between a point of one box and a point of the other. */
  lemma {:induction false} DistanceIsLeast(m: Metric, a: Box, b: Box)
    ensures forall p: nat -> real, r: nat -> real :: In(p, a) && In(r, b) ==> BoxDistance(m, a, b) <= Total(m, Apart(p, r), MaxDim(a, b))
    ensures exists p: nat -> real, r: nat -> real :: In(p, a) && In(r, b) && BoxDistance(m, a, b) == Total(m, Apart(p, r), MaxDim(a, b))
  {
    forall p: nat -> real, r: nat -> real | In(p, a) && In(r, b)
      ensures BoxDistance(m, a, b) <= Total(m, Apart(p, r), MaxDim(a, b))
    {
      forall i: nat ensures 0.0 <= Gaps(a, b)(i) <= Apart(p, r)(i) {
        assert Lo(a, i) <= p(i) <= Hi(a, i) && Lo(b, i) <= r(i) <= Hi(b, i);
      }
      TotalMonotone(m, Gaps(a, b), Apart(p, r), MaxDim(a, b));
    }
    NearestPoints(m, a, b);
  }

  function Towards(a: Box, b: Box): nat -> real {
    (i: nat) => if Hi(a, i) < Lo(b, i) then Hi(a, i) else Max(Lo(a, i), Min(Hi(a, i), Lo(b, i)))
  }

  function Back(a: Box, b: Box): nat -> real {
    (i: nat) => if Hi(b, i) < Lo(a, i) then Hi(b, i) else Max(Lo(b, i), Min(Hi(b, i), Towards(a, b)(i)))
  }

  lemma {:induction false} NearestPoints(m: Metric, a: Box, b: Box)
    ensures In(Towards(a, b), a) && In(Back(a, b), b)
    ensures BoxDistance(m, a, b) == Total(m, Apart(Towards(a, b), Back(a, b)), MaxDim(a, b))
  {
    forall i: nat
      ensures Lo(a, i) <= Towards(a, b)(i) <= Hi(a, i) && Lo(b, i) <= Back(a, b)(i) <= Hi(b, i)
      ensures Gaps(a, b)(i) == Apart(Towards(a, b), Back(a, b))(i)
    {
      LoHi(a, i);
      LoHi(b, i);
    }
    TotalSame(m, Gaps(a, b), Apart(Towards(a, b), Back(a, b)), MaxDim(a, b));
  }

  /** A key is never further from the query than a leaf it covers, whatever their dimensions. */
  lemma {:induction false} DistanceAdmissible(m: Metric, key: Box, leaf: Box, query: Box)
    requires Covers(key, leaf)
    ensures BoxDistance(m, key, query) <= BoxDistance(m, leaf, query)
  {
    var n := MaxDim(key, query);
    TotalMonotone(m, Gaps(key, query), Gaps(leaf, query), n);
    TotalPads(m, Gaps(leaf, query), MaxDim(leaf, query), n);
  }

  // ---------------------------------------------------------------- ordering by one coordinate

  /** The coordinate operator; no value for index zero. */
  function CoordLlur(c: Box, coord: int): Option<real> {
    if coord == 0 then None
    else
      var n: nat := if coord < 0 then -coord else coord;
      var v := if n <= 2 * c.dim then Stored(c, (n - 1) / 2, (n - 1) % 2 == 1) else 0.0;
      Some(if coord < 0 then -v else v)
  }

  function Stored(c: Box, i: nat, upper: bool): real
    requires i < c.dim
  {
    if c.point then c.x[i]
    else if upper then Max(c.x[i], c.x[i + c.dim]) else Min(c.x[i], c.x[i + c.dim])
  }

  /** The ordering value of an index entry: an internal key answers with the bound that is least after any negation. */
  function KeyCoord(c: Box, coord: int, leaf: bool): Option<real> {
    if coord == 0 then None
    else
      var inverse := coord < 0;
      var n: nat := if inverse then -coord else coord;
      var v :=
        if n <= 2 * c.dim then Stored(c, (n - 1) / 2, if leaf then (n - 1) % 2 == 1 else inverse)
        else 0.0;
      Some(if inverse then -v else v)
  }

  /** What the coordinate means: dimensions a box does not have read as zero. */
  lemma CoordMeans(c: Box, coord: int)
    requires coord != 0
    ensures CoordLlur(c, coord).Some?
    ensures var n: nat := if coord < 0 then -coord else coord;
            var bound := if n % 2 == 1 then Lo(c, (n - 1) / 2) else Hi(c, (n - 1) / 2);
            CoordLlur(c, coord).value == if coord < 0 then -bound else bound
  {
  }

  lemma {:induction false} CoordAdmissible(key: Box, leaf: Box, coord: int)
    requires Covers(key, leaf)
    ensures KeyCoord(leaf, coord, true) == CoordLlur(leaf, coord)
    ensures KeyCoord(key, coord, false).None? <==> coord == 0
    ensures coord != 0 ==> KeyCoord(key, coord, false).value <= CoordLlur(leaf, coord).value
  {
    if coord != 0 {
      var n: nat := if coord < 0 then -coord else coord;
      var i: nat := (n - 1) / 2;
      CoordMeans(leaf, coord);
      LoHi(leaf, i);
      LoHi(key, i);
      assert Lo(key, i) <= Lo(leaf, i) && Hi(leaf, i) <= Hi(key, i);
      KeyCoordMeans(key, coord);
    }
  }

  lemma KeyCoordMeans(c: Box, coord: int)
    requires coord != 0
    ensures var i: nat := ((if coord < 0 then -coord else coord) - 1) / 2;
            KeyCoord(c, coord, false) == Some(if coord < 0 then -Hi(c, i) else Lo(c, i))
  {
  }

  // ---------------------------------------------------------------- nearest first

  datatype Ordering = ByMetric(metric: Metric, query: Box) | ByCoord(coord: int) {
    predicate Valid() {
      ByCoord? ==> coord != 0
    }
  }

  ghost function LeafValue(o: Ordering): Box -> real
    requires o.Valid()
  {
    match o
    case ByMetric(m, q) => (c: Box) => BoxDistance(m, c, q)
    case ByCoord(n) => (c: Box) => CoordLlur(c, n).value
  }

  ghost function KeyValue(o: Ordering): Box -> real
    requires o.Valid()
  {
    match o
    case ByMetric(m, q) => (c: Box) => BoxDistance(m, c, q)
    case ByCoord(n) => (c: Box) => KeyCoord(c, n, false).value
  }

  ghost function Ordered(o: Ordering): GistNearest.Query<Box, Box>
    requires o.Valid()
  {
    GistNearest.Query((c: Box) => true, (k: Box) => true, LeafValue(o), KeyValue(o), (k: Box, c: Box) => Covers(k, c))
  }

  /** An ordered scan by any metric or coordinate may trust keys that cover what is below them. */
  lemma {:induction false} CubeNearestAdmissible(t: Tree<Box, Box>, o: Ordering)
    requires o.Valid() && Sound(t, CubeKeys().covers)
    ensures GistNearest.Admissible(Ordered(o)) && Sound(t, Ordered(o).covers)
  {
    forall k, c | Covers(k, c) ensures KeyValue(o)(k) <= LeafValue(o)(c) {
      match o
      case ByMetric(m, q) => DistanceAdmissible(m, k, c, q);
      case ByCoord(n) => CoordAdmissible(k, c, n);
    }
    assert Ordered(o).covers == CubeKeys().covers;
  }
}
