/**
 Boxes of any dimension over the reals. Dimensions a box does not have read as zero,
 the two corners come in any order, and a point stores one corner only.
 */
module Cube {
  import opened Wrappers

  datatype NdBox = NdBox(dim: nat, point: bool, x: seq<real>) {
    predicate Valid() {
      |x| == if point then dim else 2 * dim
    }

    function LL(i: nat): real
      requires Valid() && i < dim
    {
      x[i]
    }

    function UR(i: nat): real
      requires Valid() && i < dim
    {
      if point then x[i] else x[i + dim]
    }
  }

  type Box = c: NdBox | c.Valid() witness NdBox(0, true, [])

  function Min(a: real, b: real): real {
    if a < b then a else b
  }

  function Max(a: real, b: real): real {
    if a > b then a else b
  }

  function MaxDim(a: Box, b: Box): nat {
    if a.dim < b.dim then b.dim else a.dim
  }

  /** The normalised interval of a dimension, zero past the last. */
  function Lo(c: Box, i: nat): real {
    if i < c.dim then Min(c.LL(i), c.UR(i)) else 0.0
  }

  function Hi(c: Box, i: nat): real {
    if i < c.dim then Max(c.LL(i), c.UR(i)) else 0.0
  }

  lemma LoHi(c: Box, i: nat)
    ensures Lo(c, i) <= Hi(c, i)
  {
  }

  /** A box as a set of points with a coordinate for every dimension there is. */
  ghost predicate In(p: nat -> real, c: Box) {
    forall i: nat :: Lo(c, i) <= p(i) <= Hi(c, i)
  }

  /** In every dimension, and no less of them. */
  ghost predicate Covers(k: Box, c: Box) {
    k.dim >= c.dim && forall i: nat :: Lo(k, i) <= Lo(c, i) && Hi(c, i) <= Hi(k, i)
  }

  /** Covering is containment of the point sets. */
  lemma {:induction false} CoversMeansSubset(k: Box, c: Box)
    requires k.dim >= c.dim
    ensures Covers(k, c) <==> forall p: nat -> real :: In(p, c) ==> In(p, k)
  {
    if forall p: nat -> real :: In(p, c) ==> In(p, k) {
      var low: nat -> real := (i: nat) => Lo(c, i);
      var high: nat -> real := (i: nat) => Hi(c, i);
      assert In(low, c) && In(high, c);
      forall i: nat ensures Lo(k, i) <= Lo(c, i) && Hi(c, i) <= Hi(k, i) {
        assert Lo(k, i) <= low(i) && high(i) <= Hi(k, i);
      }
    }
  }

  // ---------------------------------------------------------------- union

  /** The union in its stored form: corners in order, one corner when they agree. */
  function UnionBox(a: Box, b: Box): (r: Box)
    ensures r.dim == MaxDim(a, b)
  {
    var lows := Lows(a, b, MaxDim(a, b));
    var highs := Highs(a, b, MaxDim(a, b));
    if lows == highs then NdBox(MaxDim(a, b), true, lows) else NdBox(MaxDim(a, b), false, lows + highs)
  }

  function Lows(a: Box, b: Box, n: nat): (r: seq<real>)
    ensures |r| == n
  {
    seq(n, (i: nat) => Min(Lo(a, i), Lo(b, i)))
  }

  function Highs(a: Box, b: Box, n: nat): (r: seq<real>)
    ensures |r| == n
  {
    seq(n, (i: nat) => Max(Hi(a, i), Hi(b, i)))
  }

  lemma UnionAt(a: Box, b: Box, i: nat)
    ensures Lo(UnionBox(a, b), i) == Min(Lo(a, i), Lo(b, i))
    ensures Hi(UnionBox(a, b), i) == Max(Hi(a, i), Hi(b, i))
  {
    LoHi(a, i);
    LoHi(b, i);
  }

  /** The union holds both boxes, and any box that holds both holds it. */
  lemma {:induction false} UnionIsLeast(a: Box, b: Box, k: Box)
    ensures Covers(UnionBox(a, b), a) && Covers(UnionBox(a, b), b)
    ensures Covers(k, a) && Covers(k, b) ==> Covers(k, UnionBox(a, b))
  {
    forall i: nat
      ensures Lo(UnionBox(a, b), i) == Min(Lo(a, i), Lo(b, i)) && Hi(UnionBox(a, b), i) == Max(Hi(a, i), Hi(b, i))
    {
      UnionAt(a, b, i);
    }
  }

  /** The union loop: common dimensions first, then those of the larger box against zero. */
  method Union(a0: Box, b0: Box) returns (r: Box)
    ensures r == UnionBox(a0, b0)
  {
    var a, b := a0, b0;
    if a.dim < b.dim { a, b := b, a; }
    var x := Corners(a, b);
    assert Lows(a, b, a.dim) == Lows(a0, b0, a.dim) && Highs(a, b, a.dim) == Highs(a0, b0, a.dim);
    var lows, highs := Lows(a, b, a.dim), Highs(a, b, a.dim);
    assert (lows + highs)[..a.dim] == lows && (lows + highs)[a.dim..] == highs;
    var flat := IsPoint(NdBox(a.dim, false, x));
    r := if flat then NdBox(a.dim, true, x[..a.dim]) else NdBox(a.dim, false, x);
  }

  method Corners(a: Box, b: Box) returns (s: seq<real>)
    requires b.dim <= a.dim
    ensures s == Lows(a, b, a.dim) + Highs(a, b, a.dim)
  {
    var x := new real[2 * a.dim](_ => 0.0);
    CommonCorners(x, a, b);
    var i := b.dim;
    while i < a.dim
      invariant b.dim <= i <= a.dim && Filled(x[..], a, b, i)
    {
      var low, high := Min(0.0, Min(a.LL(i), a.UR(i))), Max(0.0, Max(a.LL(i), a.UR(i)));
      FilledNext(x[..], a, b, i);
      assert low == Min(Lo(a, i), Lo(b, i)) && high == Max(Hi(a, i), Hi(b, i));
      SetCorner(x, a.dim, i, low, high);
      i := i + 1;
    }
    s := x[..];
    FilledIs(s, a, b);
  }

  /** The dimensions both boxes have. */
  method CommonCorners(x: array<real>, a: Box, b: Box)
    requires b.dim <= a.dim && x.Length == 2 * a.dim
    modifies x
    ensures Filled(x[..], a, b, b.dim)
  {
    var i := 0;
    while i < b.dim
      invariant 0 <= i <= b.dim && Filled(x[..], a, b, i)
    {
      var low := Min(Min(a.LL(i), a.UR(i)), Min(b.LL(i), b.UR(i)));
      var high := Max(Max(a.LL(i), a.UR(i)), Max(b.LL(i), b.UR(i)));
      FilledNext(x[..], a, b, i);
      assert low == Min(Lo(a, i), Lo(b, i)) && high == Max(Hi(a, i), Hi(b, i));
      SetCorner(x, a.dim, i, low, high);
      i := i + 1;
    }
  }

  /** Both corners of one dimension. */
  method SetCorner(x: array<real>, dim: nat, i: nat, low: real, high: real)
    requires i < dim && x.Length == 2 * dim
    modifies x
    ensures x[..] == old(x[..])[i := low][i + dim := high]
  {
    x[i] := low;
    x[i + dim] := high;
  }

  lemma FilledNext(x: seq<real>, a: Box, b: Box, i: nat)
    requires b.dim <= a.dim && i < a.dim && Filled(x, a, b, i)
    ensures Filled(x[i := Min(Lo(a, i), Lo(b, i))][i + a.dim := Max(Hi(a, i), Hi(b, i))], a, b, i + 1)
  {
  }

  lemma FilledIs(x: seq<real>, a: Box, b: Box)
    requires b.dim <= a.dim && Filled(x, a, b, a.dim)
    ensures x == Lows(a, b, a.dim) + Highs(a, b, a.dim)
  {
  }

  /** The first n dimensions of the two corners are done. */
  ghost predicate Filled(x: seq<real>, a: Box, b: Box, n: nat) {
    && |x| == 2 * a.dim && n <= a.dim
    && (forall j: nat :: j < n ==> x[j] == Min(Lo(a, j), Lo(b, j)))
    && (forall j: nat :: a.dim <= j < a.dim + n ==> x[j] == Max(Hi(a, j - a.dim), Hi(b, j - a.dim)))
  }

  method IsPoint(c: Box) returns (r: bool)
    ensures r <==> c.point || c.x[..c.dim] == c.x[c.dim..]
  {
    if c.point { return true; }
    var i := 0;
    while i < c.dim
      invariant 0 <= i <= c.dim && forall k: nat :: k < i ==> c.LL(k) == c.UR(k)
    {
      if c.LL(i) != c.UR(i) {
        assert c.x[..c.dim][i] != c.x[c.dim..][i];
        return false;
      }
      i := i + 1;
    }
    assert c.x[..c.dim] == c.x[c.dim..] by {
      forall k: nat | k < c.dim ensures c.x[..c.dim][k] == c.x[c.dim..][k] { assert c.LL(k) == c.UR(k); }
    }
    return true;
  }

  /** The union of a page's entries: in every dimension, bounds taken from an entry and past none. */
  ghost predicate IsUnion(es: seq<Box>, k: Box) {
    && es != []
    && (exists j :: 0 <= j < |es| && es[j].dim == k.dim) && (forall j :: 0 <= j < |es| ==> Covers(k, es[j]))
    && (forall i: nat :: Tight(es, k, i))
  }

  ghost predicate Tight(es: seq<Box>, k: Box, i: nat) {
    && (exists j :: 0 <= j < |es| && Lo(es[j], i) == Lo(k, i))
    && (exists j :: 0 <= j < |es| && Hi(es[j], i) == Hi(k, i))
  }

  /** The union method: nothing for a single entry, which its caller never passes. */
  method UnionOf(es: seq<Box>) returns (out: Option<Box>)
    requires es != []
    ensures out.None? <==> |es| == 1
    ensures out.Some? ==> IsUnion(es, out.value)
  {
    out := None;
    var tmp := es[0];
    UnionOfOne(es[0]);
    assert es[..1] == [es[0]];
    var i := 1;
    while i < |es|
      invariant 1 <= i <= |es| && IsUnion(es[..i], tmp) && (i == 1 ==> out == None) && (i > 1 ==> out == Some(tmp))
    {
      UnionGrows(es[..i], tmp, es[i]);
      assert es[..i] + [es[i]] == es[..i + 1];
      tmp := Union(tmp, es[i]);
      out := Some(tmp);
      i := i + 1;
    }
    assert es[..i] == es;
  }

  lemma UnionOfOne(c: Box)
    ensures IsUnion([c], c)
  {
    assert [c][0] == c;
  }

  lemma {:induction false} UnionGrows(es: seq<Box>, k: Box, c: Box)
    requires IsUnion(es, k)
    ensures IsUnion(es + [c], UnionBox(k, c))
  {
    var fs, u := es + [c], UnionBox(k, c);
    UnionIsLeast(k, c, k);
    assert fs[|es|] == c;
    var d :| 0 <= d < |es| && es[d].dim == k.dim;
    assert fs[d].dim == k.dim;
    forall j | 0 <= j < |fs| ensures Covers(u, fs[j]) {
      if j < |es| { CoversTransitive(u, k, es[j]); }
    }
    forall i: nat ensures Tight(fs, u, i) {
      UnionAt(k, c, i);
      assert Tight(es, k, i);
      var l :| 0 <= l < |es| && Lo(es[l], i) == Lo(k, i);
      var h :| 0 <= h < |es| && Hi(es[h], i) == Hi(k, i);
      assert Lo(fs[l], i) == Lo(k, i) && Hi(fs[h], i) == Hi(k, i);
    }
  }

  lemma CoversTransitive(a: Box, b: Box, c: Box)
    requires Covers(a, b) && Covers(b, c)
    ensures Covers(a, c)
  {
  }

  // ---------------------------------------------------------------- contains and overlap

  /** The containment test looks at the second box's dimensions only. */
  ghost predicate Contains(a: Box, b: Box) {
    forall i: nat :: i < b.dim ==> Lo(a, i) <= Lo(b, i) && Hi(b, i) <= Hi(a, i)
  }

  ghost predicate StraddlesFrom(c: Box, n: nat) {
    forall i: nat :: i >= n ==> Lo(c, i) <= 0.0 <= Hi(c, i)
  }

  method ContainsV0(a: Box, b: Box) returns (r: bool)
    ensures r <==> Contains(a, b)
  {
    var i := a.dim;
    while i < b.dim
      invariant a.dim <= i && forall j: nat :: a.dim <= j < i && j < b.dim ==> Lo(b, j) == 0.0 == Hi(b, j)
    {
      if b.LL(i) != 0.0 || b.UR(i) != 0.0 {
        assert Lo(b, i) < 0.0 || Hi(b, i) > 0.0;
        return false;
      }
      i := i + 1;
    }
    i := 0;
    while i < a.dim && i < b.dim
      invariant 0 <= i && (i <= a.dim && i <= b.dim)
      invariant forall j: nat :: j < i ==> Lo(a, j) <= Lo(b, j) && Hi(b, j) <= Hi(a, j)
    {
      if Min(a.LL(i), a.UR(i)) > Min(b.LL(i), b.UR(i)) || Max(a.LL(i), a.UR(i)) < Max(b.LL(i), b.UR(i)) {
        assert !(Lo(a, i) <= Lo(b, i) && Hi(b, i) <= Hi(a, i));
        return false;
      }
      i := i + 1;
    }
    return true;
  }

  /** It is containment of the point sets exactly when the first box's further dimensions straddle zero. */
  lemma {:induction false} ContainsMeansSubset(a: Box, b: Box)
    ensures (forall p: nat -> real :: In(p, b) ==> In(p, a)) <==> Contains(a, b) && StraddlesFrom(a, b.dim)
  {
    if forall p: nat -> real :: In(p, b) ==> In(p, a) {
      var low: nat -> real := (i: nat) => Lo(b, i);
      var high: nat -> real := (i: nat) => Hi(b, i);
      assert In(low, b) && In(high, b);
      forall i: nat ensures Lo(a, i) <= Lo(b, i) && Hi(b, i) <= Hi(a, i) {
        assert Lo(a, i) <= low(i) && high(i) <= Hi(a, i);
      }
    }
  }

  ghost predicate Overlap(a: Box, b: Box) {
    forall i: nat :: Lo(a, i) <= Hi(b, i) && Lo(b, i) <= Hi(a, i)
  }

  method OverlapV0(a0: Box, b0: Box) returns (r: bool)
    ensures r <==> Overlap(a0, b0)
  {
    var a, b := a0, b0;
    if a.dim < b.dim { a, b := b, a; }
    var i := 0;
    while i < b.dim
      invariant 0 <= i <= b.dim && forall j: nat :: j < i ==> Lo(a, j) <= Hi(b, j) && Lo(b, j) <= Hi(a, j)
    {
      if Min(a.LL(i), a.UR(i)) > Max(b.LL(i), b.UR(i)) || Max(a.LL(i), a.UR(i)) < Min(b.LL(i), b.UR(i)) {
        assert !(Lo(a, i) <= Hi(b, i) && Lo(b, i) <= Hi(a, i));
        return false;
      }
      i := i + 1;
    }
    while i < a.dim
      invariant b.dim <= i <= a.dim && forall j: nat :: j < i ==> Lo(a, j) <= Hi(b, j) && Lo(b, j) <= Hi(a, j)
    {
      if Min(a.LL(i), a.UR(i)) > 0.0 || Max(a.LL(i), a.UR(i)) < 0.0 {
        assert !(Lo(a, i) <= Hi(b, i) && Lo(b, i) <= Hi(a, i));
        return false;
      }
      i := i + 1;
    }
    return true;
  }

  /** Boxes overlap exactly when they share a point. */
  lemma {:induction false} OverlapMeansCommonPoint(a: Box, b: Box)
    ensures Overlap(a, b) <==> exists p: nat -> real :: In(p, a) && In(p, b)
  {
    if Overlap(a, b) {
      var p: nat -> real := (i: nat) => Max(Lo(a, i), Lo(b, i));
      forall i: nat ensures Lo(a, i) <= p(i) <= Hi(a, i) && Lo(b, i) <= p(i) <= Hi(b, i) {
        LoHi(a, i);
        LoHi(b, i);
      }
      assert In(p, a) && In(p, b);
    }
    if exists p: nat -> real :: In(p, a) && In(p, b) {
      var p: nat -> real :| In(p, a) && In(p, b);
      forall i: nat ensures Lo(a, i) <= Hi(b, i) && Lo(b, i) <= Hi(a, i) {
        assert Lo(a, i) <= p(i) <= Hi(a, i) && Lo(b, i) <= p(i) <= Hi(b, i);
      }
    }
  }
}
