/** The comparison behind equality and the B-tree order of boxes: where it is an order and where it is not. */
module CubeOrder {
  import opened Cube

  function Bound(c: Box, upper: bool, i: nat): real {
    if upper then Hi(c, i) else Lo(c, i)
  }

  /** Sign of the first difference of one corner within a range of dimensions. */
  function Lex(a: Box, b: Box, upper: bool, from: nat, to: nat): (r: int)
    ensures -1 <= r <= 1
    decreases if from < to then to - from else 0
  {
    if from >= to then 0
    else if Bound(a, upper, from) > Bound(b, upper, from) then 1
    else if Bound(a, upper, from) < Bound(b, upper, from) then -1
    else Lex(a, b, upper, from + 1, to)
  }

  function First(a: int, b: int): int {
    if a != 0 then a else b
  }

  function MinDim(a: Box, b: Box): nat {
    if a.dim < b.dim then a.dim else b.dim
  }

  function DimSign(a: Box, b: Box): int {
    if a.dim > b.dim then 1 else if a.dim < b.dim then -1 else 0
  }

  /** Both corners over the common dimensions, then both over the rest, then the number of dimensions. */
  function CmpBox(a: Box, b: Box): int {
    var d, m := MinDim(a, b), MaxDim(a, b);
    First(First(Lex(a, b, false, 0, d), Lex(a, b, true, 0, d)),
          First(First(Lex(a, b, false, d, m), Lex(a, b, true, d, m)), DimSign(a, b)))
  }

  method LexLoop(a: Box, b: Box, upper: bool, from: nat, to: nat) returns (r: int)
    ensures r == Lex(a, b, upper, from, to)
  {
    var i := from;
    while i < to
      invariant from <= i && Lex(a, b, upper, from, to) == Lex(a, b, upper, i, to)
    {
      var x, y := Bound(a, upper, i), Bound(b, upper, i);
      if x > y { return 1; }
      if x < y { return -1; }
      i := i + 1;
    }
    return 0;
  }

  method Cmp(a: Box, b: Box) returns (r: int)
    ensures r == CmpBox(a, b)
  {
    var dim := MinDim(a, b);
    r := LexLoop(a, b, false, 0, dim);
    if r != 0 { return; }
    r := LexLoop(a, b, true, 0, dim);
    if r != 0 { return; }
    if a.dim > b.dim {
      r := LexLoop(a, b, false, dim, a.dim);
      if r != 0 { return; }
      r := LexLoop(a, b, true, dim, a.dim);
      return First(r, 1);
    }
    if a.dim < b.dim {
      r := LexLoop(b, a, false, dim, b.dim);
      LexAntisymmetric(a, b, false, dim, b.dim);
      if r != 0 { return -r; }
      r := LexLoop(b, a, true, dim, b.dim);
      LexAntisymmetric(a, b, true, dim, b.dim);
      return First(-r, -1);
    }
    return 0;
  }

  lemma {:induction false} LexAntisymmetric(a: Box, b: Box, upper: bool, from: nat, to: nat)
    ensures Lex(a, b, upper, from, to) == -Lex(b, a, upper, from, to)
    decreases if from < to then to - from else 0
  {
    if from < to { LexAntisymmetric(a, b, upper, from + 1, to); }
  }

  lemma {:induction false} LexZero(a: Box, b: Box, upper: bool, from: nat, to: nat)
    ensures Lex(a, b, upper, from, to) == 0 <==> (forall i: nat :: from <= i < to ==> Bound(a, upper, i) == Bound(b, upper, i))
    decreases if from < to then to - from else 0
  {
    if from < to { LexZero(a, b, upper, from + 1, to); }
  }

  lemma {:induction false} LexTransitive(a: Box, b: Box, c: Box, upper: bool, from: nat, to: nat)
    requires Lex(a, b, upper, from, to) <= 0 && Lex(b, c, upper, from, to) <= 0
    ensures Lex(a, c, upper, from, to) <= 0
    ensures Lex(a, c, upper, from, to) == 0 ==> Lex(a, b, upper, from, to) == 0 && Lex(b, c, upper, from, to) == 0
    decreases if from < to then to - from else 0
  {
    if from < to && Bound(a, upper, from) == Bound(b, upper, from) == Bound(c, upper, from) {
      LexTransitive(a, b, c, upper, from + 1, to);
    }
  }

  /** Equal for the comparison: as many dimensions and the same interval in each. */
  lemma {:induction false} CmpZeroIff(a: Box, b: Box)
    ensures CmpBox(a, b) == 0 <==> a.dim == b.dim && forall i: nat :: Lo(a, i) == Lo(b, i) && Hi(a, i) == Hi(b, i)
  {
    var d := MinDim(a, b);
    LexZero(a, b, false, 0, d);
    LexZero(a, b, true, 0, d);
    if a.dim == b.dim && Lex(a, b, false, 0, d) == 0 && Lex(a, b, true, 0, d) == 0 {
      forall i: nat ensures Lo(a, i) == Lo(b, i) && Hi(a, i) == Hi(b, i) {
        if i < d { assert Bound(a, false, i) == Bound(b, false, i) && Bound(a, true, i) == Bound(b, true, i); }
      }
    }
  }

  lemma {:induction false} CmpAntisymmetric(a: Box, b: Box)
    ensures CmpBox(a, b) == -CmpBox(b, a)
  {
    var d, m := MinDim(a, b), MaxDim(a, b);
    LexAntisymmetric(a, b, false, 0, d);
    LexAntisymmetric(a, b, true, 0, d);
    LexAntisymmetric(a, b, false, d, m);
    LexAntisymmetric(a, b, true, d, m);
  }

  predicate DimIn(c: Box, n: nat) {
    c.dim == 0 || c.dim == n
  }

  /** Among boxes of n or no dimensions the comparison is one lexicographic pass. */
  lemma {:induction false} CmpFlat(a: Box, b: Box, n: nat)
    requires DimIn(a, n) && DimIn(b, n)
    ensures CmpBox(a, b) == First(First(Lex(a, b, false, 0, n), Lex(a, b, true, 0, n)), DimSign(a, b))
  {
    if MaxDim(a, b) == 0 {
      LexZero(a, b, false, 0, n);
      LexZero(a, b, true, 0, n);
    }
  }

  /** Transitive whenever at most one number of dimensions other than zero occurs. */
  lemma {:induction false} CmpTransitive(a: Box, b: Box, c: Box, n: nat)
    requires DimIn(a, n) && DimIn(b, n) && DimIn(c, n)
    requires CmpBox(a, b) <= 0 && CmpBox(b, c) <= 0
    ensures CmpBox(a, c) <= 0
  {
    CmpFlat(a, b, n);
    CmpFlat(b, c, n);
    CmpFlat(a, c, n);
    LexTransitive(a, b, c, false, 0, n);
    if Lex(a, c, false, 0, n) == 0 { LexTransitive(a, b, c, true, 0, n); }
  }

  /** A box flat at zero but for one lower and the first upper coordinate. */
  function Slab(n: nat, m: nat, low: real, high: real): (c: Box)
    requires 0 < n && low <= 0.0 <= high
    ensures c.dim == n
    ensures forall i: nat :: Lo(c, i) == (if i == m < n then low else 0.0) && Hi(c, i) == (if i == 0 then high else 0.0)
  {
    NdBox(n, false, seq(2 * n, j => if j == m && m < n then low else if j == n then high else 0.0))
  }

  /** As soon as two different numbers of dimensions other than zero occur, the comparison runs in a circle. */
  lemma {:induction false} CmpCycle(m: nat, n: nat) returns (a: Box, b: Box, c: Box)
    requires 0 < m < n
    ensures a.dim == m && b.dim == c.dim == n
    ensures CmpBox(b, a) < 0 && CmpBox(a, c) < 0 && CmpBox(c, b) < 0
  {
    a, b, c := Slab(m, m, 0.0, 1.0), Slab(n, m, -1.0, 1.0), Slab(n, m, -2.0, 2.0);
    LexZero(b, a, false, 0, m);
    LexZero(b, a, true, 0, m);
    assert Lex(b, a, false, m, n) == -1;
    LexZero(a, c, false, 0, m);
    assert Lex(a, c, true, 0, m) == -1;
    LexSkip(c, b, false, 0, m, n);
    assert Lex(c, b, false, m, n) == -1;
  }

  lemma {:induction false} LexSkip(a: Box, b: Box, upper: bool, from: nat, mid: nat, to: nat)
    requires from <= mid <= to && forall i: nat :: from <= i < mid ==> Bound(a, upper, i) == Bound(b, upper, i)
    ensures Lex(a, b, upper, from, to) == Lex(a, b, upper, mid, to)
    decreases mid - from
  {
    if from < mid { LexSkip(a, b, upper, from + 1, mid, to); }
  }
}
