/** Division facts the linear solver does not see by itself. */
module Arithmetic {

  lemma MultipleAtLeast(n: int, d: int)
    requires n >= 1 && d >= 0
    ensures n * d >= d
  {
    assert (n - 1) * d >= 0;
    assert n * d == (n - 1) * d + d;
  }

  lemma ProductMonotone(a: int, b: int, d: int)
    requires a <= b && d >= 0
    ensures a * d <= b * d && d * a <= d * b
  {
    assert (b - a) * d >= 0;
    assert b * d == (b - a) * d + a * d;
  }

  lemma QuotientUnique(x: int, q: int, r: int, k: int, m: int, d: int)
    requires d > 0 && 0 <= r < d && 0 <= m < d
    requires x == q * d + r && x == k * d + m
    ensures k == q && m == r
  {
    assert (k - q) * d == k * d - q * d == r - m;
    if k > q { MultipleAtLeast(k - q, d); }
    if k < q { MultipleAtLeast(q - k, d); }
  }

  lemma Division(x: int, d: int)
    requires d > 0
    ensures x == (x / d) * d + x % d && 0 <= x % d < d
  {
  }

  /** q * d + r divided by d. */
  lemma IndexParts(q: int, r: int, d: int)
    requires 0 <= r < d
    ensures (q * d + r) / d == q && (q * d + r) % d == r
  {
    var x := q * d + r;
    Division(x, d);
    QuotientUnique(x, q, r, x / d, x % d, d);
  }

  lemma DivideMonotone(x: int, y: int, d: int)
    requires d > 0 && x <= y
    ensures x / d <= y / d
  {
    Division(x, d);
    Division(y, d);
    var k, m := x / d, y / d;
    if k > m { MultipleAtLeast(k - m, d); }
  }

  lemma IndexInRange(q: int, r: int, n: int, d: int)
    requires 0 <= q < n && 0 <= r < d
    ensures 0 <= q * d + r < n * d
  {
    ProductMonotone(q + 1, n, d);
    assert (q + 1) * d == q * d + d;
    assert q * d >= 0;
  }
}
