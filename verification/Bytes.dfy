/** Byte strings in lexicographic order, shorter first on a tie, and their common prefixes. */
module Bytes {

  type Byte = b: int | 0 <= b < 256 witness 0
  type Str = seq<Byte>

  predicate Le(a: Str, b: Str) {
    a == [] || (b != [] && (a[0] < b[0] || (a[0] == b[0] && Le(a[1..], b[1..]))))
  }

  predicate Lt(a: Str, b: Str) {
    !Le(b, a)
  }

  /** Length of the longest common prefix. */
  function Cp(a: Str, b: Str): (n: nat)
    ensures n <= |a| && n <= |b|
  {
    if a == [] || b == [] || a[0] != b[0] then 0 else 1 + Cp(a[1..], b[1..])
  }

  lemma {:induction false} LeReflexive(a: Str)
    ensures Le(a, a)
  {
    if a != [] { LeReflexive(a[1..]); }
  }

  lemma {:induction false} LeTotal(a: Str, b: Str)
    ensures Le(a, b) || Le(b, a)
  {
    if a != [] && b != [] { LeTotal(a[1..], b[1..]); }
  }

  lemma {:induction false} LeTransitive(a: Str, b: Str, c: Str)
    requires Le(a, b) && Le(b, c)
    ensures Le(a, c)
  {
    if a != [] && a[0] == b[0] == c[0] { LeTransitive(a[1..], b[1..], c[1..]); }
  }

  lemma {:induction false} LeAntisymmetric(a: Str, b: Str)
    requires Le(a, b) && Le(b, a)
    ensures a == b
  {
    if a != [] {
      LeAntisymmetric(a[1..], b[1..]);
      assert a == [a[0]] + a[1..] && b == [b[0]] + b[1..];
    }
  }

  lemma {:induction false} PrefixLe(p: Str, a: Str)
    requires p <= a
    ensures Le(p, a)
  {
    if p != [] { PrefixLe(p[1..], a[1..]); }
  }

  /** Everything between two strings with a common prefix has that prefix. */
  lemma {:induction false} Between(p: Str, x: Str, a: Str, y: Str)
    requires p <= x && p <= y && Le(x, a) && Le(a, y)
    ensures p <= a
  {
    if p != [] {
      Between(p[1..], x[1..], a[1..], y[1..]);
      assert p == [p[0]] + p[1..] && a == [a[0]] + a[1..];
    }
  }

  lemma {:induction false} CpIsCommon(a: Str, b: Str)
    ensures a[..Cp(a, b)] == b[..Cp(a, b)]
  {
    if Cp(a, b) > 0 {
      CpIsCommon(a[1..], b[1..]);
      var n := Cp(a, b);
      assert a[..n] == [a[0]] + a[1..][..n - 1] && b[..n] == [b[0]] + b[1..][..n - 1];
    }
  }

  lemma {:induction false} CpIsLongest(p: Str, a: Str, b: Str)
    requires p <= a && p <= b
    ensures |p| <= Cp(a, b)
  {
    if p != [] { CpIsLongest(p[1..], a[1..], b[1..]); }
  }

  /** A narrower interval has a common prefix at least as long. */
  lemma {:induction false} CpNested(x: Str, a: Str, b: Str, y: Str)
    requires Le(x, a) && Le(a, b) && Le(b, y)
    ensures Cp(x, y) <= Cp(a, b)
  {
    var p := x[..Cp(x, y)];
    CpIsCommon(x, y);
    LeTransitive(x, a, b);
    LeTransitive(a, b, y);
    Between(p, x, a, y);
    Between(p, x, b, y);
    CpIsLongest(p, a, b);
  }

  function Cut(a: Str, n: nat): (r: Str)
    ensures r <= a && |r| == if |a| < n then |a| else n
  {
    if |a| < n then a else a[..n]
  }

  /** Cutting beyond the common prefix does not change it. */
  lemma {:induction false} CpCut(a: Str, b: Str, n: nat)
    requires n > Cp(a, b)
    ensures Cp(Cut(a, n), Cut(b, n)) == Cp(a, b)
  {
    if a != [] && b != [] && a[0] == b[0] {
      CpCut(a[1..], b[1..], n - 1);
      assert Cut(a, n)[1..] == Cut(a[1..], n - 1) && Cut(b, n)[1..] == Cut(b[1..], n - 1);
    }
  }

  lemma CutLe(a: Str, n: nat)
    ensures Le(Cut(a, n), a)
  {
    PrefixLe(Cut(a, n), a);
  }

  /** At most u, but above what u is cut to: then it begins with the cut. */
  lemma {:induction false} AboveCut(v: Str, u: Str, n: nat)
    requires Le(v, u) && !Le(v, Cut(u, n))
    ensures Cut(u, n) <= v
  {
    var c := Cut(u, n);
    LeTotal(v, c);
    Between(c, c, v, u);
  }

  lemma {:induction false} PrefixOfPrefix(p: Str, a: Str, b: Str)
    requires p <= b && a <= b && |p| <= |a|
    ensures p <= a
  {
  }

  // ---------------------------------------------------------------- runs of 0xFF

  function Ones(n: nat): (r: Str)
    ensures |r| == n && forall i :: 0 <= i < n ==> r[i] == 255
  {
    seq(n, _ => 255)
  }

  /** Nothing longer than w is above a run of 0xFF without beginning with it. */
  lemma {:induction false} AboveOnes(w: Str, x: Str)
    requires (forall i :: 0 <= i < |w| ==> w[i] == 255) && Le(w, x)
    ensures w <= x
  {
    if w != [] {
      AboveOnes(w[1..], x[1..]);
      assert w == [w[0]] + w[1..] && x == [x[0]] + x[1..];
    }
  }

  lemma {:induction false} OnesAbove(w: Str)
    requires exists i :: 0 <= i < |w| && w[i] != 255
    ensures !Le(Ones(|w|), w)
  {
    assert Ones(|w|)[1..] == Ones(|w| - 1);
    if w[0] == 255 {
      var i :| 0 <= i < |w| && w[i] != 255;
      assert w[1..][i - 1] != 255;
      OnesAbove(w[1..]);
    }
  }

  /** Order below a shared prefix. */
  lemma {:induction false} LeBelowPrefix(p: Str, a: Str, b: Str)
    ensures Le(p + a, p + b) <==> Le(a, b)
  {
    if p == [] {
      assert p + a == a && p + b == b;
    } else {
      LeBelowPrefix(p[1..], a, b);
      assert (p + a)[1..] == p[1..] + a && (p + b)[1..] == p[1..] + b;
    }
  }

  /** What goes on with nothing but 0xFF is a prefix of everything above it that begins alike. */
  lemma {:induction false} OnesAreLast(e: Str, u: Str, v: Str)
    requires e <= u && e <= v && Le(u, v) && forall i :: |e| <= i < |u| ==> u[i] == 255
    ensures u <= v
  {
    var m := |e|;
    assert u == e + u[m..] && v == e + v[m..];
    LeBelowPrefix(e, u[m..], v[m..]);
    AboveOnes(u[m..], v[m..]);
  }
}
