/**
 The bytes of a variable-length key: a length word, the lower bound with its own
 length word, padding to four bytes, the upper bound. A leaf entry stops after the
 lower bound, and that is how a reader tells the two apart.
 */
module GistVarLayout {
  import opened Bytes

  const VARHDRSZ := 4
  const MAX_SIZE := 0x3fff_ffff

  /** The length word, little-endian, shifted past its two flag bits. */
  function Header(n: nat): (r: Str)
    requires n <= MAX_SIZE
    ensures |r| == VARHDRSZ
  {
    var w := 4 * n;
    [w % 256, (w / 256) % 256, (w / 65536) % 256, w / 16777216]
  }

  function VarSize(m: Str): nat
    requires |m| >= VARHDRSZ
  {
    Weigh(m[0], m[1], m[2], m[3]) / 4
  }

  function Weigh(a: int, b: int, c: int, d: int): int {
    a + 256 * b + 65536 * c + 16777216 * d
  }

  lemma DigitsWeigh(w: nat)
    ensures Weigh(w % 256, (w / 256) % 256, (w / 65536) % 256, w / 16777216) == w
  {
    assert w / 65536 == (w / 256) / 256;
    assert w / 16777216 == (w / 65536) / 256;
  }

  lemma HeaderRead(n: nat, rest: Str)
    requires n <= MAX_SIZE
    ensures VarSize(Header(n) + rest) == n
  {
    DigitsWeigh(4 * n);
    var m := Header(n) + rest;
    assert m[0] == Header(n)[0] && m[1] == Header(n)[1] && m[2] == Header(n)[2] && m[3] == Header(n)[3];
  }

  function Varlena(x: Str): (r: Str)
    requires |x| + VARHDRSZ <= MAX_SIZE
    ensures |r| == |x| + VARHDRSZ
  {
    Header(|x| + VARHDRSZ) + x
  }

  function IntAlign(n: nat): (r: nat)
    ensures n <= r < n + 4
  {
    (n + 3) / 4 * 4
  }

  /** A leaf entry made from one value. */
  function KeyFromDatum(v: Str): Str
    requires |v| + 2 * VARHDRSZ <= MAX_SIZE
  {
    Header(|v| + 2 * VARHDRSZ) + Varlena(v)
  }

  /** A node entry made from two bounds. */
  function KeyCopy(l: Str, u: Str): Str
    requires IntAlign(|l| + VARHDRSZ) + |u| + 2 * VARHDRSZ <= MAX_SIZE
  {
    KeyBytes(IntAlign(|l| + VARHDRSZ) + |u| + 2 * VARHDRSZ, l, Zeros(IntAlign(|l| + VARHDRSZ) - |l| - VARHDRSZ), u)
  }

  function Zeros(n: nat): (r: Str)
    ensures |r| == n
  {
    seq(n, _ => 0)
  }

  function KeyBytes(size: nat, l: Str, pad: Str, u: Str): Str
    requires size <= MAX_SIZE && |l| + VARHDRSZ <= MAX_SIZE && |u| + VARHDRSZ <= MAX_SIZE
  {
    Header(size) + Varlena(l) + pad + Varlena(u)
  }

  datatype Readable = Leaf(value: Str) | Node(lower: Str, upper: Str) | Malformed

  /** The bounds found in a key's bytes. */
  function ReadKey(k: Str): Readable {
    if |k| < 2 * VARHDRSZ then Malformed
    else
      var lsize := VarSize(k[VARHDRSZ..]);
      if lsize < VARHDRSZ || VARHDRSZ + lsize > |k| then Malformed
      else
        var lower := k[2 * VARHDRSZ..VARHDRSZ + lsize];
        if VarSize(k) <= VARHDRSZ + lsize then Leaf(lower)
        else
          var at := VARHDRSZ + IntAlign(lsize);
          if at + VARHDRSZ > |k| then Malformed
          else
            var usize := VarSize(k[at..]);
            if usize < VARHDRSZ || at + usize > |k| then Malformed
            else Node(lower, k[at + VARHDRSZ..at + usize])
  }

  lemma {:induction false} LeafRoundTrip(v: Str)
    requires |v| + 2 * VARHDRSZ <= MAX_SIZE
    ensures ReadKey(KeyFromDatum(v)) == Leaf(v)
  {
    var k := KeyFromDatum(v);
    HeaderRead(|v| + 2 * VARHDRSZ, Varlena(v));
    assert k[VARHDRSZ..] == Varlena(v);
    HeaderRead(|v| + VARHDRSZ, v);
    assert k[2 * VARHDRSZ..] == v;
  }

  lemma Slices(a: Str, b: Str, c: Str, d: Str)
    ensures (a + b + c + d)[|a|..] == b + (c + d)
    ensures (a + b + c + d)[|a| + |b| + |c|..] == d
    ensures a + b + c + d == a + (b + c + d)
  {
  }

  /** What a reader finds at a bound that starts at byte `at`. */
  lemma BoundRead(k: Str, at: nat, x: Str, rest: Str)
    requires |x| + VARHDRSZ <= MAX_SIZE && at <= |k|
    requires k[at..] == Varlena(x) + rest
    ensures at + VARHDRSZ + |x| <= |k|
    ensures VarSize(k[at..]) == |x| + VARHDRSZ
    ensures k[at + VARHDRSZ..at + VARHDRSZ + |x|] == x
  {
    assert k[at..] == Header(|x| + VARHDRSZ) + (x + rest);
    HeaderRead(|x| + VARHDRSZ, x + rest);
    var t := k[at..];
    assert t[VARHDRSZ..VARHDRSZ + |x|] == x;
    assert k[at + VARHDRSZ..at + VARHDRSZ + |x|] == t[VARHDRSZ..VARHDRSZ + |x|];
  }

  ghost predicate BoundAt(k: Str, at: nat, x: Str) {
    && at + VARHDRSZ + |x| <= |k|
    && VarSize(k[at..]) == |x| + VARHDRSZ
    && k[at + VARHDRSZ..at + VARHDRSZ + |x|] == x
  }

  lemma PartsRead(size: nat, l: Str, pad: Str, u: Str)
    requires size <= MAX_SIZE && |l| + VARHDRSZ <= MAX_SIZE && |u| + VARHDRSZ <= MAX_SIZE
    ensures BoundAt(KeyBytes(size, l, pad, u), VARHDRSZ, l) && VarSize(KeyBytes(size, l, pad, u)) == size
  {
    var head, lower, upper := Header(size), Varlena(l), Varlena(u);
    Slices(head, lower, pad, upper);
    HeaderRead(size, lower + pad + upper);
    BoundRead(head + lower + pad + upper, VARHDRSZ, l, pad + upper);
  }

  lemma UpperRead(size: nat, l: Str, pad: Str, u: Str)
    requires size <= MAX_SIZE && |l| + VARHDRSZ <= MAX_SIZE && |u| + VARHDRSZ <= MAX_SIZE
    ensures BoundAt(KeyBytes(size, l, pad, u), 2 * VARHDRSZ + |l| + |pad|, u)
  {
    var head, lower, upper := Header(size), Varlena(l), Varlena(u);
    Slices(head, lower, pad, upper);
    assert upper + [] == upper;
    BoundRead(head + lower + pad + upper, 2 * VARHDRSZ + |l| + |pad|, u, []);
  }

  lemma KeyParts(l: Str, u: Str)
    requires IntAlign(|l| + VARHDRSZ) + |u| + 2 * VARHDRSZ <= MAX_SIZE
    ensures BoundAt(KeyCopy(l, u), VARHDRSZ, l)
    ensures BoundAt(KeyCopy(l, u), VARHDRSZ + IntAlign(|l| + VARHDRSZ), u)
    ensures VarSize(KeyCopy(l, u)) == IntAlign(|l| + VARHDRSZ) + |u| + 2 * VARHDRSZ
  {
    var aligned := IntAlign(|l| + VARHDRSZ);
    var pad := Zeros(aligned - |l| - VARHDRSZ);
    PartsRead(aligned + |u| + 2 * VARHDRSZ, l, pad, u);
    UpperRead(aligned + |u| + 2 * VARHDRSZ, l, pad, u);
  }

  /** Both bounds come back, whatever their lengths, and never as a leaf. */
  lemma {:induction false} NodeRoundTrip(l: Str, u: Str)
    requires IntAlign(|l| + VARHDRSZ) + |u| + 2 * VARHDRSZ <= MAX_SIZE
    ensures ReadKey(KeyCopy(l, u)) == Node(l, u)
  {
    KeyParts(l, u);
    ReadBounds(KeyCopy(l, u), l, u);
  }

  lemma ReadBounds(k: Str, l: Str, u: Str)
    requires BoundAt(k, VARHDRSZ, l)
    requires BoundAt(k, VARHDRSZ + IntAlign(|l| + VARHDRSZ), u)
    requires VarSize(k) > |l| + 2 * VARHDRSZ
    ensures ReadKey(k) == Node(l, u)
  {
  }
}
