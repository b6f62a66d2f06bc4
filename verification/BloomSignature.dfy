/**
 Bloom signatures: the Park-Miller generator with its static state, the bits it
 picks for a column value, and the signature words they are set in.
 */
module BloomSignature {
  import opened Arithmetic
  import opened Wrappers

  const MODULUS := 0x7fff_ffff       // 2^31 - 1
  const MULTIPLIER := 16807          // 7^5
  const QUOTIENT := 127773           // MODULUS == QUOTIENT * MULTIPLIER + REMAINDER
  const REMAINDER := 2836
  const SIGNWORDBITS := 16
  const MAX_WORDS := 256

  // ---------------------------------------------------------------- C integer division

  function CDiv(a: int, b: int): int
    requires b > 0
  {
    if a >= 0 then a / b else -((-a) / b)
  }

  function CMod(a: int, b: int): int
    requires b > 0
  {
    a - b * CDiv(a, b)
  }

  predicate Int32(x: int) {
    -0x8000_0000 <= x <= 0x7fff_ffff
  }

  // ---------------------------------------------------------------- the generator

  function NextState(s: int): int {
    var hi, lo := CDiv(s, QUOTIENT), CMod(s, QUOTIENT);
    var x := MULTIPLIER * lo - REMAINDER * hi;
    if x < 0 then x + MODULUS else x
  }

  function SeedState(seed: int): int
    requires 0 <= seed < 0x1_0000_0000
  {
    var n := if seed < 0x8000_0000 then seed else seed - 0x1_0000_0000;
    CMod(n, MODULUS - 1) + 1
  }

  /** A state the generator is meant to be in. */
  predicate Proper(s: int) {
    s != 0 && -MODULUS < s < MODULUS
  }

  /** One step is multiplication by 7^5 modulo 2^31 - 1, without a 32-bit overflow on the way. */
  lemma {:induction false} ParkMiller(s: int)
    requires Proper(s)
    ensures NextState(s) == (MULTIPLIER * s) % MODULUS
    ensures 1 <= NextState(s) <= MODULUS - 1
    ensures var hi, lo := CDiv(s, QUOTIENT), CMod(s, QUOTIENT);
            && Int32(MULTIPLIER * lo) && Int32(REMAINDER * hi) && Int32(MULTIPLIER * lo - REMAINDER * hi)
  {
    var hi, lo := CDiv(s, QUOTIENT), CMod(s, QUOTIENT);
    assert s == QUOTIENT * hi + lo;
    assert -QUOTIENT < lo < QUOTIENT && -MULTIPLIER <= hi <= MULTIPLIER;
    var x := MULTIPLIER * lo - REMAINDER * hi;
    assert MULTIPLIER * s == MODULUS * hi + x;
    if x == 0 {
      // 2836 and 16807 are coprime, so hi is a multiple of 16807
      Coprime(lo, hi);
      assert false;
    }
    if x < 0 { IndexParts(hi - 1, x + MODULUS, MODULUS); } else { IndexParts(hi, x, MODULUS); }
  }

  /** 16807 * lo == 2836 * hi only at the two ends of the range. */
  lemma {:induction false} Coprime(lo: int, hi: int)
    requires MULTIPLIER * lo == REMAINDER * hi
    requires -MULTIPLIER <= hi <= MULTIPLIER
    ensures (hi == 0 && lo == 0) || (hi == MULTIPLIER && lo == REMAINDER) || (hi == -MULTIPLIER && lo == -REMAINDER)
  {
    var k := INVERSE * lo - COFACTOR * hi;
    assert hi == MULTIPLIER * k;
  }

  // REMAINDER * INVERSE == MULTIPLIER * COFACTOR + 1
  const INVERSE := 5790
  const COFACTOR := 977

  /** Seeding reaches a proper state from every 32-bit seed but two. */
  lemma {:induction false} SeedProper(seed: int)
    requires 0 <= seed < 0x1_0000_0000
    ensures -MODULUS < SeedState(seed) < MODULUS
    ensures Proper(SeedState(seed)) <==> seed != 0x8000_0001 && seed != 0xffff_ffff
    ensures seed < 0x8000_0000 ==> 1 <= SeedState(seed) <= MODULUS - 1
  {
  }

  // ---------------------------------------------------------------- the bits of a value

  /** The generator after n calls. */
  function After(s: int, n: nat): int {
    if n == 0 then s else NextState(After(s, n - 1))
  }

  lemma {:induction false} AfterProper(s: int, n: nat)
    requires -MODULUS < s < MODULUS
    ensures -MODULUS < After(s, n) < MODULUS
    ensures Proper(After(s, n)) <==> Proper(s)
    ensures n > 0 && Proper(s) ==> 1 <= After(s, n) <= MODULUS - 1
  {
    if n > 0 {
      AfterProper(s, n - 1);
      if Proper(s) { ParkMiller(After(s, n - 1)); }
    }
  }

  function Pow2(n: nat): nat {
    if n == 0 then 1 else 2 * Pow2(n - 1)
  }

  lemma Pow2Plus4(n: nat)
    ensures Pow2(n + 4) == 16 * Pow2(n)
  {
    assert Pow2(n + 1) == 2 * Pow2(n);
    assert Pow2(n + 2) == 2 * Pow2(n + 1);
    assert Pow2(n + 3) == 2 * Pow2(n + 2);
  }

  lemma Pow2Word()
    ensures Pow2(32) == 0x1_0000_0000
  {
    Pow2Plus4(0);
    Pow2Plus4(4);
    Pow2Plus4(8);
    Pow2Plus4(12);
    Pow2Plus4(16);
    Pow2Plus4(20);
    Pow2Plus4(24);
    Pow2Plus4(28);
  }

  /** Exclusive or of the low n bits. */
  function Xor(a: nat, b: nat, n: nat): (r: nat)
    ensures r < Pow2(n)
  {
    if n == 0 then 0 else (if a % 2 == b % 2 then 0 else 1) + 2 * Xor(a / 2, b / 2, n - 1)
  }

  lemma {:induction false} XorUndone(a: nat, b: nat, n: nat)
    requires a < Pow2(n)
    ensures Xor(Xor(a, b, n), b, n) == a
  {
    if n > 0 {
      XorUndone(a / 2, b / 2, n - 1);
      var x := Xor(a, b, n);
      assert x / 2 == Xor(a / 2, b / 2, n - 1) && x % 2 == (if a % 2 == b % 2 then 0 else 1);
    }
  }

  type Hash = h: int | 0 <= h < 0x1_0000_0000 witness 0

  const MAX_COLUMNS := 32

  lemma ColumnSeed(attno: int)
    requires 0 <= attno < MAX_COLUMNS
    ensures SeedState(attno) == attno + 1
  {
  }

  lemma FirstDraw(attno: int)
    requires 0 <= attno < MAX_COLUMNS
    ensures SeedState(attno) == attno + 1
    ensures 0 <= After(SeedState(attno), 1) - 1 < 0x7fff_ffff
  {
    ColumnSeed(attno);
    AfterProper(attno + 1, 1);
  }

  /** The generator's first draw, seeded with the column number. */
  function ColumnDraw(attno: int): (draw: Hash)
    requires 0 <= attno < MAX_COLUMNS
  {
    FirstDraw(attno);
    After(SeedState(attno), 1) - 1
  }

  /** The seed a hashed value leads to, in column attno. */
  function ValueSeed(attno: int, hash: Hash): Hash
    requires 0 <= attno < MAX_COLUMNS
  {
    Pow2Word();
    Xor(hash, ColumnDraw(attno), 32)
  }

  /** The j-th bit drawn for a value. */
  function BitAt(attno: int, hash: Hash, words: nat, j: nat): int
    requires 0 <= attno < MAX_COLUMNS && 1 <= words <= MAX_WORDS
  {
    BitFrom(SeedState(ValueSeed(attno, hash)), words, j)
  }

  function BitFrom(s: int, words: nat, j: nat): int
    requires 1 <= words <= MAX_WORDS
  {
    CMod(After(s, j + 1) - 1, words * SIGNWORDBITS)
  }

  /** The two hash values of a column that lead to a bad seed. */
  predicate BadHash(attno: int, hash: Hash)
    requires 0 <= attno < MAX_COLUMNS
  {
    hash == Xor(0x8000_0001, ColumnDraw(attno), 32) || hash == Xor(0xffff_ffff, ColumnDraw(attno), 32)
  }

  lemma BadHashSeed(attno: int, hash: Hash)
    requires 0 <= attno < MAX_COLUMNS
    ensures BadHash(attno, hash) <==> ValueSeed(attno, hash) == 0x8000_0001 || ValueSeed(attno, hash) == 0xffff_ffff
  {
    var draw := ColumnDraw(attno);
    Pow2Word();
    XorUndone(hash, draw, 32);
    XorUndone(0x8000_0001, draw, 32);
    XorUndone(0xffff_ffff, draw, 32);
  }

  lemma CModRange(r: int, m: int)
    requires m > 1
    ensures 0 <= r ==> 0 <= CMod(r, m) < m
    ensures r == -1 ==> CMod(r, m) == -1
  {
    if r >= 0 { Division(r, m); }
    if r == -1 { IndexParts(0, 1, m); }
  }

  /** The state a value's bits are drawn from. */
  lemma {:induction false} SeedOutcome(attno: int, hash: Hash)
    requires 0 <= attno < MAX_COLUMNS
    ensures var s := SeedState(ValueSeed(attno, hash));
            -MODULUS < s < MODULUS && if BadHash(attno, hash) then s == 0 else Proper(s)
  {
    BadHashSeed(attno, hash);
    SeedProper(ValueSeed(attno, hash));
  }

  /** A bit number from a state. */
  lemma {:induction false} BitFromState(s: int, words: nat, j: nat)
    requires -MODULUS < s < MODULUS && (s == 0 || Proper(s)) && 1 <= words <= MAX_WORDS
    ensures Proper(s) ==> 0 <= BitFrom(s, words, j) < words * SIGNWORDBITS
    ensures s == 0 ==> BitFrom(s, words, j) == -1
  {
    AfterProper(s, j + 1);
    CModRange(After(s, j + 1) - 1, words * SIGNWORDBITS);
  }

  /** Every bit drawn is inside the signature, except for the two bad hashes, where every one is -1. */
  lemma {:induction false} BitInSignature(attno: int, hash: Hash, words: nat, j: nat)
    requires 0 <= attno < MAX_COLUMNS && 1 <= words <= MAX_WORDS
    ensures !BadHash(attno, hash) ==> 0 <= BitAt(attno, hash, words, j) < words * SIGNWORDBITS
    ensures BadHash(attno, hash) ==> BitAt(attno, hash, words, j) == -1
  {
    SeedOutcome(attno, hash);
    BitOutcome(SeedState(ValueSeed(attno, hash)), BadHash(attno, hash), words, j);
  }

  lemma {:induction false} BitOutcome(s: int, bad: bool, words: nat, j: nat)
    requires -MODULUS < s < MODULUS && (if bad then s == 0 else Proper(s)) && 1 <= words <= MAX_WORDS
    ensures if bad then BitFrom(s, words, j) == -1 else 0 <= BitFrom(s, words, j) < words * SIGNWORDBITS
  {
    BitFromState(s, words, j);
  }

  // ---------------------------------------------------------------- signature words

  type Signature = seq<bv16>

  function Mask(n: nat): bv16 {
    Power(n % SIGNWORDBITS)
  }

  function Power(k: nat): bv16 {
    if k == 0 then 1 else Power(k - 1) << 1
  }

  function WithBit(sign: Signature, n: nat): (r: Signature)
    requires n / SIGNWORDBITS < |sign|
    ensures |r| == |sign|
  {
    sign[n / SIGNWORDBITS := Or(sign[n / SIGNWORDBITS], Mask(n))]
  }

  /** All bits of q are set in t. */
  predicate WordOk(t: bv16, q: bv16) {
    t & q == q
  }

  predicate HasBit(sign: Signature, n: nat) {
    n / SIGNWORDBITS < |sign| && WordOk(sign[n / SIGNWORDBITS], Mask(n))
  }

  predicate Inside(bits: seq<nat>, words: nat) {
    forall j :: 0 <= j < |bits| ==> bits[j] / SIGNWORDBITS < words
  }

  /** The bits of a value, in the order they are drawn. */
  function Bits(attno: int, hash: Hash, words: nat, count: nat): (r: seq<nat>)
    requires 0 <= attno < MAX_COLUMNS && 1 <= words <= MAX_WORDS && !BadHash(attno, hash)
    ensures |r| == count && Inside(r, words)
    ensures forall j :: 0 <= j < count ==> r[j] == BitAt(attno, hash, words, j)
  {
    if count == 0 then []
    else
      BitInSignature(attno, hash, words, count - 1);
      Bits(attno, hash, words, count - 1) + [BitAt(attno, hash, words, count - 1)]
  }

  function WithBits(sign: Signature, bits: seq<nat>): (r: Signature)
    requires Inside(bits, |sign|)
    ensures |r| == |sign|
  {
    if bits == [] then sign else WithBit(WithBits(sign, bits[..|bits| - 1]), bits[|bits| - 1])
  }

  /** The scan's test, word by word. */
  predicate Matches(tuple: Signature, query: Signature) {
    |tuple| == |query| && forall i :: 0 <= i < |query| ==> WordOk(tuple[i], query[i])
  }

  lemma OrKeeps(t: bv16, q: bv16, m: bv16)
    ensures WordOk(t, q) && WordOk(t, m) ==> WordOk(t, q | m)
    ensures WordOk(t, q) ==> WordOk(t | m, q)
    ensures WordOk(t | m, m)
  {
  }

  /** Two sequences related place by place stay so when one place of either changes accordingly. */
  lemma RelatedUpdate<T>(a: seq<T>, b: seq<T>, w: nat, x: T, ok: (T, T) -> bool)
    requires |a| == |b| && w < |a| && forall i :: 0 <= i < |a| ==> ok(a[i], b[i])
    ensures ok(a[w], x) ==> var c := b[w := x]; forall i :: 0 <= i < |c| ==> ok(a[i], c[i])
    ensures ok(x, b[w]) ==> var c := a[w := x]; forall i :: 0 <= i < |c| ==> ok(c[i], b[i])
  {
  }

  lemma MatchesQueryWord(tuple: Signature, query: Signature, w: nat, m: bv16)
    requires Matches(tuple, query) && w < |tuple| && WordOk(tuple[w], m)
    ensures Matches(tuple, query[w := query[w] | m])
  {
    var x := query[w] | m;
    assert WordOk(tuple[w], x) by { assert WordOk(tuple[w], query[w]); OrKeeps(tuple[w], query[w], m); }
    RelatedUpdate(tuple, query, w, x, WordOk);
  }

  lemma MatchesTupleWord(tuple: Signature, query: Signature, w: nat, m: bv16)
    requires Matches(tuple, query) && w < |tuple|
    ensures Matches(tuple[w := tuple[w] | m], query)
  {
    var x := tuple[w] | m;
    assert WordOk(x, query[w]) by { assert WordOk(tuple[w], query[w]); OrKeeps(tuple[w], query[w], m); }
    RelatedUpdate(tuple, query, w, x, WordOk);
  }

  lemma NewBitIsThere(sign: Signature, n: nat)
    requires n / SIGNWORDBITS < |sign|
    ensures HasBit(WithBit(sign, n), n)
  {
    OrKeeps(sign[n / SIGNWORDBITS], 0, Mask(n));
  }

  /** A bit set in the tuple may be set in the query. */
  lemma QueryMayHave(tuple: Signature, query: Signature, n: nat)
    requires Matches(tuple, query) && HasBit(tuple, n)
    ensures Matches(tuple, WithBit(query, n))
  {
    var w, m := n / SIGNWORDBITS, Mask(n);
    MatchesQueryWord(tuple, query, w, m);
    assert WithBit(query, n) == query[w := query[w] | m];
  }

  /** Bits set in the tuple never hurt. */
  lemma TupleMayHave(tuple: Signature, query: Signature, n: nat)
    requires Matches(tuple, query) && n / SIGNWORDBITS < |tuple|
    ensures Matches(WithBit(tuple, n), query)
  {
    var w, m := n / SIGNWORDBITS, Mask(n);
    MatchesTupleWord(tuple, query, w, m);
    assert WithBit(tuple, n) == tuple[w := tuple[w] | m];
  }

  lemma HasBitKept(sign: Signature, n: nat, m: nat)
    requires HasBit(sign, n) && m / SIGNWORDBITS < |sign|
    ensures HasBit(WithBit(sign, m), n)
  {
    OrKeeps(sign[n / SIGNWORDBITS], Mask(n), Mask(m));
  }

  lemma {:induction false} WithBitsHas(sign: Signature, bits: seq<nat>, n: nat)
    requires Inside(bits, |sign|) && (HasBit(sign, n) || n in bits)
    ensures HasBit(WithBits(sign, bits), n)
  {
    if bits != [] {
      var before, b := bits[..|bits| - 1], bits[|bits| - 1];
      if b == n {
        NewBitIsThere(WithBits(sign, before), n);
      } else {
        WithBitsHas(sign, before, n);
        HasBitKept(WithBits(sign, before), n, b);
      }
    }
  }

  /** Bits are only ever added: a match is not lost by signing more values. */
  lemma {:induction false} WithBitsGrows(sign: Signature, query: Signature, bits: seq<nat>)
    requires Inside(bits, |sign|) && Matches(sign, query)
    ensures Matches(WithBits(sign, bits), query)
  {
    if bits != [] {
      var before := bits[..|bits| - 1];
      WithBitsGrows(sign, query, before);
      TupleMayHave(WithBits(sign, before), query, bits[|bits| - 1]);
    }
  }

  /** A tuple with all bits of a value still matches a query signed with that value. */
  lemma {:induction false} WithBitsMatches(tuple: Signature, query: Signature, bits: seq<nat>)
    requires Inside(bits, |query|) && Matches(tuple, query)
    requires forall j :: 0 <= j < |bits| ==> HasBit(tuple, bits[j])
    ensures Matches(tuple, WithBits(query, bits))
  {
    if bits != [] {
      var before := bits[..|bits| - 1];
      WithBitsMatches(tuple, query, before);
      QueryMayHave(tuple, WithBits(query, before), bits[|bits| - 1]);
    }
  }

  // ---------------------------------------------------------------- values

  /** What a value draws: bit numbers, or, for a bad hash, nothing but -1. */
  datatype Draw = Numbers(bits: seq<nat>) | Negative

  predicate Fits(d: Draw, words: nat) {
    words >= 1 && (d.Numbers? ==> Inside(d.bits, words))
  }

  function DrawOf(attno: int, hash: Hash, words: nat, count: nat): (d: Draw)
    requires 0 <= attno < MAX_COLUMNS && 1 <= words <= MAX_WORDS
    ensures Fits(d, words)
  {
    if count == 0 then Numbers([])
    else if BadHash(attno, hash) then Negative
    else Numbers(Bits(attno, hash, words, count))
  }

  /**
   The signature with a draw added. Bit number -1 is in word 0 for C, and is set there by a
   shift by -1; that is undefined, so the word it yields is a parameter.
   */
  function Signed(sign: Signature, d: Draw, shifted: bv16): (r: Signature)
    requires Fits(d, |sign|)
    ensures |r| == |sign|
  {
    match d
    case Numbers(bits) => WithBits(sign, bits)
    case Negative => sign[0 := Or(sign[0], shifted)]
  }

  /** All that a draw sets is set. */
  ghost predicate HasDraw(sign: Signature, d: Draw, shifted: bv16)
    requires Fits(d, |sign|)
  {
    match d
    case Numbers(bits) => forall j :: 0 <= j < |bits| ==> HasBit(sign, bits[j])
    case Negative => WordOk(sign[0], shifted)
  }

  /** Bits are only ever added: a match is not lost by signing more values. */
  lemma {:induction false} SignedGrows(sign: Signature, query: Signature, d: Draw, shifted: bv16)
    requires Fits(d, |sign|) && Matches(sign, query)
    ensures Matches(Signed(sign, d, shifted), query)
  {
    match d
    case Numbers(bits) => WithBitsGrows(sign, query, bits);
    case Negative => MatchesTupleWord(sign, query, 0, shifted);
  }

  lemma {:induction false} SignedHas(sign: Signature, d: Draw, shifted: bv16)
    requires Fits(d, |sign|)
    ensures HasDraw(Signed(sign, d, shifted), d, shifted)
  {
    match d
    case Numbers(bits) =>
      forall j | 0 <= j < |bits| ensures HasBit(WithBits(sign, bits), bits[j]) { WithBitsHas(sign, bits, bits[j]); }
    case Negative => OrKeeps(sign[0], 0, shifted);
  }

  lemma ZeroOk(x: bv16)
    ensures WordOk(x, 0)
  {
  }

  /** Signing another value takes nothing away. */
  lemma {:induction false} WordKept(sign: Signature, w: nat, m: bv16, d: Draw, shifted: bv16)
    requires Fits(d, |sign|) && w < |sign| && WordOk(sign[w], m)
    ensures WordOk(Signed(sign, d, shifted)[w], m)
  {
    var query := Blank(|sign|)[w := m];
    forall i | 0 <= i < |sign| ensures WordOk(sign[i], query[i]) { ZeroOk(sign[i]); }
    SignedGrows(sign, query, d, shifted);
    assert WordOk(Signed(sign, d, shifted)[w], query[w]);
  }

  lemma {:induction false} DrawKept(sign: Signature, d: Draw, d': Draw, shifted: bv16)
    requires Fits(d, |sign|) && Fits(d', |sign|) && HasDraw(sign, d, shifted)
    ensures HasDraw(Signed(sign, d', shifted), d, shifted)
  {
    match d
    case Numbers(bits) =>
      forall j | 0 <= j < |bits| ensures HasBit(Signed(sign, d', shifted), bits[j]) {
        assert HasBit(sign, bits[j]);
        WordKept(sign, bits[j] / SIGNWORDBITS, Mask(bits[j]), d', shifted);
      }
    case Negative => WordKept(sign, 0, shifted, d', shifted);
  }

  /** A tuple that has a draw still matches a query signed with it. */
  lemma {:induction false} QueryMayHaveDraw(tuple: Signature, query: Signature, d: Draw, shifted: bv16)
    requires Fits(d, |query|) && Matches(tuple, query) && HasDraw(tuple, d, shifted)
    ensures Matches(tuple, Signed(query, d, shifted))
  {
    match d
    case Numbers(bits) => WithBitsMatches(tuple, query, bits);
    case Negative => MatchesQueryWord(tuple, query, 0, shifted);
  }

  // ---------------------------------------------------------------- tuples and queries

  /** Index options, frozen on the metapage; `shifted` is what a shift by -1 yields. */
  datatype Options = Options(words: nat, bitSize: seq<nat>, shifted: bv16) {
    predicate Valid() {
      1 <= words <= MAX_WORDS && |bitSize| == MAX_COLUMNS
    }
  }

  /** A column of the tuple: NULL, or the hash of its value. */
  type Columns = seq<Option<Hash>>

  function Blank(words: nat): (s: Signature)
    ensures |s| == words && forall i :: 0 <= i < words ==> s[i] == 0
  {
    seq(words, _ => 0)
  }

  function TupleSign(o: Options, cols: Columns): (r: Signature)
    requires o.Valid() && |cols| <= MAX_COLUMNS
    ensures |r| == o.words
  {
    if cols == [] then Blank(o.words)
    else
      var n := |cols| - 1;
      var before := TupleSign(o, cols[..n]);
      if cols[n].None? then before else Signed(before, DrawOf(n, cols[n].value, o.words, o.bitSize[n]), o.shifted)
  }

  datatype ScanKey = ScanKey(attno: int, hash: Option<Hash>)

  predicate OnColumns(keys: seq<ScanKey>) {
    forall i :: 0 <= i < |keys| ==> 0 <= keys[i].attno < MAX_COLUMNS
  }

  /** None when a key is NULL: nothing can be found. */
  function QuerySign(o: Options, keys: seq<ScanKey>): (r: Option<Signature>)
    requires o.Valid() && OnColumns(keys)
    ensures r.Some? ==> |r.value| == o.words
  {
    if keys == [] then Some(Blank(o.words))
    else
      var k := keys[|keys| - 1];
      var before := QuerySign(o, keys[..|keys| - 1]);
      if before.None? || k.hash.None? then None
      else Some(Signed(before.value, DrawOf(k.attno, k.hash.value, o.words, o.bitSize[k.attno]), o.shifted))
  }

  /** Every column that is not NULL is signed for, whatever its hash. */
  lemma {:induction false} TupleHasDraw(o: Options, cols: Columns, i: nat)
    requires o.Valid() && |cols| <= MAX_COLUMNS && i < |cols| && cols[i].Some?
    ensures HasDraw(TupleSign(o, cols), DrawOf(i, cols[i].value, o.words, o.bitSize[i]), o.shifted)
  {
    var m := |cols| - 1;
    var before, d := TupleSign(o, cols[..m]), DrawOf(i, cols[i].value, o.words, o.bitSize[i]);
    if i < m {
      TupleHasDraw(o, cols[..m], i);
      if cols[m].Some? { DrawKept(before, d, DrawOf(m, cols[m].value, o.words, o.bitSize[m]), o.shifted); }
    } else {
      SignedHas(before, d, o.shifted);
    }
  }

  lemma BlankMatches(tuple: Signature)
    ensures Matches(tuple, Blank(|tuple|))
  {
    forall i | 0 <= i < |tuple| ensures WordOk(tuple[i], Blank(|tuple|)[i]) { ZeroOk(tuple[i]); }
  }

  /** No false negatives: a tuple whose columns equal all scan keys passes the signature test. */
  lemma {:induction false} EqualColumnsMatch(o: Options, cols: Columns, keys: seq<ScanKey>)
    requires o.Valid() && |cols| <= MAX_COLUMNS && OnColumns(keys)
    requires forall k :: 0 <= k < |keys| ==> keys[k].attno < |cols| && keys[k].hash.Some? && cols[keys[k].attno] == keys[k].hash
    ensures QuerySign(o, keys).Some? && Matches(TupleSign(o, cols), QuerySign(o, keys).value)
  {
    if keys == [] {
      BlankMatches(TupleSign(o, cols));
    } else {
      var k := keys[|keys| - 1];
      EqualColumnsMatch(o, cols, keys[..|keys| - 1]);
      TupleHasDraw(o, cols, k.attno);
      QueryMayHaveDraw(TupleSign(o, cols), QuerySign(o, keys[..|keys| - 1]).value,
                       DrawOf(k.attno, k.hash.value, o.words, o.bitSize[k.attno]), o.shifted);
    }
  }

  // ---------------------------------------------------------------- the code that sets the bits

  /** The generator and its one static word of state. */
  class Generator {
    var next: int

    /**
     One draw: from a proper state, 7^5 times the state modulo 2^31 - 1 is the next state,
     proper again, and the draw is one less, never negative; from 0 the draw is -1 for ever.
     */
    method Rand() returns (r: int)
      modifies this
      ensures next == NextState(old(next)) && r == next - 1
      ensures Proper(old(next)) ==> next == (MULTIPLIER * old(next)) % MODULUS && Proper(next) && 0 <= r < MODULUS - 1
      ensures old(next) == 0 ==> next == 0 && r == -1
    {
      if Proper(next) { ParkMiller(next); }
      var hi, lo := CDiv(next, QUOTIENT), CMod(next, QUOTIENT);
      var x := MULTIPLIER * lo - REMAINDER * hi;
      if x < 0 { x := x + MODULUS; }
      next := x;
      r := x - 1;
    }

    /** Any 32-bit seed leaves a proper state, except for the two that leave 0. */
    method Seed(seed: Hash)
      modifies this
      ensures next == SeedState(seed)
      ensures if seed == 0x8000_0001 || seed == 0xffff_ffff then next == 0 else Proper(next)
    {
      SeedProper(seed);
      next := if seed < 0x8000_0000 then seed else seed - 0x1_0000_0000;
      next := CMod(next, MODULUS - 1) + 1;
    }

    /**
     Add the bits of a value. What the generator's state was before makes no
     difference. A bad hash draws -1 every time and sets, in word 0, what a shift by -1 yields.
     */
    method SignValue(sign: array<bv16>, attno: int, hash: Hash, count: nat, shifted: bv16)
      requires 0 <= attno < MAX_COLUMNS && 1 <= sign.Length <= MAX_WORDS
      modifies this, sign
      ensures sign[..] == Signed(old(sign[..]), DrawOf(attno, hash, sign.Length, count), shifted)
    {
      SeedFor(attno, hash);
      ghost var words := sign.Length;
      for j := 0 to count
        invariant next == After(SeedState(ValueSeed(attno, hash)), j)
        invariant sign[..] == Signed(old(sign[..]), DrawOf(attno, hash, words, j), shifted)
      {
        var bit := DrawBit(attno, hash, sign.Length, j);
        DrawNext(attno, hash, words, j);
        SetBit(sign, bit, old(sign[..]), DrawOf(attno, hash, words, j), DrawOf(attno, hash, words, j + 1), shifted);
      }
    }

    /** Seed with the column number, and again with the hash crossed with the first draw. */
    method SeedFor(attno: int, hash: Hash)
      requires 0 <= attno < MAX_COLUMNS
      modifies this
      ensures next == SeedState(ValueSeed(attno, hash))
      ensures if BadHash(attno, hash) then next == 0 else Proper(next)
    {
      FirstDraw(attno);
      Seed(attno);
      var draw := Rand();
      assert draw == ColumnDraw(attno);
      Pow2Word();
      Seed(Xor(hash, draw, 32));
      SeedOutcome(attno, hash);
    }

    /** The next bit number of a value. */
    method DrawBit(attno: int, hash: Hash, words: nat, ghost j: nat) returns (bit: int)
      requires 0 <= attno < MAX_COLUMNS && 1 <= words <= MAX_WORDS
      requires next == After(SeedState(ValueSeed(attno, hash)), j)
      modifies this
      ensures next == After(SeedState(ValueSeed(attno, hash)), j + 1) && bit == BitAt(attno, hash, words, j)
      ensures if BadHash(attno, hash) then bit == -1 else 0 <= bit < words * SIGNWORDBITS
    {
      BitInSignature(attno, hash, words, j);
      var r := Rand();
      bit := CMod(r, words * SIGNWORDBITS);
    }

    /** Set one bit; C finds bit -1 in word 0. */
    method SetBit(sign: array<bv16>, bit: int, ghost start: Signature, ghost d: Draw, ghost d': Draw, shifted: bv16)
      requires |start| == sign.Length && Fits(d, |start|) && Fits(d', |start|) && Extends(d, d', bit)
      requires sign[..] == Signed(start, d, shifted)
      modifies sign
      ensures sign[..] == Signed(start, d', shifted)
    {
      if bit < 0 {
        NothingSigned(start, shifted);
        NegativeAgain(start, shifted);
        JoinWord(sign, 0, shifted);
      } else {
        NumberSigned(start, d.bits, bit, shifted);
        JoinWord(sign, bit / SIGNWORDBITS, Mask(bit));
      }
    }

    method JoinWord(sign: array<bv16>, w: nat, m: bv16)
      requires w < sign.Length
      modifies sign
      ensures sign[..] == old(sign[..])[w := Or(old(sign[w]), m)]
    {
      sign[w] := Or(sign[w], m);
    }
  }

  /** d' is d after one more draw. */
  predicate Extends(d: Draw, d': Draw, bit: int) {
    if bit < 0 then d' == Negative && (d == Negative || d == Numbers([]))
    else d.Numbers? && d' == Numbers(d.bits + [bit])
  }

  lemma {:induction false} DrawNext(attno: int, hash: Hash, words: nat, j: nat)
    requires 0 <= attno < MAX_COLUMNS && 1 <= words <= MAX_WORDS
    ensures Extends(DrawOf(attno, hash, words, j), DrawOf(attno, hash, words, j + 1), BitAt(attno, hash, words, j))
  {
    BitInSignature(attno, hash, words, j);
    if !BadHash(attno, hash) { assert Bits(attno, hash, words, 0) == []; }
  }

  /** Joining something to one place again changes nothing. */
  lemma JoinAgain<T>(s: seq<T>, w: nat, m: T, join: (T, T) -> T)
    requires w < |s| && join(join(s[w], m), m) == join(s[w], m)
    ensures var r := s[w := join(s[w], m)]; r[w := join(r[w], m)] == r
  {
  }

  function Or(x: bv16, m: bv16): bv16 {
    x | m
  }

  lemma OrTwice(x: bv16, m: bv16)
    ensures Or(Or(x, m), m) == Or(x, m)
  {
  }

  lemma NegativeAgain(sign: Signature, shifted: bv16)
    requires |sign| >= 1
    ensures var s := Signed(sign, Negative, shifted); s[0 := Or(s[0], shifted)] == s
  {
    OrTwice(sign[0], shifted);
    JoinAgain(sign, 0, shifted, Or);
  }

  lemma NothingSigned(sign: Signature, shifted: bv16)
    requires |sign| >= 1
    ensures Signed(sign, Numbers([]), shifted) == sign
  {
  }

  lemma NumberSigned(sign: Signature, bits: seq<nat>, bit: nat, shifted: bv16)
    requires |sign| >= 1 && Inside(bits + [bit], |sign|)
    ensures Inside(bits, |sign|) && bit / SIGNWORDBITS < |sign|
    ensures Signed(sign, Numbers(bits + [bit]), shifted) == WithBit(Signed(sign, Numbers(bits), shifted), bit)
  {
    var more := bits + [bit];
    assert more[|bits|] == bit && more[..|bits|] == bits;
    forall j | 0 <= j < |bits| ensures bits[j] / SIGNWORDBITS < |sign| { assert more[j] == bits[j]; }
  }
}
