/** Widening 32-bit transaction ids against the next 64-bit one, and the bounds test that relies on it. */
module HeapXid {

  const TWO31 := 0x8000_0000
  const TWO32 := 0x1_0000_0000
  const TWO64 := 0x1_0000_0000_0000_0000
  const FIRST_NORMAL := 3

  type Xid = x: nat | x < TWO32 witness 0

  predicate Normal(xid: Xid) {
    xid >= FIRST_NORMAL
  }

  /** A next id whose low half is normal, and far enough from the end of the 64-bit range. */
  predicate NextOk(next: nat) {
    next % TWO32 >= FIRST_NORMAL && next + TWO31 < TWO64
  }

  /** Signed 32-bit view of a difference. */
  function Int32(x: int): (r: int)
    ensures -TWO31 <= r < TWO31
  {
    var m := x % TWO32;
    if m >= TWO31 then m - TWO32 else m
  }

  function Behind(xid: Xid, next: nat): int {
    Int32(next % TWO32 - xid)
  }

  predicate Clamped(xid: Xid, next: nat) {
    Normal(xid) && Behind(xid, next) > 0 && next - FIRST_NORMAL < Behind(xid, next)
  }

  function Widen(xid: Xid, next: nat): nat {
    if !Normal(xid) then xid
    else if Clamped(xid, next) then FIRST_NORMAL
    else (next - Behind(xid, next)) % TWO64
  }

  /** The clamp applies in epoch zero only, and what comes out is always a normal id: both assertions of the code hold. */
  lemma WidenAsserts(xid: Xid, next: nat)
    requires NextOk(next) && Normal(xid)
    ensures Clamped(xid, next) ==> next < TWO32
    ensures Widen(xid, next) >= FIRST_NORMAL
  {
  }

  lemma BehindCongruent(xid: Xid, next: nat) returns (k: int)
    ensures next - Behind(xid, next) == xid + k * TWO32
  {
    var d := next % TWO32 - xid;
    var q := d / TWO32;
    assert next == next / TWO32 * TWO32 + next % TWO32;
    k := if d % TWO32 >= TWO31 then next / TWO32 + q + 1 else next / TWO32 + q;
    assert q * TWO32 == d - d % TWO32;
  }

  lemma LowHalf(x: Xid, k: int)
    requires x + k * TWO32 >= 0
    ensures (x + k * TWO32) % TWO32 == x
  {
  }

  /** Away from the clamp the result is the one id with these low bits within half the circle of next. */
  lemma {:induction false} WidenIsUnique(xid: Xid, next: nat, f: nat)
    requires NextOk(next) && Normal(xid) && !Clamped(xid, next)
    ensures f == Widen(xid, next) <==> f % TWO32 == xid && next - TWO31 < f <= next + TWO31
  {
    var k := BehindCongruent(xid, next);
    LowHalf(xid, k);
    var w := next - Behind(xid, next);
    assert Widen(xid, next) == w;
    if f % TWO32 == xid && next - TWO31 < f <= next + TWO31 {
      assert f == f / TWO32 * TWO32 + xid;
      SameMultiple(f / TWO32, k);
    }
  }

  lemma SameMultiple(a: int, b: int)
    ensures -TWO32 < a * TWO32 - b * TWO32 < TWO32 ==> a == b
  {
  }

  /** When clamped, the id would lie before the first normal one. */
  lemma {:induction false} ClampedIff(xid: Xid, next: nat)
    requires NextOk(next) && Normal(xid)
    ensures Clamped(xid, next) <==> !exists f: nat :: f >= FIRST_NORMAL && f % TWO32 == xid && next - TWO31 < f <= next + TWO31
  {
    if !Clamped(xid, next) {
      WidenIsUnique(xid, next, Widen(xid, next));
      WidenAsserts(xid, next);
    } else {
      forall f: nat | f >= FIRST_NORMAL && f % TWO32 == xid && next - TWO31 < f <= next + TWO31 ensures false {
        var k := BehindCongruent(xid, next);
      }
    }
  }

  /** Circular order of 32-bit ids. */
  predicate Precedes(a: Xid, b: Xid) {
    Int32(a - b) < 0
  }

  lemma Int32Of(d: int, k: int)
    requires -TWO31 <= d < TWO31
    ensures Int32(d + k * TWO32) == d
  {
    assert (d + k * TWO32) % TWO32 == d % TWO32 by { Shift(d, k); }
  }

  lemma Shift(d: int, k: int)
    ensures (d + k * TWO32) % TWO32 == d % TWO32
  {
    assert d == d / TWO32 * TWO32 + d % TWO32;
    assert d + k * TWO32 == (d / TWO32 + k) * TWO32 + d % TWO32;
  }

  lemma DifferenceOf(a: Xid, b: Xid, x: int, y: int, j: int, k: int, next: nat)
    requires next - x == a + j * TWO32 && next - y == b + k * TWO32
    ensures a - b == (y - x) + (k - j) * TWO32
  {
  }

  /** For ids behind next and away from the clamp, 64-bit order is circular order. */
  lemma {:induction false} WidenMonotone(a: Xid, b: Xid, next: nat)
    requires NextOk(next) && Normal(a) && Normal(b) && !Clamped(a, next) && !Clamped(b, next)
    requires Behind(a, next) >= 0 && Behind(b, next) >= 0
    ensures Precedes(a, b) <==> Widen(a, next) < Widen(b, next)
  {
    var x, y := Behind(a, next), Behind(b, next);
    var j := BehindCongruent(a, next);
    var k := BehindCongruent(b, next);
    DifferenceOf(a, b, x, y, j, k, next);
    Int32Of(y - x, k - j);
    WidenIs(a, next);
    WidenIs(b, next);
  }

  lemma WidenIs(xid: Xid, next: nat)
    requires NextOk(next) && Normal(xid) && !Clamped(xid, next)
    ensures Widen(xid, next) == next - Behind(xid, next)
  {
  }

  // ---------------------------------------------------------------- the bounds test

  datatype Bounds = Invalid | InFuture | PrecedesClusterMin | PrecedesRelMin | BoundsOk

  /** The cached range of valid ids. */
  class Context {
    var nextFxid: nat
    var oldestFxid: nat
    var relFrozenFxid: nat

    constructor (next: nat, oldest: Xid, relFrozen: Xid)
      ensures nextFxid == next && oldestFxid == Widen(oldest, next) && relFrozenFxid == Widen(relFrozen, next)
    {
      nextFxid, oldestFxid, relFrozenFxid := next, Widen(oldest, next), Widen(relFrozen, next);
    }

    predicate InCachedRange(fxid: nat)
      reads this
    {
      oldestFxid <= fxid < nextFxid
    }

    method UpdateCachedRange(next: nat, oldest: Xid)
      modifies this
      ensures nextFxid == next && oldestFxid == Widen(oldest, next) && relFrozenFxid == old(relFrozenFxid)
    {
      nextFxid, oldestFxid := next, Widen(oldest, next);
    }

    /**
     The bounds test, given what shared memory says now. The cache is renewed only when it refuses
     the id, and the verdict is about the range the test ends up with.
     */
    method GetXidStatus(xid: Xid, next: nat, oldest: Xid) returns (r: Bounds)
      modifies this
      ensures relFrozenFxid == old(relFrozenFxid)
      ensures if Normal(xid) && !old(InCachedRange(Widen(xid, nextFxid)))
              then nextFxid == next && oldestFxid == Widen(oldest, next)
              else nextFxid == old(nextFxid) && oldestFxid == old(oldestFxid)
      ensures r == Invalid <==> xid == 0
      ensures r == BoundsOk <==>
              (xid == 1 || xid == 2 || (Normal(xid) && Later(oldestFxid, relFrozenFxid) <= Widen(xid, nextFxid) < nextFxid))
      ensures r == InFuture <==> Normal(xid) && nextFxid <= Widen(xid, nextFxid)
    {
      if xid == 0 { return Invalid; }
      if xid == 1 || xid == 2 { return BoundsOk; }
      var fxid := Widen(xid, nextFxid);
      if !InCachedRange(fxid) {
        UpdateCachedRange(next, oldest);
        fxid := Widen(xid, nextFxid);
      }
      if nextFxid <= fxid { return InFuture; }
      if fxid < oldestFxid { return PrecedesClusterMin; }
      if fxid < relFrozenFxid { return PrecedesRelMin; }
      return BoundsOk;
    }
  }

  function Later(a: nat, b: nat): nat {
    if a < b then b else a
  }
}
