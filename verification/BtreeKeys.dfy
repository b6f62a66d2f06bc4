/**
 Index tuples whose trailing attributes may have been cut off. A missing attribute
 stands for minus infinity, and the heap pointer is the last attribute of all.
 */
module BtreeKeys {
  import opened Wrappers

  datatype Tuple = Tuple(atts: seq<int>, tid: Option<int>) {
    /** Only a tuple with all n key attributes may carry a heap pointer. */
    predicate Valid(n: nat) {
      |atts| <= n && (tid.Some? ==> |atts| == n)
    }

    function Flat(): seq<int> {
      if tid.Some? then atts + [tid.value] else atts
    }
  }

  /** Attribute by attribute; of two that agree as far as the shorter goes, the shorter is less. */
  predicate Less(a: seq<int>, b: seq<int>) {
    b != [] && (a == [] || a[0] < b[0] || (a[0] == b[0] && Less(a[1..], b[1..])))
  }

  lemma {:induction false} LessTransitive(a: seq<int>, b: seq<int>, c: seq<int>)
    requires Less(a, b) && Less(b, c)
    ensures Less(a, c)
  {
    if a != [] && a[0] == b[0] == c[0] { LessTransitive(a[1..], b[1..], c[1..]); }
  }

  lemma {:induction false} LessTotal(a: seq<int>, b: seq<int>)
    ensures Less(a, b) || a == b || Less(b, a)
  {
    if a != [] && b != [] && a[0] == b[0] { LessTotal(a[1..], b[1..]); }
  }

  /** Order of tuples that agree up to a position is decided from there on. */
  lemma {:induction false} LessFrom(a: seq<int>, b: seq<int>, i: nat)
    requires i <= |a| && i <= |b| && a[..i] == b[..i]
    ensures Less(a, b) <==> Less(a[i..], b[i..])
  {
    if i == 0 {
      assert a[0..] == a && b[0..] == b;
    } else {
      assert a[0] == a[..i][0] == b[..i][0] == b[0];
      assert a[1..][..i - 1] == a[..i][1..] && b[1..][..i - 1] == b[..i][1..];
      LessFrom(a[1..], b[1..], i - 1);
      assert a[1..][i - 1..] == a[i..] && b[1..][i - 1..] == b[i..];
    }
  }

  /** Tuples that differ at a position, and agree before it. */
  lemma {:induction false} LessAt(a: Tuple, b: Tuple, i: nat)
    requires i < |a.atts| && i < |b.atts| && a.atts[..i] == b.atts[..i] && a.atts[i] != b.atts[i]
    ensures Less(a.Flat(), b.Flat()) <==> a.atts[i] < b.atts[i]
    ensures !(a.Flat() <= b.Flat())
  {
    var f, g := a.Flat(), b.Flat();
    assert f[..i] == a.atts[..i] && g[..i] == b.atts[..i];
    LessFrom(f, g, i);
    assert f[i] == a.atts[i] && g[i] == b.atts[i];
  }

  /** One tuple's attributes end first. */
  lemma {:induction false} LessCut(a: seq<int>, b: seq<int>)
    requires a <= b
    ensures Less(a, b) <==> a != b
    ensures !Less(b, a)
  {
    LessFrom(a, b, |a|);
    LessFrom(b, a, |a|);
    if |a| == |b| { assert a == b; }
  }

  /** Both have all attributes and a heap pointer. */
  lemma {:induction false} LessByTid(a: Tuple, b: Tuple)
    requires a.atts == b.atts && a.tid.Some? && b.tid.Some?
    ensures Less(a.Flat(), b.Flat()) <==> a.tid.value < b.tid.value
    ensures a.Flat() <= b.Flat() <==> a.tid == b.tid
  {
    LessFrom(a.Flat(), b.Flat(), |a.atts|);
    assert a.Flat()[|a.atts|] == a.tid.value && b.Flat()[|a.atts|] == b.tid.value;
  }

  /** What the comparison of a scan key with a tuple on the page returns: zero also when the key merely ends first. */
  ghost predicate Compares(key: Tuple, tup: Tuple, r: int) {
    && (r > 0 <==> Less(tup.Flat(), key.Flat()))
    && (r == 0 <==> key.Flat() <= tup.Flat())
    && (r < 0 <==> Less(key.Flat(), tup.Flat()) && !(key.Flat() <= tup.Flat()))
  }

  method Compare(key: Tuple, tup: Tuple, ghost n: nat) returns (r: int)
    requires key.Valid(n) && tup.Valid(n)
    ensures Compares(key, tup, r)
  {
    var i := 0;
    while i < |tup.atts| && i < |key.atts|
      invariant 0 <= i <= |tup.atts| && i <= |key.atts| && key.atts[..i] == tup.atts[..i]
    {
      if key.atts[i] != tup.atts[i] {
        LessAt(key, tup, i);
        LessAt(tup, key, i);
        return if key.atts[i] < tup.atts[i] then -1 else 1;
      }
      i := i + 1;
    }
    r := CompareRest(key, tup, n);
  }

  /** The part after the attributes both have. */
  method CompareRest(key: Tuple, tup: Tuple, ghost n: nat) returns (r: int)
    requires key.Valid(n) && tup.Valid(n) && (key.atts <= tup.atts || tup.atts <= key.atts)
    ensures Compares(key, tup, r)
  {
    if |key.atts| > |tup.atts| {
      LessCut(tup.Flat(), key.Flat());
      return 1;
    }
    match key.tid
    case None =>
      LessCut(key.Flat(), tup.Flat());
      return 0;
    case Some(scantid) =>
      assert key.atts == tup.atts;
      match tup.tid
      case None =>
        LessCut(tup.Flat(), key.Flat());
        return 1;
      case Some(heaptid) =>
        LessByTid(key, tup);
        LessByTid(tup, key);
        return scantid - heaptid;
  }

  /** The strict test completes the comparison where the key ends first. */
  method InvariantL(key: Tuple, upper: Tuple, ghost n: nat) returns (r: bool)
    requires key.Valid(n) && upper.Valid(n)
    ensures r <==> Less(key.Flat(), upper.Flat())
  {
    var cmp := Compare(key, upper, n);
    if cmp == 0 {
      LessCut(key.Flat(), upper.Flat());
      if |key.atts| == |upper.atts| { return key.tid.None? && upper.tid.Some?; }
      return |key.atts| < |upper.atts|;
    }
    return cmp < 0;
  }

  method InvariantLeq(key: Tuple, upper: Tuple, ghost n: nat) returns (r: bool)
    requires key.Valid(n) && upper.Valid(n)
    ensures r <==> Less(key.Flat(), upper.Flat()) || key.Flat() == upper.Flat()
  {
    var cmp := Compare(key, upper, n);
    LessTotal(key.Flat(), upper.Flat());
    if key.Flat() <= upper.Flat() { LessCut(key.Flat(), upper.Flat()); }
    return cmp <= 0;
  }

  method InvariantG(key: Tuple, lower: Tuple, ghost n: nat) returns (r: bool)
    requires key.Valid(n) && lower.Valid(n)
    ensures r <==> Less(lower.Flat(), key.Flat())
  {
    var cmp := Compare(key, lower, n);
    return cmp > 0;
  }
}
