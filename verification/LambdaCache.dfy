/**
 The runtime cache of built lambda bodies, one per call site: a hash table, a list
 in order of last use, and a shortcut to the previous row's entry.
 */
module LambdaCache {
  import opened Lambda
  import opened Wrappers

  /** A call argument: an atomic value, or the raw bytes of a lambda-typed one (None is NULL). */
  datatype Argument<Raw> = Atomic(value: Value) | Stored(raw: Option<Raw>)

  /** The mother's bytes, then those of every lambda-typed argument. */
  datatype Key<Raw> = Key(mother: Raw, parts: seq<Option<Raw>>)

  function LambdaParts<Raw>(args: seq<Argument<Raw>>): seq<Option<Raw>> {
    if args == [] then []
    else if args[0].Stored? then [args[0].raw] + LambdaParts(args[1..])
    else LambdaParts(args[1..])
  }

  function KeyOf<Raw>(mother: Raw, args: seq<Argument<Raw>>): Key<Raw> {
    Key(mother, LambdaParts(args))
  }

  /** Which argument positions of the call site are lambda-typed; fixed when the call is compiled. */
  function Shape<Raw>(args: seq<Argument<Raw>>): (r: seq<bool>)
    ensures |r| == |args|
    ensures forall i :: 0 <= i < |args| ==> r[i] == args[i].Stored?
  {
    seq(|args|, i requires 0 <= i < |args| => args[i].Stored?)
  }

  function Decoded<Raw>(decode: Raw -> LambdaValue, a: Argument<Raw>): Value {
    match a
    case Atomic(v) => v
    case Stored(None) => Null
    case Stored(Some(raw)) => Fn(decode(raw))
  }

  function Frame<Raw>(decode: Raw -> LambdaValue, args: seq<Argument<Raw>>): (vs: seq<Value>)
    ensures |vs| == |args|
    ensures forall i :: 0 <= i < |args| ==> vs[i] == Decoded(decode, args[i])
  {
    seq(|args|, i requires 0 <= i < |args| => Decoded(decode, args[i]))
  }

  /** Deserialize, check the arity, flatten and fold a higher-order mother; every embedded argument must be lambda-typed. */
  function Build<Raw>(decode: Raw -> LambdaValue, hoist: bool, stack: nat, mother: Raw, args: seq<Argument<Raw>>): Result<Expr> {
    var l := decode(mother);
    if l.arity > |args| then Err(WrongArity)
    else if !(hoist && HasCall(l.body)) then Ok(l.body)
    else if exists i :: 0 <= i < |args| && IsFunctionInput(l.body, i) && !args[i].Stored? then Err(NotAFunction)
    else
      var flat :- Flatten(stack, l, Frame(decode, args));
      Fold(flat)
  }

  lemma {:induction false} PartsDetermineArguments<Raw>(a: seq<Argument<Raw>>, b: seq<Argument<Raw>>, i: nat)
    requires Shape(a) == Shape(b) && LambdaParts(a) == LambdaParts(b)
    requires i < |a| && a[i].Stored?
    ensures i < |b| && b[i] == a[i]
  {
    assert |a| == |Shape(a)| == |Shape(b)| == |b|;
    assert a[0].Stored? == Shape(a)[0] == Shape(b)[0] == b[0].Stored?;
    if a[0].Stored? {
      assert LambdaParts(a)[0] == a[0].raw && LambdaParts(b)[0] == b[0].raw;
      assert LambdaParts(a)[1..] == LambdaParts(a[1..]) && LambdaParts(b)[1..] == LambdaParts(b[1..]);
    }
    if i > 0 {
      assert Shape(a[1..]) == Shape(a)[1..] == Shape(b)[1..] == Shape(b[1..]);
      PartsDetermineArguments(a[1..], b[1..], i - 1);
    } else {
      assert Shape(a)[i] == Shape(b)[i];
    }
  }

  /** The key is enough: rows with one key get one body, whatever their atomic arguments. */
  lemma {:induction false} KeyDeterminesBody<Raw>(decode: Raw -> LambdaValue, hoist: bool, stack: nat, mother: Raw,
                                                  a: seq<Argument<Raw>>, b: seq<Argument<Raw>>)
    requires Shape(a) == Shape(b) && KeyOf(mother, a) == KeyOf(mother, b)
    ensures Build(decode, hoist, stack, mother, a) == Build(decode, hoist, stack, mother, b)
  {
    var l := decode(mother);
    assert |a| == |Shape(a)| == |Shape(b)| == |b|;
    assert forall i :: 0 <= i < |a| ==> a[i].Stored? == Shape(a)[i] == Shape(b)[i] == b[i].Stored?;
    if forall i :: 0 <= i < |a| && IsFunctionInput(l.body, i) ==> a[i].Stored? {
      forall i | 0 <= i < |a| && IsFunctionInput(l.body, i) ensures a[i] == b[i] {
        PartsDetermineArguments(a, b, i);
      }
      var va, vb := Frame(decode, a), Frame(decode, b);
      assert FlattenBinding(l.body, va) == FlattenBinding(l.body, vb);
      assert forall i :: 0 <= i < |a| && IsFunctionInput(l.body, i) ==> va[i] == vb[i];
    }
  }

  // ---------------------------------------------------------------- the list in order of use

  function Without<T(==,!new)>(s: seq<T>, x: T): (r: seq<T>)
    ensures x !in r && forall y :: y in r <==> y in s && y != x
    ensures |r| <= |s|
  {
    if s == [] then [] else if s[0] == x then Without(s[1..], x) else [s[0]] + Without(s[1..], x)
  }

  /** Least recently used first out: the list after one request at a given capacity. */
  function Requested<T(==,!new)>(lru: seq<T>, k: T, size: int): seq<T> {
    if k in lru then [k] + Without(lru, k)
    else [k] + (if |lru| >= size then lru[..if size < 1 then 0 else size - 1] else lru)
  }

  ghost predicate Distinct<T>(s: seq<T>) {
    forall i, j :: 0 <= i < j < |s| ==> s[i] != s[j]
  }

  lemma {:induction false} WithoutDistinct<T(!new)>(s: seq<T>, x: T)
    requires Distinct(s)
    ensures Distinct(Without(s, x)) && (x in s ==> |Without(s, x)| == |s| - 1) && (x !in s ==> Without(s, x) == s)
  {
    if s != [] {
      assert Distinct(s[1..]);
      WithoutDistinct(s[1..], x);
      if s[0] == x {
        assert x !in s[1..];
      } else {
        assert s[0] !in s[1..];
      }
    }
  }

  lemma {:induction false} RequestedDistinct<T(!new)>(lru: seq<T>, k: T, size: int)
    requires Distinct(lru)
    ensures Distinct(Requested(lru, k, size)) && Requested(lru, k, size)[0] == k
  {
    WithoutDistinct(lru, k);
  }

  function Requests<T(==,!new)>(reqs: seq<T>, size: int): seq<T> {
    if reqs == [] then [] else Requested(Requests(reqs[..|reqs| - 1], size), reqs[|reqs| - 1], size)
  }

  lemma {:induction false} WithoutPrefix<T(!new)>(s: seq<T>, t: seq<T>, x: T)
    requires s <= t
    ensures Without(s, x) <= Without(t, x)
  {
    if s != [] {
      assert s[1..] <= t[1..];
      WithoutPrefix(s[1..], t[1..], x);
    }
  }

  lemma {:induction false} RequestsShape<T(!new)>(reqs: seq<T>, size: int)
    requires size >= 1
    ensures Distinct(Requests(reqs, size)) && |Requests(reqs, size)| <= size
  {
    if reqs != [] {
      var before := Requests(reqs[..|reqs| - 1], size);
      RequestsShape(reqs[..|reqs| - 1], size);
      RequestedDistinct(before, reqs[|reqs| - 1], size);
      WithoutDistinct(before, reqs[|reqs| - 1]);
    }
  }

  /** The last of a list without repeats is not among the others. */
  lemma LastApart<T(!new)>(s: seq<T>, rest: seq<T>, last: T)
    requires s != [] && Distinct(s) && rest == s[..|s| - 1] && last == s[|s| - 1]
    ensures Distinct(rest) && last !in rest && forall k :: k in s <==> k in rest || k == last
  {
    assert s == rest + [last];
  }

  /** A larger cache holds everything a smaller one holds, in the same order of use. */
  lemma {:induction false} LargerCacheHoldsMore<T(!new)>(reqs: seq<T>, size: int)
    requires size >= 1
    ensures Requests(reqs, size) <= Requests(reqs, size + 1)
    ensures |Requests(reqs, size)| == if |Requests(reqs, size + 1)| <= size then |Requests(reqs, size + 1)| else size
  {
    RequestsShape(reqs, size);
    RequestsShape(reqs, size + 1);
    if reqs != [] {
      var prior, k := reqs[..|reqs| - 1], reqs[|reqs| - 1];
      var s, t := Requests(prior, size), Requests(prior, size + 1);
      LargerCacheHoldsMore(prior, size);
      RequestsShape(prior, size);
      RequestsShape(prior, size + 1);
      WithoutDistinct(s, k);
      WithoutDistinct(t, k);
      WithoutPrefix(s, t, k);
    }
  }

  // ---------------------------------------------------------------- the cache

  /** A built body: the tree, whether it has been compiled, whether that is settled, how often it was asked for. */
  datatype Entry = Entry(tree: Expr, compiled: bool, jitDone: bool, uses: nat)

  /** The entry after one more use. A call site that keeps evicting stops compiling. */
  function Used(e: Entry, size: int, jitAfter: int, jitOn: bool, evictions: nat): (r: Entry)
    ensures r.tree == e.tree && r.uses == e.uses + 1
  {
    var e' := e.(uses := e.uses + 1);
    if !e'.jitDone && jitAfter > 0 && e'.uses >= jitAfter then
      e'.(jitDone := true, compiled := e'.compiled || (jitOn && evictions <= size))
    else e'
  }

  class Cache<Raw(==, !new)> {
    const decode: Raw -> LambdaValue
    const hoist: bool
    const stack: nat
    const shape: seq<bool>

    var table: map<Key<Raw>, Entry>
    var lru: seq<Key<Raw>>
    var nentries: nat
    var evictions: nat
    var last: Option<Key<Raw>>

    /** tree is the body a fresh build gives for every row with this key. */
    ghost predicate BuiltFor(k: Key<Raw>, tree: Expr) {
      forall args :: Shape(args) == shape && KeyOf(k.mother, args) == k ==>
        Build(decode, hoist, stack, k.mother, args) == Ok(tree)
    }

    ghost predicate Valid()
      reads this
    {
      && Distinct(lru) && nentries == |lru|
      && (forall k :: k in lru <==> k in table)
      && (forall k :: k in table ==> BuiltFor(k, table[k].tree))
      && (last.Some? ==> lru != [] && lru[0] == last.value)
    }

    constructor (decode: Raw -> LambdaValue, hoist: bool, stack: nat, shape: seq<bool>)
      ensures Valid() && lru == [] && evictions == 0
      ensures this.decode == decode && this.hoist == hoist && this.stack == stack && this.shape == shape
    {
      this.decode, this.hoist, this.stack, this.shape := decode, hoist, stack, shape;
      table, lru, nentries, evictions, last := map[], [], 0, 0, None;
    }

    /** Make room for one more entry. */
    method Evict(size: int)
      requires Valid()
      modifies this
      ensures Valid()
      ensures lru == if |old(lru)| >= size then old(lru)[..if size < 1 then 0 else size - 1] else old(lru)
      ensures evictions == old(evictions) + |old(lru)| - |lru|
      ensures forall k :: k in table ==> k in old(table) && table[k] == old(table)[k]
    {
      while nentries > 0 && nentries >= size
        invariant Valid()
        invariant nentries <= |old(lru)| && lru == old(lru)[..nentries]
        invariant |old(lru)| < size ==> nentries == |old(lru)|
        invariant |old(lru)| >= size && size >= 1 ==> nentries >= size - 1
        invariant evictions == old(evictions) + |old(lru)| - nentries
        invariant forall k :: k in table ==> k in old(table) && table[k] == old(table)[k]
      {
        EvictOne();
      }
    }

    /** Drop the least recently used entry. */
    method EvictOne()
      requires Valid() && nentries > 0
      modifies this
      ensures Valid() && nentries == old(nentries) - 1 && evictions == old(evictions) + 1
      ensures lru == old(lru)[..nentries]
      ensures forall k :: k in table ==> k in old(table) && table[k] == old(table)[k]
    {
      var victim := lru[nentries - 1];
      var rest := lru[..nentries - 1];
      LastApart(lru, rest, victim);
      lru := rest;
      table := table - {victim};
      if last == Some(victim) { last := None; }
      nentries := nentries - 1;
      evictions := evictions + 1;
    }

    /** Build the body for a key that is not there, and put it in front. */
    method Insert(mother: Raw, args: seq<Argument<Raw>>, size: int, jitAfter: int, jitOn: bool) returns (r: Result<Expr>)
      requires Valid() && Shape(args) == shape && KeyOf(mother, args) !in table
      modifies this
      ensures Valid()
      ensures r == Build(decode, hoist, stack, mother, args)
      ensures var kept := if |old(lru)| >= size then old(lru)[..if size < 1 then 0 else size - 1] else old(lru);
              lru == if r.Ok? then [KeyOf(mother, args)] + kept else kept
      ensures forall k :: k in table && k != KeyOf(mother, args) ==> k in old(table) && table[k] == old(table)[k]
      ensures r.Ok? ==> KeyOf(mother, args) in table && table[KeyOf(mother, args)].uses == 0
    {
      var k := KeyOf(mother, args);
      Evict(size);
      r := Build(decode, hoist, stack, mother, args);
      if r.Err? { return; }
      forall args' | Shape(args') == shape && KeyOf(mother, args') == k
        ensures Build(decode, hoist, stack, mother, args') == r
      {
        KeyDeterminesBody(decode, hoist, stack, mother, args, args');
      }
      assert BuiltFor(k, r.value);
      table := table[k := Entry(r.value, jitAfter == 0 && jitOn, jitAfter == 0, 0)];
      lru := [k] + lru;
      nentries := nentries + 1;
      last := Some(k);
    }

    /** Move a key that is there to the front. */
    method Touch(k: Key<Raw>)
      requires Valid() && k in table
      modifies this
      ensures Valid() && lru == [k] + Without(old(lru), k) && table == old(table) && evictions == old(evictions)
    {
      WithoutDistinct(lru, k);
      if last != Some(k) {
        lru := [k] + Without(lru, k);
        last := Some(k);
      } else {
        assert lru == [k] + lru[1..];
        assert Without(lru, k) == Without(lru[1..], k) == lru[1..] by { WithoutDistinct(lru[1..], k); }
      }
    }

    /**
     The body for this row's combination of lambdas. It is the body a fresh build
     would give, the entries are those of a least-recently-used cache, and no other
     entry is touched. A build error leaves the cache usable.
     */
    method BodyOf(mother: Raw, args: seq<Argument<Raw>>, size: int, jitAfter: int, jitOn: bool) returns (r: Result<Expr>)
      requires Valid() && Shape(args) == shape
      modifies this
      ensures Valid()
      ensures r == Build(decode, hoist, stack, mother, args)
      ensures r.Ok? ==> lru == Requested(old(lru), KeyOf(mother, args), size)
      ensures r.Err? ==> lru == Requested(old(lru), KeyOf(mother, args), size)[1..]
      ensures forall k :: k in table && k != KeyOf(mother, args) ==> k in old(table) && table[k] == old(table)[k]
      ensures r.Ok? ==> KeyOf(mother, args) in table
      ensures r.Ok? ==>
        table[KeyOf(mother, args)].uses == 1 + (if KeyOf(mother, args) in old(table) then old(table)[KeyOf(mother, args)].uses else 0)
    {
      var k := KeyOf(mother, args);
      WithoutDistinct(lru, k);
      if k in table {
        Touch(k);
      } else {
        r := Insert(mother, args, size, jitAfter, jitOn);
        if r.Err? { return; }
      }
      assert BuiltFor(k, table[k].tree);
      r := Ok(table[k].tree);
      table := table[k := Used(table[k], size, jitAfter, jitOn, evictions)];
    }
  }
}
