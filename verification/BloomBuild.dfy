/** Building an index: what the build leaves on disk is a state every run may start from. */
module BloomBuild {
  import BloomPage
  import opened BloomProofs
  import opened BloomProtocol
  import opened Wrappers

  /** Tuples of different heap rows, told apart by their ids. */
  ghost predicate Apart(tuples: seq<Tuple>) {
    forall i, j :: 0 <= i < j < |tuples| ==> tuples[i].id != tuples[j].id
  }

  ghost predicate OnPage(pages: seq<seq<Tuple>>, b: nat, t: Tuple) {
    b < |pages| && t in pages[b]
  }

  lemma {:induction false} OnSomePage(pages: seq<seq<Tuple>>, t: Tuple)
    ensures t in BloomPage.Concat(pages) <==> exists b: nat :: OnPage(pages, b, t)
  {
    if pages != [] {
      var n := |pages| - 1;
      OnSomePage(pages[..n], t);
      if b: nat :| OnPage(pages[..n], b, t) { assert OnPage(pages, b, t); }
      if t in pages[n] { assert OnPage(pages, n, t); }
      if b: nat :| OnPage(pages, b, t) { assert b == n || OnPage(pages[..n], b, t); }
    }
  }

  lemma ApartParts(a: seq<Tuple>, b: seq<Tuple>)
    requires Apart(a + b)
    ensures Apart(a) && Apart(b) && forall t :: t in a ==> t !in b
  {
    var s := a + b;
    forall i, j | 0 <= i < j < |a| ensures a[i].id != a[j].id { assert s[i].id != s[j].id; }
    forall i, j | 0 <= i < j < |b| ensures b[i].id != b[j].id { assert s[|a| + i].id != s[|a| + j].id; }
    forall t | t in a ensures t !in b {
      var i :| 0 <= i < |a| && a[i] == t;
      forall j | 0 <= j < |b| ensures b[j] != t { assert s[i].id != s[|a| + j].id; }
    }
  }

  /** Tuples apart are on one page each. */
  lemma {:induction false} PagesApart(pages: seq<seq<Tuple>>, b: nat)
    requires Apart(BloomPage.Concat(pages)) && b < |pages|
    ensures Apart(pages[b]) && forall c: nat, t :: OnPage(pages, b, t) && OnPage(pages, c, t) ==> b == c
  {
    var n := |pages| - 1;
    var front := BloomPage.Concat(pages[..n]);
    ApartParts(front, pages[n]);
    if b < n { PagesApart(pages[..n], b); }
    forall c: nat, t | OnPage(pages, b, t) && OnPage(pages, c, t) ensures b == c {
      OnSomePage(pages[..n], t);
      assert b < n ==> OnPage(pages[..n], b, t);
      assert c < n ==> OnPage(pages[..n], c, t);
    }
  }

  /** What was put in, by id. */
  function ById(tuples: seq<Tuple>): (m: map<nat, Tuple>)
    requires Apart(tuples)
    ensures forall t :: t in tuples <==> t.id in m && m[t.id] == t
    ensures forall id :: id in m ==> m[id].id == id
  {
    map t | t in tuples :: t.id := t
  }

  /** The index as the build leaves it: the metapage, then the flushed pages. */
  function Index(c: Config, tuples: seq<Tuple>, pages: seq<seq<Tuple>>): (s: State)
    requires Apart(tuples)
    ensures |s.pages| == |pages| + 1 && s.pages[0] == New
    ensures forall b :: 0 <= b < |pages| ==> s.pages[b + 1] == Data(false, pages[b])
  {
    State(Meta(0, 0, seq(c.listMax, _ => 0)), [New] + seq(|pages|, b requires 0 <= b < |pages| => Data(false, pages[b])),
          {}, map[], None, ById(tuples), {})
  }

  lemma {:induction false} HereIff(c: Config, tuples: seq<Tuple>, pages: seq<seq<Tuple>>, b: nat, t: Tuple)
    requires Apart(tuples)
    ensures Here(Index(c, tuples, pages).pages, b, t) <==> b > 0 && OnPage(pages, b - 1, t)
  {
    var s := Index(c, tuples, pages);
    if 0 < b < |s.pages| { assert s.pages[(b - 1) + 1] == Data(false, pages[b - 1]); }
  }

  lemma {:induction false} IndexHolds(c: Config, tuples: seq<Tuple>, pages: seq<seq<Tuple>>, t: Tuple)
    requires Apart(tuples) && BloomPage.Concat(pages) == tuples
    ensures Somewhere(Index(c, tuples, pages).pages, t) <==> t in tuples
  {
    var s := Index(c, tuples, pages);
    OnSomePage(pages, t);
    if b: nat :| Here(s.pages, b, t) { HereIff(c, tuples, pages, b, t); }
    if b: nat :| OnPage(pages, b, t) { HereIff(c, tuples, pages, b + 1, t); assert Here(s.pages, b + 1, t); }
  }

  /** Pages that hold the tuples in order, none over capacity, are an index every run may start from. */
  lemma {:induction false} IndexBuilt(c: Config, tuples: seq<Tuple>, pages: seq<seq<Tuple>>)
    requires c.Valid() && Apart(tuples) && BloomPage.Concat(pages) == tuples
    requires forall b :: 0 <= b < |pages| ==> |pages[b]| <= c.Capacity()
    ensures Built(c, Index(c, tuples, pages))
  {
    IndexPages(c, tuples, pages);
    IndexContent(c, tuples, pages);
  }

  lemma PageIs(c: Config, tuples: seq<Tuple>, pages: seq<seq<Tuple>>, b: nat)
    requires Apart(tuples) && 0 < b <= |pages|
    ensures Index(c, tuples, pages).pages[b] == Data(false, pages[b - 1])
  {
    assert Index(c, tuples, pages).pages[(b - 1) + 1] == Data(false, pages[b - 1]);
  }

  lemma {:induction false} IndexPages(c: Config, tuples: seq<Tuple>, pages: seq<seq<Tuple>>)
    requires c.Valid() && Apart(tuples) && forall b :: 0 <= b < |pages| ==> |pages[b]| <= c.Capacity()
    ensures PagesInv(c, Index(c, tuples, pages))
  {
    var s := Index(c, tuples, pages);
    forall b | 0 <= b < |s.pages| && s.pages[b].Data?
      ensures |s.pages[b].tuples| <= c.Capacity() && !s.pages[b].deleted
    {
      if b > 0 { PageIs(c, tuples, pages, b); }
    }
  }

  lemma {:induction false} OneBlock(c: Config, tuples: seq<Tuple>, pages: seq<seq<Tuple>>, b: nat, d: nat, t: Tuple)
    requires Apart(tuples) && BloomPage.Concat(pages) == tuples
    requires Here(Index(c, tuples, pages).pages, b, t) && Here(Index(c, tuples, pages).pages, d, t)
    ensures b == d
  {
    HereIff(c, tuples, pages, b, t);
    HereIff(c, tuples, pages, d, t);
    OnePage(pages, b - 1, d - 1, t);
  }

  lemma OnePage(pages: seq<seq<Tuple>>, b: nat, d: nat, t: Tuple)
    requires Apart(BloomPage.Concat(pages)) && OnPage(pages, b, t) && OnPage(pages, d, t)
    ensures b == d
  {
    PagesApart(pages, b);
  }

  lemma {:induction false} OnceEach(c: Config, tuples: seq<Tuple>, pages: seq<seq<Tuple>>, b: nat)
    requires Apart(tuples) && BloomPage.Concat(pages) == tuples && b <= |pages|
    ensures NoRepeats(Tuples(Index(c, tuples, pages).pages[b]))
  {
    if b > 0 {
      PageIs(c, tuples, pages, b);
      PagesApart(pages, b - 1);
      ApartNoRepeats(pages[b - 1]);
    }
  }

  lemma ApartNoRepeats(tuples: seq<Tuple>)
    requires Apart(tuples)
    ensures NoRepeats(tuples)
  {
  }

  /** Nothing removed, and on the pages what was put in. */
  lemma ContentFrom(s: State, tuples: seq<Tuple>)
    requires s.removed == {} && (forall id :: id in s.inserted ==> s.inserted[id].id == id)
    requires forall t :: t in tuples <==> t.id in s.inserted && s.inserted[t.id] == t
    requires forall t :: Somewhere(s.pages, t) <==> t in tuples
    requires forall b: nat, d: nat, t :: Here(s.pages, b, t) && Here(s.pages, d, t) ==> b == d
    requires forall b :: 0 <= b < |s.pages| ==> NoRepeats(Tuples(s.pages[b]))
    ensures ContentInv(s)
  {
    forall b: nat, t | Here(s.pages, b, t) ensures t in tuples { assert Somewhere(s.pages, t); }
    forall id | id in s.inserted ensures Somewhere(s.pages, s.inserted[id]) { assert s.inserted[id] in tuples; }
  }

  lemma {:induction false} IndexContent(c: Config, tuples: seq<Tuple>, pages: seq<seq<Tuple>>)
    requires Apart(tuples) && BloomPage.Concat(pages) == tuples
    ensures ContentInv(Index(c, tuples, pages))
  {
    var s := Index(c, tuples, pages);
    forall t ensures Somewhere(s.pages, t) <==> t in tuples { IndexHolds(c, tuples, pages, t); }
    forall b: nat, d: nat, t | Here(s.pages, b, t) && Here(s.pages, d, t) ensures b == d { OneBlock(c, tuples, pages, b, d, t); }
    forall b | 0 <= b < |s.pages| ensures NoRepeats(Tuples(s.pages[b])) { OnceEach(c, tuples, pages, b); }
    ContentFrom(s, tuples);
  }

  /** The build: every tuple of the heap is in the index, and runs may start. */
  method BuildIndex(c: Config, tuples: seq<Tuple>) returns (s: State)
    requires c.Valid() && Apart(tuples)
    ensures Built(c, s) && forall t :: Somewhere(s.pages, t) <==> t in tuples
  {
    BloomPage.FitsBelowCapacity(c.size, 0);
    var pages := BloomPage.Build(tuples, c.Capacity());
    s := Index(c, tuples, pages);
    IndexBuilt(c, tuples, pages);
    forall t ensures Somewhere(s.pages, t) <==> t in tuples { IndexHolds(c, tuples, pages, t); }
  }
}
