/**
 Bloom index pages: fixed-size tuples packed from the front, unsigned free-space
 arithmetic, and the in-place compaction that vacuum runs on a page.
 */
module BloomPage {
  import opened Arithmetic

  const BLCKSZ := 8192
  const PAGE_HEADER := 24          // MAXALIGN(SizeOfPageHeaderData)
  const PAGE_OPAQUE := 8           // MAXALIGN(sizeof(BloomPageOpaqueData))
  const TUPLE_HEADER := 6          // the heap pointer
  const SIZE_LIMIT := 0x1_0000_0000_0000_0000
  const MAX_BITS := 4096

  /** Reloption "length", in bits, to signature words. */
  function WordsForBits(bits: nat): nat {
    (bits + 15) / 16
  }

  function TupleSize(words: nat): nat {
    TUPLE_HEADER + 2 * words
  }

  /** The least number of words that holds the bits, and the tuple sizes that follow. */
  lemma WordsCoverBits(bits: nat)
    requires 1 <= bits <= MAX_BITS
    ensures bits <= 16 * WordsForBits(bits) < bits + 16
    ensures 8 <= TupleSize(WordsForBits(bits)) <= 518
  {
  }

  /** Free space as C computes it: in size_t, which wraps. */
  function FreeSpace(size: nat, maxoff: nat): nat {
    (BLCKSZ - PAGE_HEADER - maxoff * size - PAGE_OPAQUE) % SIZE_LIMIT
  }

  /** How many tuples of this size a page has room for. */
  function Capacity(size: nat): nat
    requires size > 0
  {
    (BLCKSZ - PAGE_HEADER - PAGE_OPAQUE) / size
  }

  /** On a page within capacity the unsigned subtraction does not wrap, and a tuple fits exactly below capacity. */
  lemma {:induction false} FitsBelowCapacity(size: nat, maxoff: nat)
    requires 8 <= size <= 518 && maxoff <= Capacity(size)
    ensures FreeSpace(size, maxoff) == BLCKSZ - PAGE_HEADER - PAGE_OPAQUE - maxoff * size
    ensures FreeSpace(size, maxoff) >= size <==> maxoff < Capacity(size)
    ensures Capacity(size) >= 15
  {
    var room := BLCKSZ - PAGE_HEADER - PAGE_OPAQUE;
    Division(room, size);
    ProductMonotone(maxoff, Capacity(size), size);
    if maxoff < Capacity(size) {
      ProductMonotone(maxoff + 1, Capacity(size), size);
      assert (maxoff + 1) * size == maxoff * size + size;
    }
    DivideMonotone(15 * size, room, size);
    IndexParts(15, 0, size);
  }

  // ---------------------------------------------------------------- tuples that stay

  /** What is left of a page after the dead tuples are taken out, in order. */
  function Survivors<T>(s: seq<T>, dead: T -> bool): (r: seq<T>)
    ensures |r| <= |s|
  {
    if s == [] then []
    else Survivors(s[..|s| - 1], dead) + (if dead(s[|s| - 1]) then [] else [s[|s| - 1]])
  }

  lemma SurvivorsNext<T>(s: seq<T>, i: nat, dead: T -> bool)
    requires i < |s|
    ensures Survivors(s[..i + 1], dead) == Survivors(s[..i], dead) + (if dead(s[i]) then [] else [s[i]])
  {
    assert s[..i + 1][..i] == s[..i];
  }

  lemma CountAppend<T>(s: seq<T>, last: T, t: T)
    ensures multiset(s + [last])[t] == multiset(s)[t] + (if last == t then 1 else 0)
  {
  }

  /** Survivors are the tuples that are not dead, each as often as before. */
  lemma {:induction false} SurvivorsCount<T>(s: seq<T>, dead: T -> bool, t: T)
    ensures multiset(Survivors(s, dead))[t] == if dead(t) then 0 else multiset(s)[t]
  {
    if s != [] {
      var front, last := s[..|s| - 1], s[|s| - 1];
      SurvivorsCount(front, dead, t);
      assert s == front + [last];
      CountAppend(front, last, t);
      CountAppend(Survivors(front, dead), last, t);
      if dead(last) { assert Survivors(s, dead) == Survivors(front, dead); }
    }
  }

  // ---------------------------------------------------------------- the page

  class Page<T(0)> {
    const size: nat            // of a tuple, in bytes
    const slots: array<T>      // the tuple area
    var isNew: bool            // all zeroes, never initialized
    var deleted: bool
    var maxoff: nat

    ghost predicate Valid()
      reads this
    {
      && 8 <= size <= 518
      && slots.Length == Capacity(size)
      && maxoff <= Capacity(size)
      && ((isNew || deleted) ==> maxoff == 0)
    }

    ghost function Contents(): seq<T>
      reads this, slots
      requires Valid()
    {
      slots[..maxoff]
    }

    constructor (size: nat)
      requires 8 <= size <= 518
      ensures Valid() && fresh(slots) && isNew && !deleted && this.size == size && Contents() == []
    {
      this.size := size;
      slots := new T[Capacity(size)];
      isNew, deleted, maxoff := true, false, 0;
    }

    method Init()
      requires Valid()
      modifies this
      ensures Valid() && !isNew && !deleted && Contents() == []
    {
      isNew, deleted, maxoff := false, false, 0;
    }

    /** Append a tuple if the free space allows it; an empty page always does. */
    method AddItem(t: T) returns (ok: bool)
      requires Valid() && !isNew && !deleted
      modifies this`maxoff, slots
      ensures Valid() && isNew == old(isNew) && deleted == old(deleted)
      ensures ok <==> |old(Contents())| < Capacity(size)
      ensures Contents() == if ok then old(Contents()) + [t] else old(Contents())
      ensures old(Contents()) == [] ==> ok
    {
      FitsBelowCapacity(size, maxoff);
      if FreeSpace(size, maxoff) < size { return false; }
      slots[maxoff] := t;
      maxoff := maxoff + 1;
      ok := true;
    }

    /**
     Vacuum on one page: squeeze out the dead tuples where they stand. Exactly the
     survivors are left, in their order; a page that loses its last tuple is marked
     deleted. listed says whether the page belongs on the new list of pages with room.
     */
    method Compact(dead: T -> bool) returns (removed: nat, listed: bool)
      requires Valid() && !isNew && !deleted
      modifies this`maxoff, this`deleted, slots
      ensures Valid() && isNew == old(isNew)
      ensures Contents() == Survivors(old(Contents()), dead)
      ensures removed == |old(Contents())| - |Contents()|
      ensures deleted <==> removed > 0 && Contents() == []
      ensures listed <==> 0 < |Contents()| < Capacity(size)
    {
      var end := maxoff;
      maxoff := Squeeze(slots, end, dead);
      removed := end - maxoff;
      FitsBelowCapacity(size, maxoff);
      listed := maxoff != 0 && FreeSpace(size, maxoff) >= size;
      if removed > 0 && maxoff == 0 { deleted := true; }
    }
  }

  /** The two moving pointers: itup reads, kept says where the next survivor goes. */
  method Squeeze<T>(slots: array<T>, end: nat, dead: T -> bool) returns (kept: nat)
    requires end <= slots.Length
    modifies slots
    ensures kept <= end && slots[..kept] == Survivors(old(slots[..end]), dead)
  {
    ghost var was := slots[..end];
    var itup := 0;
    kept := 0;
    while itup < end
      invariant 0 <= kept <= itup <= end
      invariant slots[..kept] == Survivors(was[..itup], dead)
      invariant forall i :: itup <= i < end ==> slots[i] == was[i]
    {
      var t := slots[itup];
      SurvivorsNext(was, itup, dead);
      if !dead(t) {
        if kept != itup { slots[kept] := t; }
        assert slots[..kept + 1] == slots[..kept] + [t];
        kept := kept + 1;
      }
      itup := itup + 1;
    }
    assert was[..end] == was;
  }

  // ---------------------------------------------------------------- building

  function Concat<T>(pages: seq<seq<T>>): seq<T> {
    if pages == [] then [] else Concat(pages[..|pages| - 1]) + pages[|pages| - 1]
  }

  /**
   Building the index: tuples go to a cached page, which is flushed when the next one
   does not fit and once more at the end. Every tuple is on a page, in heap order,
   and every flushed page but the last is full.
   */
  method Build<T>(tuples: seq<T>, capacity: nat) returns (pages: seq<seq<T>>)
    requires capacity > 0
    ensures Concat(pages) == tuples
    ensures forall b :: 0 <= b < |pages| ==> 0 < |pages[b]| <= capacity
    ensures forall b :: 0 <= b < |pages| - 1 ==> |pages[b]| == capacity
  {
    pages := [];
    var cached: seq<T> := [];
    for i := 0 to |tuples|
      invariant Concat(pages) + cached == tuples[..i]
      invariant |cached| <= capacity && (pages != [] ==> cached != [])
      invariant forall b :: 0 <= b < |pages| ==> |pages[b]| == capacity
    {
      if |cached| < capacity {
        cached := cached + [tuples[i]];
      } else {
        assert (pages + [cached])[..|pages|] == pages;
        pages := pages + [cached];
        cached := [tuples[i]];
      }
    }
    if |cached| > 0 {
      assert (pages + [cached])[..|pages|] == pages;
      pages := pages + [cached];
    }
  }
}
