/** The check of a value stored out of line: its chunks, in index order, against the size in the pointer. */
module HeapToast {
  import opened Wrappers

  const CHUNK := 1996                  // bytes a full chunk holds with 8 kB pages
  const EXTSIZE_LIMIT := 0x4000_0000   // sizes are stored in thirty bits
  const TWO32 := 0x1_0000_0000

  /** A chunk row as read: either column may be null, and the data may carry a bad header. */
  datatype Data = NullData | BadHeader | Bytes(size: nat)
  datatype Chunk = Chunk(number: Option<int>, data: Data)

  /** Unsigned 32-bit arithmetic, so a size of zero asks for a last chunk far away. */
  function LastChunk(extsize: nat): nat
    requires extsize < EXTSIZE_LIMIT
  {
    ((extsize - 1) % TWO32) / CHUNK
  }

  /** Truncation to a signed 32-bit number. */
  function Int32(x: int): int {
    var m := x % TWO32;
    if m >= 0x8000_0000 then m - TWO32 else m
  }

  function ExpectedSize(extsize: nat, number: int): int
    requires extsize < EXTSIZE_LIMIT
  {
    if number < LastChunk(extsize) then CHUNK else Int32(extsize - LastChunk(extsize) * CHUNK)
  }

  /** One chunk: how many faults are reported and which number is expected next. */
  method CheckToastTuple(c: Chunk, expected: int, extsize: nat) returns (reports: nat, next: int)
    requires extsize < EXTSIZE_LIMIT
    ensures reports == 0 <==> ChunkOk(c, expected, extsize)
    ensures reports == 0 ==> next == expected + 1
  {
    reports, next := 0, expected;
    if c.number.None? { return 1, expected; }
    var number := c.number.value;
    if number != expected { reports := reports + 1; }
    next := number + 1;
    if !c.data.Bytes? { return reports + 1, next; }
    if number > LastChunk(extsize) { return reports + 1, next; }
    if c.data.size != ExpectedSize(extsize, number) { reports := reports + 1; }
  }

  predicate ChunkOk(c: Chunk, number: int, extsize: nat)
    requires extsize < EXTSIZE_LIMIT
  {
    c.number == Some(number) && number <= LastChunk(extsize) && c.data.Bytes? && c.data.size == ExpectedSize(extsize, number)
  }

  /** The size that is checked for: a stored size of zero is taken for four gigabytes. */
  function Span(extsize: nat): nat {
    if extsize == 0 then TWO32 else extsize
  }

  /** Every chunk of a value of that size, numbered in order, each of its right size, and nothing else. */
  ghost predicate Exact(chunks: seq<Chunk>, total: nat) {
    && |chunks| == (total + CHUNK - 1) / CHUNK
    && forall i :: 0 <= i < |chunks| ==> chunks[i].number == Some(i) && chunks[i].data == Bytes(SizeAt(total, i))
  }

  /** What a chunk holds of a value that is cut into full chunks and a rest. */
  function SizeAt(total: nat, i: nat): nat {
    if (i + 1) * CHUNK <= total then CHUNK else if i * CHUNK < total then total - i * CHUNK else 0
  }

  /** The scan over the chunks: silent exactly for the chunks of a value of the size that is checked for. */
  method CheckToastedAttribute(chunks: seq<Chunk>, extsize: nat) returns (reports: nat)
    requires extsize < EXTSIZE_LIMIT
    ensures reports == 0 <==> Exact(chunks, Span(extsize))
  {
    reports := 0;
    var expected, i := 0, 0;
    while i < |chunks|
      invariant 0 <= i <= |chunks|
      invariant reports == 0 <==> forall k :: 0 <= k < i ==> ChunkOk(chunks[k], k, extsize)
      invariant reports == 0 ==> expected == i
    {
      var more, next := CheckToastTuple(chunks[i], expected, extsize);
      reports, expected := reports + more, next;
      i := i + 1;
    }
    SilentMeansExact(chunks, extsize);
    if chunks == [] {
      reports := reports + 1;
    } else if expected <= LastChunk(extsize) {
      reports := reports + 1;
    }
  }

  lemma SizesAgree(extsize: nat, i: nat)
    requires extsize < EXTSIZE_LIMIT && i <= LastChunk(extsize)
    ensures ExpectedSize(extsize, i) == SizeAt(Span(extsize), i)
  {
  }

  lemma LastOfSpan(extsize: nat)
    requires extsize < EXTSIZE_LIMIT
    ensures LastChunk(extsize) + 1 == (Span(extsize) + CHUNK - 1) / CHUNK
  {
  }

  ghost predicate AllOk(chunks: seq<Chunk>, extsize: nat)
    requires extsize < EXTSIZE_LIMIT
  {
    forall k :: 0 <= k < |chunks| ==> ChunkOk(chunks[k], k, extsize)
  }

  lemma NotTooMany(chunks: seq<Chunk>, extsize: nat)
    requires extsize < EXTSIZE_LIMIT && AllOk(chunks, extsize)
    ensures |chunks| <= LastChunk(extsize) + 1
  {
    if chunks != [] {
      var k := |chunks| - 1;
      assert ChunkOk(chunks[k], k, extsize);
    }
  }

  lemma {:induction false} SilentMeansExact(chunks: seq<Chunk>, extsize: nat)
    requires extsize < EXTSIZE_LIMIT
    ensures AllOk(chunks, extsize) && |chunks| > LastChunk(extsize) <==> Exact(chunks, Span(extsize))
  {
    var last := LastChunk(extsize);
    LastOfSpan(extsize);
    forall k | 0 <= k <= last ensures ExpectedSize(extsize, k) == SizeAt(Span(extsize), k) { SizesAgree(extsize, k); }
    if AllOk(chunks, extsize) {
      NotTooMany(chunks, extsize);
      if |chunks| > last {
        forall k | 0 <= k < |chunks| ensures chunks[k].number == Some(k) && chunks[k].data == Bytes(SizeAt(Span(extsize), k)) {
          assert ChunkOk(chunks[k], k, extsize);
        }
      }
    }
  }

  function TotalSize(chunks: seq<Chunk>): nat {
    if chunks == [] then 0
    else TotalSize(chunks[..|chunks| - 1]) + (if chunks[|chunks| - 1].data.Bytes? then chunks[|chunks| - 1].data.size else 0)
  }

  lemma {:induction false} PrefixSize(chunks: seq<Chunk>, total: nat)
    requires forall i :: 0 <= i < |chunks| ==> chunks[i].data == Bytes(SizeAt(total, i))
    ensures TotalSize(chunks) == if |chunks| * CHUNK <= total then |chunks| * CHUNK else total
  {
    if chunks != [] {
      PrefixSize(chunks[..|chunks| - 1], total);
    }
  }

  /** No report means the chunks add up to the size in the pointer, exactly if that size is not zero. */
  lemma {:induction false} ExactAddsUp(chunks: seq<Chunk>, extsize: nat)
    requires extsize < EXTSIZE_LIMIT && Exact(chunks, Span(extsize))
    ensures TotalSize(chunks) == Span(extsize)
    ensures TotalSize(chunks) == extsize <==> extsize >= 1
  {
    PrefixSize(chunks, Span(extsize));
  }
}
