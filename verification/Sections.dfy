/** A file of sections: a marker line, a header line, and a body up to the next marker. */
module Sections {

  datatype Result<T> = Ok(value: T) | Err

  /** Position of the first line of a kind, or the end. */
  function First<L>(lines: seq<L>, kind: L -> bool): (i: nat)
    ensures i <= |lines| && (i < |lines| ==> kind(lines[i]))
    ensures forall k :: 0 <= k < i ==> !kind(lines[k])
  {
    if lines == [] || kind(lines[0]) then 0 else 1 + First(lines[1..], kind)
  }

  function Prepend<C>(c: Result<C>, rest: Result<seq<C>>): Result<seq<C>> {
    if c.Err? || rest.Err? then Err else Ok([c.value] + rest.value)
  }

  /** Section after section; a marker needs a header. */
  function ParseAll<L, C>(lines: seq<L>, marker: L -> bool, section: (L, seq<L>) -> Result<C>): Result<seq<C>>
    decreases |lines|
  {
    if lines == [] then Ok([])
    else if !marker(lines[0]) then ParseAll(lines[1..], marker, section)
    else if |lines| == 1 then Err
    else
      var j := 2 + First(lines[2..], marker);
      Prepend(section(lines[1], lines[2..j]), ParseAll(lines[j..], marker, section))
  }

  lemma {:induction false} FirstAt<L>(body: seq<L>, rest: seq<L>, kind: L -> bool)
    requires (forall k :: 0 <= k < |body| ==> !kind(body[k])) && (rest == [] || kind(rest[0]))
    ensures First(body + rest, kind) == |body|
  {
    if body == [] {
      assert body + rest == rest;
    } else {
      FirstAt(body[1..], rest, kind);
      assert (body + rest)[1..] == body[1..] + rest;
    }
  }

  /** One section with a body free of markers, before nothing or another section. */
  lemma {:induction false} ReadPrinted<L, C>(mark: L, header: L, body: seq<L>, rest: seq<L>, marker: L -> bool, section: (L, seq<L>) -> Result<C>)
    requires marker(mark) && (forall k :: 0 <= k < |body| ==> !marker(body[k])) && (rest == [] || marker(rest[0]))
    ensures ParseAll([mark, header] + body + rest, marker, section) == Prepend(section(header, body), ParseAll(rest, marker, section))
  {
    var lines := [mark, header] + body + rest;
    FirstAt(body, rest, marker);
    assert lines[2..] == body + rest;
    assert lines[2..2 + |body|] == body && lines[2 + |body|..] == rest;
  }

  /** A marker on the last line has no header. */
  lemma {:induction false} MarkerLast<L, C>(mark: L, header: L, body: seq<L>, last: L, marker: L -> bool, section: (L, seq<L>) -> Result<C>)
    requires marker(mark) && (forall k :: 0 <= k < |body| ==> !marker(body[k])) && marker(last)
    ensures ParseAll([mark, header] + body + [last], marker, section) == Err
  {
    ReadPrinted(mark, header, body, [last], marker, section);
  }

  function Before<C>(cs: seq<C>, rest: Result<seq<C>>): Result<seq<C>> {
    if rest.Err? then Err else Ok(cs + rest.value)
  }

  lemma BeforeNothing<C>(rest: Result<seq<C>>)
    ensures Before([], rest) == rest
  {
    if rest.Ok? { assert [] + rest.value == rest.value; }
  }

  lemma BeforePrepend<C>(cs: seq<C>, c: Result<C>, rest: Result<seq<C>>)
    requires c.Ok?
    ensures Before(cs, Prepend(c, rest)) == Before(cs + [c.value], rest)
  {
    if rest.Ok? { assert cs + ([c.value] + rest.value) == cs + [c.value] + rest.value; }
  }

  /** The loop: skip to a marker, take the header, collect the body, parse. Sections are required. */
  method SplitSections<L, C>(lines: seq<L>, marker: L -> bool, section: (L, seq<L>) -> Result<C>) returns (r: Result<seq<C>>)
    ensures r == if ParseAll(lines, marker, section) == Ok([]) then Err else ParseAll(lines, marker, section)
  {
    var chunks: seq<C> := [];
    var i := 0;
    assert lines[0..] == lines;
    BeforeNothing(ParseAll(lines, marker, section));
    while i < |lines|
      invariant 0 <= i <= |lines|
      invariant ParseAll(lines, marker, section) == Before(chunks, ParseAll(lines[i..], marker, section))
    {
      if !marker(lines[i]) {
        SkipLine(lines, i, marker, section);
        i := i + 1;
      } else {
        if i + 1 >= |lines| {
          MarkerAtEnd(lines, i, marker, section);
          return Err;
        }
        var end := Collect(lines, i + 2, marker);
        var c := section(lines[i + 1], lines[i + 2..end]);
        ReadSection(lines, i, end, marker, section);
        if c.Err? { return Err; }
        BeforePrepend(chunks, c, ParseAll(lines[end..], marker, section));
        chunks := chunks + [c.value];
        i := end;
      }
    }
    NothingLeft(lines, chunks, marker, section);
    if |chunks| == 0 { return Err; }
    return Ok(chunks);
  }

  lemma NothingLeft<L, C>(lines: seq<L>, chunks: seq<C>, marker: L -> bool, section: (L, seq<L>) -> Result<C>)
    ensures Before(chunks, ParseAll(lines[|lines|..], marker, section)) == Ok(chunks)
  {
    assert lines[|lines|..] == [];
    assert chunks + [] == chunks;
  }

  lemma MarkerAtEnd<L, C>(lines: seq<L>, i: nat, marker: L -> bool, section: (L, seq<L>) -> Result<C>)
    requires i + 1 == |lines| && marker(lines[i])
    ensures ParseAll(lines[i..], marker, section) == Err
  {
  }

  lemma SkipLine<L, C>(lines: seq<L>, i: nat, marker: L -> bool, section: (L, seq<L>) -> Result<C>)
    requires i < |lines| && !marker(lines[i])
    ensures ParseAll(lines[i..], marker, section) == ParseAll(lines[i + 1..], marker, section)
  {
    assert lines[i..][1..] == lines[i + 1..];
  }

  lemma {:induction false} ReadSection<L, C>(lines: seq<L>, i: nat, end: nat, marker: L -> bool, section: (L, seq<L>) -> Result<C>)
    requires i + 1 < |lines| && marker(lines[i]) && end == i + 2 + First(lines[i + 2..], marker)
    ensures ParseAll(lines[i..], marker, section) == Prepend(section(lines[i + 1], lines[i + 2..end]), ParseAll(lines[end..], marker, section))
  {
    ReadFront(lines[i..], marker, section);
    Slices(lines, i, 2, end);
  }

  lemma ReadFront<L, C>(lines: seq<L>, marker: L -> bool, section: (L, seq<L>) -> Result<C>)
    requires 1 < |lines| && marker(lines[0])
    ensures var j := 2 + First(lines[2..], marker);
            ParseAll(lines, marker, section) == Prepend(section(lines[1], lines[2..j]), ParseAll(lines[j..], marker, section))
  {
  }

  lemma Slices<L>(lines: seq<L>, i: nat, n: nat, end: nat)
    requires i + n <= end <= |lines|
    ensures lines[i..][n..] == lines[i + n..] && lines[i..][n..end - i] == lines[i + n..end] && lines[i..][end - i..] == lines[end..]
  {
  }

  method Collect<L>(lines: seq<L>, start: nat, marker: L -> bool) returns (i: nat)
    requires start <= |lines|
    ensures i == start + First(lines[start..], marker) && i <= |lines|
  {
    i := start;
    while i < |lines| && !marker(lines[i])
      invariant start <= i <= |lines|
      invariant First(lines[start..], marker) == i - start + First(lines[i..], marker)
    {
      assert lines[i..][1..] == lines[i + 1..];
      i := i + 1;
    }
  }

  // ---------------------------------------------------------------- files printed section by section

  lemma {:induction false} FirstIs<L>(front: seq<L>, mark: L, rest: seq<L>, kind: L -> bool)
    requires kind(mark) && forall k :: 0 <= k < |front| ==> !kind(front[k])
    ensures var body := front + ([mark] + rest);
            First(body, kind) == |front| && body[..|front|] == front && body[|front| + 1..] == rest
  {
    FirstAt(front, [mark] + rest, kind);
  }

  /** Nothing, or the blank line before the next section. */
  predicate Padding<L(==)>(pad: seq<L>, blank: L) {
    pad == [] || pad == [blank]
  }

  /** Lines that read back as one section, whatever follows. */
  ghost predicate ReadsAs<L(!new), C>(lines: seq<L>, c: C, blank: L, marker: L -> bool, section: (L, seq<L>) -> Result<C>) {
    && lines != [] && marker(lines[0])
    && forall pad, rest :: Padding(pad, blank) && (rest == [] || marker(rest[0])) ==>
      ParseAll(lines + pad + rest, marker, section) == Prepend(Ok(c), ParseAll(rest, marker, section))
  }

  /** No line of a kind. */
  ghost predicate NoneOf<L>(lines: seq<L>, kind: L -> bool) {
    forall k :: 0 <= k < |lines| ==> !kind(lines[k])
  }

  lemma NoneConcat<L>(a: seq<L>, b: seq<L>, kind: L -> bool)
    requires NoneOf(a, kind) && NoneOf(b, kind)
    ensures NoneOf(a + b, kind)
  {
  }

  lemma NoneOfOne<L>(line: L, kind: L -> bool)
    requires !kind(line)
    ensures NoneOf([line], kind)
  {
  }

  /** A marker, a header and a body without markers read back as what the body parses to. */
  lemma {:induction false} PrintedReadsAs<L(!new), C>(
    mark: L, header: L, body: seq<L>, c: C, blank: L, marker: L -> bool, section: (L, seq<L>) -> Result<C>)
    requires marker(mark) && !marker(blank) && NoneOf(body, marker)
    requires section(header, body) == Ok(c) && section(header, body + [blank]) == Ok(c)
    ensures ReadsAs([mark, header] + body, c, blank, marker, section)
  {
    forall pad, rest | Padding(pad, blank) && (rest == [] || marker(rest[0]))
      ensures ParseAll([mark, header] + body + pad + rest, marker, section) == Prepend(Ok(c), ParseAll(rest, marker, section))
    {
      PaddedSection(mark, header, body, pad, rest, c, blank, marker, section);
    }
  }

  lemma {:induction false} PaddedSection<L, C>(
    mark: L, header: L, body: seq<L>, pad: seq<L>, rest: seq<L>, c: C, blank: L, marker: L -> bool, section: (L, seq<L>) -> Result<C>)
    requires marker(mark) && !marker(blank) && NoneOf(body, marker) && Padding(pad, blank) && (rest == [] || marker(rest[0]))
    requires section(header, body) == Ok(c) && section(header, body + [blank]) == Ok(c)
    ensures ParseAll([mark, header] + body + pad + rest, marker, section) == Prepend(Ok(c), ParseAll(rest, marker, section))
  {
    assert [mark, header] + body + pad + rest == [mark, header] + (body + pad) + rest;
    if pad == [] { assert body + pad == body; }
    ReadPrinted(mark, header, body + pad, rest, marker, section);
  }

  /** Sections with a blank line between them. */
  function Stacked<L>(ls: seq<seq<L>>, blank: L): seq<L>
    requires ls != []
  {
    if |ls| == 1 then ls[0] else ls[0] + [blank] + Stacked(ls[1..], blank)
  }

  lemma {:induction false} StackReadsBack<L(!new), C>(ls: seq<seq<L>>, cs: seq<C>, blank: L, marker: L -> bool, section: (L, seq<L>) -> Result<C>)
    requires |ls| == |cs| > 0 && forall i :: 0 <= i < |ls| ==> ReadsAs(ls[i], cs[i], blank, marker, section)
    ensures ParseAll(Stacked(ls, blank), marker, section) == Ok(cs)
    ensures Stacked(ls, blank) != [] && marker(Stacked(ls, blank)[0])
  {
    if |ls| == 1 {
      ReadLast(ls[0], cs[0], blank, marker, section);
      assert cs == [cs[0]];
    } else {
      StackReadsBack(ls[1..], cs[1..], blank, marker, section);
      ReadNext(ls[0], cs[0], Stacked(ls[1..], blank), cs[1..], blank, marker, section);
      assert cs == [cs[0]] + cs[1..];
    }
  }

  /** One section read, whatever follows. */
  lemma ReadOne<L(!new), C>(lines: seq<L>, c: C, pad: seq<L>, rest: seq<L>, blank: L, marker: L -> bool, section: (L, seq<L>) -> Result<C>)
    requires ReadsAs(lines, c, blank, marker, section) && Padding(pad, blank) && (rest == [] || marker(rest[0]))
    ensures ParseAll(lines + pad + rest, marker, section) == Prepend(Ok(c), ParseAll(rest, marker, section))
  {
  }

  lemma PrependLast<C>(c: C)
    ensures Prepend(Ok(c), Ok([])) == Ok([c])
  {
    assert [c] + [] == [c];
  }

  lemma {:induction false} ReadLast<L(!new), C>(lines: seq<L>, c: C, blank: L, marker: L -> bool, section: (L, seq<L>) -> Result<C>)
    requires ReadsAs(lines, c, blank, marker, section)
    ensures ParseAll(lines, marker, section) == Ok([c])
  {
    var none: seq<L> := [];
    ReadOne(lines, c, none, none, blank, marker, section);
    assert lines + none + none == lines;
    PrependLast(c);
  }

  lemma {:induction false} ReadNext<L(!new), C>(lines: seq<L>, c: C, rest: seq<L>, cs: seq<C>, blank: L, marker: L -> bool, section: (L, seq<L>) -> Result<C>)
    requires ReadsAs(lines, c, blank, marker, section) && rest != [] && marker(rest[0]) && ParseAll(rest, marker, section) == Ok(cs)
    ensures ParseAll(lines + [blank] + rest, marker, section) == Ok([c] + cs)
  {
    ReadOne(lines, c, [blank], rest, blank, marker, section);
  }

  // ---------------------------------------------------------------- counting markers

  function Marks<L>(lines: seq<L>, marker: L -> bool): nat {
    if lines == [] then 0 else (if marker(lines[0]) then 1 else 0) + Marks(lines[1..], marker)
  }

  lemma {:induction false} MarksConcat<L>(a: seq<L>, b: seq<L>, marker: L -> bool)
    ensures Marks(a + b, marker) == Marks(a, marker) + Marks(b, marker)
  {
    if a == [] {
      assert a + b == b;
    } else {
      assert (a + b)[1..] == a[1..] + b && (a + b)[0] == a[0];
      MarksConcat(a[1..], b, marker);
    }
  }

  lemma {:induction false} NoMarksIff<L>(lines: seq<L>, marker: L -> bool)
    ensures Marks(lines, marker) == 0 <==> NoneOf(lines, marker)
  {
    if lines != [] {
      NoMarksIff(lines[1..], marker);
      assert NoneOf(lines, marker) <==> !marker(lines[0]) && NoneOf(lines[1..], marker) by { NoneFirst(lines, marker); }
    }
  }

  lemma NoneFirst<L>(lines: seq<L>, marker: L -> bool)
    requires lines != []
    ensures NoneOf(lines, marker) <==> !marker(lines[0]) && NoneOf(lines[1..], marker)
  {
    if NoneOf(lines[1..], marker) && !marker(lines[0]) {
      forall k | 0 <= k < |lines| ensures !marker(lines[k]) { if k > 0 { assert lines[k] == lines[1..][k - 1]; } }
    }
  }

  /** A marker is no header. */
  ghost predicate RefusesMarkers<L(!new), C>(marker: L -> bool, section: (L, seq<L>) -> Result<C>) {
    forall header, body :: marker(header) ==> section(header, body).Err?
  }

  /** Every marker of a file that parses begins a section. */
  lemma {:induction false} SectionPerMark<L(!new), C>(lines: seq<L>, marker: L -> bool, section: (L, seq<L>) -> Result<C>)
    requires RefusesMarkers(marker, section)
    ensures var r := ParseAll(lines, marker, section); r.Ok? ==> |r.value| == Marks(lines, marker)
    decreases |lines|
  {
    if lines != [] && !marker(lines[0]) {
      SectionPerMark(lines[1..], marker, section);
    } else if |lines| > 1 {
      var j := 2 + First(lines[2..], marker);
      SectionPerMark(lines[j..], marker, section);
      MarksOfFirst(lines, j, marker);
      ReadFront(lines, marker, section);
    }
  }

  lemma {:induction false} MarksOfFirst<L>(lines: seq<L>, j: nat, marker: L -> bool)
    requires |lines| > 1 && marker(lines[0]) && j == 2 + First(lines[2..], marker)
    ensures Marks(lines, marker) == (if marker(lines[1]) then 2 else 1) + Marks(lines[j..], marker)
  {
    var body := lines[2..j];
    assert body == lines[2..][..j - 2];
    MarksOfSection(lines[0], lines[1], body, lines[j..], marker);
    assert lines == [lines[0], lines[1]] + body + lines[j..];
  }

  lemma {:induction false} MarksOfSection<L>(mark: L, header: L, body: seq<L>, rest: seq<L>, marker: L -> bool)
    requires marker(mark) && NoneOf(body, marker)
    ensures Marks([mark, header] + body + rest, marker) == (if marker(header) then 2 else 1) + Marks(rest, marker)
  {
    MarksConcat([mark, header] + body, rest, marker);
    MarksConcat([mark, header], body, marker);
    NoMarksIff(body, marker);
    assert [mark, header][1..] == [header];
  }

  /** As many markers as sections: one in each. */
  lemma {:induction false} StackMarks<L>(ls: seq<seq<L>>, blank: L, marker: L -> bool)
    requires ls != [] && !marker(blank) && forall i :: 0 <= i < |ls| ==> Marks(ls[i], marker) >= 1
    ensures Marks(Stacked(ls, blank), marker) >= |ls|
    ensures Marks(Stacked(ls, blank), marker) == |ls| ==> forall i :: 0 <= i < |ls| ==> Marks(ls[i], marker) == 1
  {
    if |ls| > 1 {
      var rest := Stacked(ls[1..], blank);
      StackMarks(ls[1..], blank, marker);
      MarksConcat(ls[0] + [blank], rest, marker);
      MarksConcat(ls[0], [blank], marker);
      assert forall i :: 1 <= i < |ls| ==> ls[i] == ls[1..][i - 1];
    }
  }

  // ---------------------------------------------------------------- cutting at markers of any length

  /** What lies between markers; `mark` says how many lines the marker at the front takes, 0 for none. */
  function Parts<L>(lines: seq<L>, mark: seq<L> -> nat): (ps: seq<seq<L>>)
    ensures ps != []
    decreases |lines|
  {
    if lines == [] then [[]]
    else
      var n := mark(lines);
      if 0 < n <= |lines| then [[]] + Parts(lines[n..], mark)
      else var ps := Parts(lines[1..], mark); [[lines[0]] + ps[0]] + ps[1..]
  }

  /** What lies before and after the first marker. */
  function CutOnce<L>(lines: seq<L>, mark: seq<L> -> nat): Result<(seq<L>, seq<L>)>
    decreases |lines|
  {
    if lines == [] then Err
    else
      var n := mark(lines);
      if 0 < n <= |lines| then Ok(([], lines[n..]))
      else match CutOnce(lines[1..], mark) case Err => Err case Ok(p) => Ok(([lines[0]] + p.0, p.1))
  }

  /** A line no marker starts at, and one that is a marker by itself. */
  ghost predicate Never<L(!new)>(line: L, mark: seq<L> -> nat) {
    forall t :: mark([line] + t) == 0
  }

  ghost predicate Alone<L(!new)>(line: L, mark: seq<L> -> nat) {
    forall t :: mark([line] + t) == 1
  }

  /** Lines put in front of the first part. */
  function Glue<L>(body: seq<L>, ps: seq<seq<L>>): seq<seq<L>>
    requires ps != []
  {
    [body + ps[0]] + ps[1..]
  }

  lemma GlueTwice<L>(x: L, tail: seq<L>, ps: seq<seq<L>>)
    requires ps != []
    ensures Glue([x], Glue(tail, ps)) == Glue([x] + tail, ps)
  {
    var g := Glue(tail, ps);
    assert g[1..] == ps[1..];
    assert [x] + (tail + ps[0]) == [x] + tail + ps[0];
  }

  /** No marker starts inside body, where rest follows it. */
  ghost predicate Unmarked<L>(body: seq<L>, rest: seq<L>, mark: seq<L> -> nat) {
    forall k :: 0 <= k < |body| ==> mark((body + rest)[k..]) == 0
  }

  lemma UnmarkedTail<L>(body: seq<L>, rest: seq<L>, mark: seq<L> -> nat)
    requires body != [] && Unmarked(body, rest, mark)
    ensures Unmarked(body[1..], rest, mark) && mark(body + rest) == 0
  {
    var tail := body[1..];
    assert (body + rest)[0..] == body + rest;
    forall k | 0 <= k < |tail| ensures mark((tail + rest)[k..]) == 0 {
      assert (tail + rest)[k..] == (body + rest)[k + 1..];
    }
  }

  lemma PartsNext<L>(lines: seq<L>, mark: seq<L> -> nat)
    requires lines != [] && mark(lines) == 0
    ensures Parts(lines, mark) == Glue([lines[0]], Parts(lines[1..], mark))
  {
  }

  lemma {:induction false} PartsSkip<L>(body: seq<L>, rest: seq<L>, mark: seq<L> -> nat)
    requires Unmarked(body, rest, mark)
    ensures Parts(body + rest, mark) == Glue(body, Parts(rest, mark))
  {
    if body == [] {
      assert body + rest == rest;
      assert [] + Parts(rest, mark)[0] == Parts(rest, mark)[0];
    } else {
      var x, tail := body[0], body[1..];
      UnmarkedTail(body, rest, mark);
      PartsSkip(tail, rest, mark);
      assert (body + rest)[1..] == tail + rest && (body + rest)[0] == x;
      PartsNext(body + rest, mark);
      GlueTwice(x, tail, Parts(rest, mark));
      assert [x] + tail == body;
    }
  }

  lemma {:induction false} PartsCut<L(!new)>(line: L, rest: seq<L>, mark: seq<L> -> nat)
    requires Alone(line, mark)
    ensures Parts([line] + rest, mark) == [[]] + Parts(rest, mark)
  {
    assert ([line] + rest)[1..] == rest;
  }

  lemma {:induction false} CutAt<L(!new)>(front: seq<L>, line: L, rest: seq<L>, mark: seq<L> -> nat)
    requires Alone(line, mark) && forall k :: 0 <= k < |front| ==> Never(front[k], mark)
    ensures CutOnce(front + ([line] + rest), mark) == Ok((front, rest))
  {
    var lines := front + ([line] + rest);
    if front == [] {
      assert lines == [line] + rest && lines[1..] == rest;
    } else {
      CutAt(front[1..], line, rest, mark);
      assert lines == [front[0]] + (front[1..] + ([line] + rest)) && lines[1..] == front[1..] + ([line] + rest);
      assert Never(front[0], mark) && mark(lines) == 0;
      assert [front[0]] + front[1..] == front;
    }
  }

  /** A printed section without its marker line, and with the blank line if another follows. */
  function Bodies<L>(ls: seq<seq<L>>, blank: L): (r: seq<seq<L>>)
    requires forall i :: 0 <= i < |ls| ==> ls[i] != []
    ensures |r| == |ls| && forall i :: 0 <= i < |ls| ==> r[i] == ls[i][1..] + (if i == |ls| - 1 then [] else [blank])
  {
    if ls == [] then []
    else [ls[0][1..] + (if |ls| == 1 then [] else [blank])] + Bodies(ls[1..], blank)
  }

  /** What may follow a printed section: nothing, or a blank line and a marker. */
  ghost predicate Follows<L(!new)>(tail: seq<L>, blank: L, mark: seq<L> -> nat) {
    tail == [] || (|tail| > 1 && tail[0] == blank && Alone(tail[1], mark))
  }

  /** A marker line, and lines no marker starts in, whatever may follow. */
  ghost predicate Printed<L(!new)>(lines: seq<L>, blank: L, mark: seq<L> -> nat) {
    && lines != [] && Alone(lines[0], mark)
    && forall tail :: Follows(tail, blank, mark) ==> Unmarked(lines[1..], tail, mark)
  }

  lemma {:induction false} StackParts<L(!new)>(ls: seq<seq<L>>, blank: L, mark: seq<L> -> nat)
    requires ls != [] && Never(blank, mark) && forall i :: 0 <= i < |ls| ==> ls[i] != [] && Printed(ls[i], blank, mark)
    ensures Parts(Stacked(ls, blank), mark) == [[]] + Bodies(ls, blank)
    ensures Stacked(ls, blank) != [] && Stacked(ls, blank)[0] == ls[0][0]
  {
    var first, inner := ls[0][0], ls[0][1..];
    assert Printed(ls[0], blank, mark) && ls[0] == [first] + inner;
    if |ls| == 1 {
      LastPart(first, inner, blank, mark);
      assert inner + [] == inner;
      assert Bodies(ls, blank) == [inner];
    } else {
      StackParts(ls[1..], blank, mark);
      var body, rest := inner + [blank], Stacked(ls[1..], blank);
      assert Alone(rest[0], mark) by { assert Printed(ls[1], blank, mark); }
      WithBlank(ls[0], rest, blank, mark);
      assert [first] + inner + [blank] + rest == [first] + (body + rest);
      MorePart(first, body, rest, Bodies(ls[1..], blank), mark);
      assert Bodies(ls, blank) == [body] + Bodies(ls[1..], blank);
    }
  }

  /** The blank line after a section starts no marker either. */
  lemma {:induction false} WithBlank<L(!new)>(lines: seq<L>, rest: seq<L>, blank: L, mark: seq<L> -> nat)
    requires Printed(lines, blank, mark) && Never(blank, mark) && rest != [] && Alone(rest[0], mark)
    ensures Unmarked(lines[1..] + [blank], rest, mark)
  {
    var inner, tail := lines[1..], [blank] + rest;
    assert Follows(tail, blank, mark) && Unmarked(inner, tail, mark);
    assert inner + [blank] + rest == inner + tail;
    forall k | 0 <= k <= |inner| ensures mark((inner + [blank] + rest)[k..]) == 0 {
      if k == |inner| { assert (inner + tail)[k..] == [blank] + rest; }
    }
  }

  lemma {:induction false} LastPart<L(!new)>(line: L, body: seq<L>, blank: L, mark: seq<L> -> nat)
    requires Printed([line] + body, blank, mark)
    ensures Parts([line] + body, mark) == [[], body]
  {
    var none: seq<L> := [];
    assert ([line] + body)[1..] == body && Follows(none, blank, mark);
    OnePart(line, body, none, mark);
    assert body + none == body;
  }

  lemma {:induction false} MorePart<L(!new)>(line: L, body: seq<L>, rest: seq<L>, more: seq<seq<L>>, mark: seq<L> -> nat)
    requires Alone(line, mark) && Unmarked(body, rest, mark) && Parts(rest, mark) == [[]] + more
    ensures Parts([line] + (body + rest), mark) == [[]] + ([body] + more)
  {
    OnePart(line, body, rest, mark);
    assert body + [] == body && ([[]] + more)[1..] == more;
  }

  lemma {:induction false} OnePart<L(!new)>(line: L, body: seq<L>, rest: seq<L>, mark: seq<L> -> nat)
    requires Alone(line, mark) && Unmarked(body, rest, mark)
    ensures Parts([line] + (body + rest), mark) == [[]] + Glue(body, Parts(rest, mark))
  {
    PartsCut(line, body + rest, mark);
    PartsSkip(body, rest, mark);
  }
}
