/**
 The equivalence check's own parser of the same files. Its markers are matched against the
 whole text, where white space includes line ends, so one may stretch over several lines.
 */
module BlobSecond {
  import opened Blobs
  import opened BlobRoundTrip
  import opened Sections
  import opened Text

  function Blanks(lines: seq<string>): (n: nat)
    ensures n <= |lines|
  {
    if lines == [] || Strip(lines[0]) != [] then 0 else 1 + Blanks(lines[1..])
  }

  /** Lines taken by a marker at the front: one, or dashes, blank lines and the word; 0 for none. */
  function MarkLength(lines: seq<string>, word: string): nat {
    if lines == [] then 0
    else if IsMarker(lines[0], word) then 1
    else if Strip(lines[0]) == "--" then
      var k := Blanks(lines[1..]);
      if 1 + k < |lines| && Strip(lines[1 + k]) == word then 2 + k else 0
    else 0
  }

  function SplitMark(): seq<string> -> nat {
    (lines: seq<string>) => MarkLength(lines, "SPLIT")
  }

  function QueryMark(): seq<string> -> nat {
    (lines: seq<string>) => MarkLength(lines, "QUERY")
  }

  function IsBlank(lines: seq<string>): bool {
    forall i :: 0 <= i < |lines| ==> Strip(lines[i]) == []
  }

  function Filled(ps: seq<seq<string>>): seq<seq<string>> {
    if ps == [] then [] else (if IsBlank(ps[0]) then [] else [ps[0]]) + Filled(ps[1..])
  }

  /** A line cut at the other characters that end lines. */
  function BreakUp(line: string): seq<string>
    decreases |line|
  {
    var i := FirstBreak(line);
    if i == |line| then [line] else [line[..i]] + BreakUp(line[i + 1..])
  }

  function FirstBreak(s: string): (i: nat)
    ensures i <= |s|
    ensures (forall k :: 0 <= k < |s| ==> !IsBreak(s[k])) ==> i == |s|
  {
    if s == [] || IsBreak(s[0]) then 0 else 1 + FirstBreak(s[1..])
  }

  function BreakAll(lines: seq<string>): seq<string> {
    if lines == [] then [] else BreakUp(lines[0]) + BreakAll(lines[1..])
  }

  function ReadPart(part: seq<string>): Result<(seq<string>, string)> {
    match CutOnce(part, QueryMark())
    case Err => Err
    case Ok(halves) => Ok((Statements(BreakAll(halves.0)), TrimSemicolons(Strip(Unlines(halves.1)))))
  }

  /** Setup lines and statement of the blob at a 1-based index; index 0 means the last one. */
  function NthBlob(lines: seq<string>, index: nat): Result<(seq<string>, string)> {
    var blobs := Filled(Parts(lines, SplitMark()));
    if |blobs| < index || blobs == [] then Err
    else ReadPart(blobs[if index == 0 then |blobs| - 1 else index - 1])
  }

  // ---------------------------------------------------------------- which lines are markers

  lemma NoCommentNever(line: string, word: string)
    requires NoComment(line)
    ensures forall t: seq<string> :: MarkLength([line] + t, word) == 0
  {
    assert "--"[..2] == "--";
  }

  /** A comment with something else in it. */
  lemma OtherCommentNever(line: string, word: string)
    requires !IsMarker(line, word) && Strip(line) != "--"
    ensures forall t: seq<string> :: MarkLength([line] + t, word) == 0
  {
  }

  lemma MarkerAlone(line: string, word: string)
    requires IsMarker(line, word)
    ensures forall t: seq<string> :: MarkLength([line] + t, word) == 1
  {
  }

  lemma {:induction false} HeaderIsComment(t: string)
    requires t != [] && Trimmed(t)
    ensures var s := "-- " + t;
            Strip(s) == s && s != "--" && StartsWith(s, "--") && Lstrip(s[2..]) == t
  {
    DashesTrimmed(t);
    StripTrimmed("-- " + t);
    assert (" " + t)[1..] == t;
    StripTrimmed(t);
  }

  lemma {:induction false} FieldsStart(b: Blob)
    requires b.table == [] || Word(b.table)
    ensures Join(Tokens(b), " ") != [] && Trimmed(Join(Tokens(b), " ")) && Join(Tokens(b), " ")[0] == 'n'
  {
    TokensAreWords(b);
    JoinTrimmed(Tokens(b));
    assert Tokens(b)[0][0] == 'n';
    JoinStarts(Tokens(b));
  }

  lemma JoinStarts(ws: seq<string>)
    requires ws != [] && ws[0] != []
    ensures Join(ws, " ") != [] && Join(ws, " ")[0] == ws[0][0]
  {
  }

  lemma {:induction false} HeaderNever(b: Blob)
    requires b.table == [] || Word(b.table)
    ensures Never(HeaderLine(b), SplitMark()) && Never(HeaderLine(b), QueryMark())
    ensures Strip(HeaderLine(b)) == HeaderLine(b) && StartsWith(HeaderLine(b), "--")
  {
    FieldsStart(b);
    HeaderIsComment(Join(Tokens(b), " "));
    OtherCommentNever(HeaderLine(b), "SPLIT");
    OtherCommentNever(HeaderLine(b), "QUERY");
  }

  lemma {:induction false} SplitAlone()
    ensures Alone("--SPLIT", SplitMark())
  {
    SplitComment();
    MarkerAlone("--SPLIT", "SPLIT");
  }

  lemma {:induction false} QueryAlone()
    ensures Alone("--QUERY", QueryMark())
  {
    QueryComment();
    MarkerAlone("--QUERY", "QUERY");
  }

  lemma {:induction false} QueryNeverSplits()
    ensures Never("--QUERY", SplitMark())
  {
    QueryComment();
    Plain("--QUERY");
    OtherCommentNever("--QUERY", "SPLIT");
  }

  lemma {:induction false} BlankNever()
    ensures Never("", SplitMark())
  {
    BlankNoMarker();
    OtherCommentNever("", "SPLIT");
  }

  // ---------------------------------------------------------------- statements without a marker

  /** Lines that are not blank, stripped. */
  function Cores(lines: seq<string>): seq<string> {
    if lines == [] then [] else (if Strip(lines[0]) == [] then [] else [Strip(lines[0])]) + Cores(lines[1..])
  }

  /** Neither a marker line nor dashes with the word on the next line that is not blank. */
  ghost predicate NoMark(cores: seq<string>) {
    && (forall i :: 0 <= i < |cores| ==> !IsSplit(cores[i]))
    && (forall i, j :: 0 <= i && j == i + 1 < |cores| && cores[i] == "--" ==> cores[j] != "SPLIT")
  }

  /** A blob both parsers can tell from the next. */
  ghost predicate Whole(b: Blob) {
    Printable(b) && NoMark(Cores(SqlLines(b)))
  }

  ghost predicate AllWhole(bs: seq<Blob>) {
    forall i :: 0 <= i < |bs| ==> Whole(bs[i])
  }

  lemma StripTwice(s: string)
    ensures Strip(Strip(s)) == Strip(s)
  {
    RstripEnd(s);
    if Rstrip(s) != [] { LstripEnd(Rstrip(s)); }
    StripTrimmed(Strip(s));
  }

  lemma MarkerOfCore(line: string, word: string)
    ensures IsMarker(line, word) <==> IsMarker(Strip(line), word)
  {
    StripTwice(line);
  }

  lemma BlankIsNoMarker(line: string, word: string)
    requires Strip(line) == []
    ensures !IsMarker(line, word)
  {
  }

  lemma {:induction false} CoresIff(lines: seq<string>)
    ensures NoneOf(lines, IsSplit) <==> NoneOf(Cores(lines), IsSplit)
  {
    if lines != [] {
      CoresIff(lines[1..]);
      NoneFirst(lines, IsSplit);
      MarkerOfCore(lines[0], "SPLIT");
      if Strip(lines[0]) == [] {
        BlankIsNoMarker(lines[0], "SPLIT");
        assert Cores(lines) == Cores(lines[1..]);
      } else {
        NoneFirst(Cores(lines), IsSplit);
        assert Cores(lines)[1..] == Cores(lines[1..]);
      }
    }
  }

  /** The first line that is not blank, if there is one, is not the word. */
  predicate NoWord(lines: seq<string>) {
    Blanks(lines) == |lines| || Strip(lines[Blanks(lines)]) != "SPLIT"
  }

  lemma {:induction false} FirstCore(lines: seq<string>, tail: seq<string>)
    requires NoWord(tail) && (Cores(lines) != [] ==> Cores(lines)[0] != "SPLIT")
    ensures NoWord(lines + tail)
  {
    if lines == [] {
      assert lines + tail == tail;
    } else {
      var rest := lines[1..] + tail;
      assert (lines + tail)[1..] == rest && (lines + tail)[0] == lines[0];
      if Strip(lines[0]) == [] {
        assert Cores(lines) == Cores(lines[1..]);
        FirstCore(lines[1..], tail);
        assert Blanks(lines + tail) == 1 + Blanks(rest);
        if Blanks(rest) < |rest| { assert (lines + tail)[1 + Blanks(rest)] == rest[Blanks(rest)]; }
      }
    }
  }

  lemma NoMarkTail(x: string, cores: seq<string>)
    requires NoMark([x] + cores)
    ensures NoMark(cores) && !IsSplit(x) && (x == "--" && cores != [] ==> cores[0] != "SPLIT")
  {
    var all := [x] + cores;
    assert all[0] == x;
    forall i | 0 <= i < |cores| ensures !IsSplit(cores[i]) { assert all[i + 1] == cores[i]; }
    forall i, j | 0 <= i && j == i + 1 < |cores| && cores[i] == "--" ensures cores[j] != "SPLIT" {
      assert all[i + 1] == cores[i] && all[j + 1] == cores[j];
    }
    if x == "--" && cores != [] { assert all[1] == cores[0]; }
  }

  lemma MarkerNext(line: string, rest: seq<string>)
    requires !IsSplit(line) && (Strip(line) == "--" ==> NoWord(rest))
    ensures MarkLength([line] + rest, "SPLIT") == 0
  {
    assert ([line] + rest)[1..] == rest;
    if Strip(line) == "--" && Blanks(rest) < |rest| { assert ([line] + rest)[1 + Blanks(rest)] == rest[Blanks(rest)]; }
  }

  /** No marker starts in such lines, where the word does not follow. */
  lemma {:induction false} NoMarkUnmarked(lines: seq<string>, tail: seq<string>)
    requires NoMark(Cores(lines)) && NoWord(tail)
    ensures Unmarked(lines, tail, SplitMark())
  {
    if lines != [] {
      var x, rest := lines[0], lines[1..];
      MarkerOfCore(x, "SPLIT");
      if Strip(x) == [] {
        BlankIsNoMarker(x, "SPLIT");
        assert Cores(lines) == Cores(rest);
      } else {
        NoMarkTail(Strip(x), Cores(rest));
        if Strip(x) == "--" { FirstCore(rest, tail); }
      }
      NoMarkUnmarked(rest, tail);
      MarkerNext(x, rest + tail);
      UnmarkedFirst(x, rest, tail, SplitMark());
      assert lines == [x] + rest;
    }
  }

  lemma UnmarkedFirst(x: string, body: seq<string>, rest: seq<string>, mark: seq<string> -> nat)
    requires mark([x] + (body + rest)) == 0 && Unmarked(body, rest, mark)
    ensures Unmarked([x] + body, rest, mark)
  {
    var all := [x] + body + rest;
    assert all == [x] + (body + rest);
    forall k | 0 <= k < |[x] + body| ensures mark(all[k..]) == 0 {
      if k == 0 { assert all[0..] == all; } else { assert all[k..] == (body + rest)[k - 1..]; }
    }
  }

  // ---------------------------------------------------------------- one blob

  lemma {:induction false} SetupNever(setup: seq<string>)
    requires forall i :: 0 <= i < |setup| ==> GoodSetup(setup[i])
    ensures forall i :: 0 <= i < |setup| ==> Never(setup[i], SplitMark()) && Never(setup[i], QueryMark())
  {
    forall i | 0 <= i < |setup| ensures Never(setup[i], SplitMark()) && Never(setup[i], QueryMark()) {
      SetupNoComment(setup[i]);
      NoCommentNever(setup[i], "SPLIT");
      NoCommentNever(setup[i], "QUERY");
    }
  }

  /** Every line satisfies Never. */
  ghost predicate AllNever(lines: seq<string>, mark: seq<string> -> nat) {
    forall k :: 0 <= k < |lines| ==> Never(lines[k], mark)
  }

  lemma AllNeverConcat(a: seq<string>, b: seq<string>, mark: seq<string> -> nat)
    requires AllNever(a, mark) && AllNever(b, mark)
    ensures AllNever(a + b, mark)
  {
  }

  /** A blob's lines after its marker. */
  function Inner(b: Blob): seq<string> {
    [HeaderLine(b)] + b.setup + (["--QUERY"] + SqlLines(b))
  }

  lemma InnerRegrouped(split: string, header: string, setup: seq<string>, query: string, sql: seq<string>)
    ensures [split, header] + setup + [query] + sql == [split] + ([header] + setup + ([query] + sql))
  {
  }

  /** Lines that start no marker anywhere, before lines that start none here. */
  lemma {:induction false} NeverUnmarked(a: seq<string>, body: seq<string>, rest: seq<string>, mark: seq<string> -> nat)
    requires AllNever(a, mark) && Unmarked(body, rest, mark)
    ensures Unmarked(a + body, rest, mark)
  {
    if a == [] {
      assert a + body == body;
    } else {
      NeverUnmarked(a[1..], body, rest, mark);
      assert Never(a[0], mark);
      UnmarkedFirst(a[0], a[1..] + body, rest, mark);
      assert [a[0]] + (a[1..] + body) == a + body;
    }
  }

  lemma {:induction false} InnerUnmarked(b: Blob, tail: seq<string>)
    requires Whole(b) && NoWord(tail)
    ensures Unmarked(Inner(b), tail, SplitMark())
  {
    QueryNeverSplits();
    HeaderNever(b);
    SetupNever(b.setup);
    AllNeverConcat([HeaderLine(b)], b.setup, SplitMark());
    NoMarkUnmarked(SqlLines(b), tail);
    NeverUnmarked(["--QUERY"], SqlLines(b), tail, SplitMark());
    NeverUnmarked([HeaderLine(b)] + b.setup, ["--QUERY"] + SqlLines(b), tail, SplitMark());
  }

  lemma {:induction false} FollowsNoWord(tail: seq<string>)
    requires Follows(tail, "", SplitMark())
    ensures NoWord(tail)
  {
    if tail != [] {
      assert SplitMark()([tail[1]] + []) == 1;
      MarkerIsNotWord(tail[1]);
      assert tail[1..][0] == tail[1];
    }
  }

  lemma MarkerIsNotWord(line: string)
    requires MarkLength([line] + [], "SPLIT") == 1
    ensures Strip(line) != [] && Strip(line) != "SPLIT"
  {
  }

  lemma {:induction false} BlobIsPrinted(b: Blob)
    requires Whole(b)
    ensures BlobLines(b) == ["--SPLIT"] + Inner(b) && Printed(BlobLines(b), "", SplitMark())
  {
    InnerRegrouped("--SPLIT", HeaderLine(b), b.setup, "--QUERY", SqlLines(b));
    SplitAlone();
    TailOf("--SPLIT", Inner(b));
    forall tail | Follows(tail, "", SplitMark()) ensures Unmarked(Inner(b), tail, SplitMark()) {
      FollowsNoWord(tail);
      InnerUnmarked(b, tail);
    }
  }

  predicate NoBreaks(s: string) {
    forall k :: 0 <= k < |s| ==> !IsBreak(s[k])
  }

  lemma {:induction false} NothingToBreak(lines: seq<string>)
    requires forall i :: 0 <= i < |lines| ==> NoBreaks(lines[i])
    ensures BreakAll(lines) == lines
  {
    if lines != [] {
      NothingToBreak(lines[1..]);
      assert NoBreaks(lines[0]);
      assert [lines[0]] + lines[1..] == lines;
    }
  }

  lemma {:induction false} JoinNoBreaks(ws: seq<string>)
    requires forall i :: 0 <= i < |ws| ==> Word(ws[i])
    ensures NoBreaks(Join(ws, " "))
  {
    if |ws| > 1 {
      JoinNoBreaks(ws[1..]);
      assert Join(ws, " ") == ws[0] + " " + Join(ws[1..], " ");
      assert Word(ws[0]);
    }
  }

  lemma {:induction false} HeaderNoBreaks(b: Blob)
    requires b.table == [] || Word(b.table)
    ensures NoBreaks(HeaderLine(b))
  {
    TokensAreWords(b);
    JoinNoBreaks(Tokens(b));
  }

  lemma {:induction false} SetupComesBack(header: string, setup: seq<string>)
    requires NoBreaks(header) && Strip(header) == header && StartsWith(header, "--")
    requires forall i :: 0 <= i < |setup| ==> GoodSetup(setup[i])
    ensures Statements(BreakAll([header] + setup)) == setup
  {
    var lines := [header] + setup;
    forall i | 0 <= i < |lines| ensures NoBreaks(lines[i]) {
      if i > 0 { assert GoodSetup(setup[i - 1]); }
    }
    NothingToBreak(lines);
    SetupSurvives(setup);
    assert lines[1..] == setup;
  }

  lemma {:induction false} PartReadsBack(b: Blob, pad: seq<string>)
    requires Printable(b) && Padding(pad, "")
    ensures ReadPart(Inner(b) + pad) == Ok((b.setup, TrimSemicolons(Strip(b.sql)))) && !IsBlank(Inner(b) + pad)
  {
    var front, rest := [HeaderLine(b)] + b.setup, SqlLines(b) + pad;
    HeaderNever(b);
    HeaderNoBreaks(b);
    SetupNever(b.setup);
    AllNeverConcat([HeaderLine(b)], b.setup, QueryMark());
    QueryAlone();
    Regroup(front, "--QUERY", SqlLines(b), pad);
    CutAt(front, "--QUERY", rest, QueryMark());
    SetupComesBack(HeaderLine(b), b.setup);
    SqlSurvives(b, pad);
    assert (Inner(b) + pad)[0] == HeaderLine(b);
  }

  lemma Regroup(front: seq<string>, mark: string, sql: seq<string>, pad: seq<string>)
    ensures front + ([mark] + sql) + pad == front + ([mark] + (sql + pad))
  {
  }

  // ---------------------------------------------------------------- the file

  lemma {:induction false} FilledAll(ps: seq<seq<string>>)
    requires forall i :: 0 <= i < |ps| ==> !IsBlank(ps[i])
    ensures Filled(ps) == ps
  {
    if ps != [] { FilledAll(ps[1..]); }
  }

  lemma {:induction false} FilledAfterBlank(ps: seq<seq<string>>)
    requires forall i :: 0 <= i < |ps| ==> !IsBlank(ps[i])
    ensures Filled([[]] + ps) == ps
  {
    FilledAll(ps);
    assert ([[]] + ps)[1..] == ps && [] + ps == ps;
  }

  lemma TailOf(x: string, s: seq<string>)
    ensures ([x] + s)[1..] == s
  {
  }

  /** What a part of the file reads back as. */
  ghost predicate PartIs(part: seq<string>, b: Blob) {
    !IsBlank(part) && ReadPart(part) == Ok((Expected(b).setup, Expected(b).sql))
  }

  lemma {:induction false} LastPartIs(b: Blob)
    requires Whole(b)
    ensures PartIs(BlobLines(b)[1..] + [], b) && PartIs(BlobLines(b)[1..] + [""], b)
  {
    BlobIsPrinted(b);
    TailOf("--SPLIT", Inner(b));
    assert Padding<string>([], "") && Padding([""], "");
    PartReadsBack(b, []);
    PartReadsBack(b, [""]);
  }

  lemma {:induction false} BodiesAre(bs: seq<Blob>)
    requires AllWhole(bs)
    ensures forall i :: 0 <= i < |bs| ==> EachBlob(bs)[i] != [] && Printed(EachBlob(bs)[i], "", SplitMark())
    ensures forall i :: 0 <= i < |bs| ==> PartIs(Bodies(EachBlob(bs), "")[i], bs[i])
  {
    var ls := EachBlob(bs);
    forall i | 0 <= i < |bs| ensures ls[i] != [] && Printed(ls[i], "", SplitMark()) { BlobIsPrinted(bs[i]); }
    var bodies := Bodies(ls, "");
    forall i | 0 <= i < |bs| ensures PartIs(bodies[i], bs[i]) { LastPartIs(bs[i]); }
  }

  lemma {:induction false} PartsOfPrint(bs: seq<Blob>)
    requires bs != [] && AllWhole(bs)
    ensures (forall i :: 0 <= i < |bs| ==> EachBlob(bs)[i] != [])
    ensures Parts(Lines(Print(bs)), SplitMark()) == [[]] + Bodies(EachBlob(bs), "")
  {
    LinesOfPrint(bs);
    BlankNever();
    BodiesAre(bs);
    StackParts(EachBlob(bs), "", SplitMark());
  }

  lemma {:induction false} FilePartsAre(bs: seq<Blob>, parts: seq<seq<string>>)
    requires bs != [] && AllWhole(bs) && parts == Parts(Lines(Print(bs)), SplitMark())
    ensures |Filled(parts)| == |bs| && forall i :: 0 <= i < |bs| ==> PartIs(Filled(parts)[i], bs[i])
  {
    PartsOfPrint(bs);
    BodiesAre(bs);
    FilledAfterBlank(Bodies(EachBlob(bs), ""));
  }

  /** The second parser returns the same setup and statement as the first, at every index. */
  lemma {:induction false} NthReadsBack(bs: seq<Blob>, index: nat)
    requires AllWhole(bs) && 1 <= index <= |bs|
    ensures NthBlob(Lines(Print(bs)), index) == Ok((Expected(bs[index - 1]).setup, Expected(bs[index - 1]).sql))
  {
    var parts := Parts(Lines(Print(bs)), SplitMark());
    FilePartsAre(bs, parts);
    assert PartIs(Filled(parts)[index - 1], bs[index - 1]);
  }
}
