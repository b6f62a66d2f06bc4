/**
 Line ends. Both scripts open a benchmark file in text mode, which turns a carriage
 return, alone or before a newline, into a newline. So a statement comes back with its
 line ends translated, and markers are looked for in the translated lines.
 */
module BlobLineEnds {
  import opened Blobs
  import opened BlobRoundTrip
  import opened BlobSecond
  import opened Sections
  import opened Text

  // ---------------------------------------------------------------- translating

  lemma {:induction false} NoReturnLeft(t: string)
    ensures '\r' !in Translated(t)
  {
    if t != [] {
      if t[0] == '\r' { NoReturnLeft(if |t| > 1 && t[1] == '\n' then t[2..] else t[1..]); } else { NoReturnLeft(t[1..]); }
    }
  }

  lemma {:induction false} NothingToTranslate(t: string)
    requires '\r' !in t
    ensures Translated(t) == t
  {
    if t != [] {
      assert t[0] in t;
      NothingToTranslate(t[1..]);
      assert t == [t[0]] + t[1..];
    }
  }

  /** Text cut anywhere but inside a line end is translated piece by piece. */
  lemma {:induction false} TranslatedConcat(a: string, b: string)
    requires a == [] || b == [] || a[|a| - 1] != '\r' || b[0] != '\n'
    ensures Translated(a + b) == Translated(a) + Translated(b)
    decreases |a|
  {
    if a == [] {
      assert a + b == b;
    } else if b == [] {
      assert a + b == a;
      assert Translated(a) + Translated(b) == Translated(a);
    } else {
      var pair := a[0] == '\r' && |a| > 1 && a[1] == '\n';
      var k := if pair then 2 else 1;
      assert (a + b)[0] == a[0] && (a + b)[k..] == a[k..] + b;
      if |a| > 1 { assert (a + b)[1] == a[1]; } else { assert (a + b)[1] == b[0]; }
      TranslatedConcat(a[k..], b);
      var c := if a[0] == '\r' then '\n' else a[0];
      assert [c] + (Translated(a[k..]) + Translated(b)) == [c] + Translated(a[k..]) + Translated(b);
    }
  }

  lemma {:induction false} TranslatedEnd(s: string)
    requires s != [] && !IsSpace(s[|s| - 1])
    ensures Translated(s) != [] && Translated(s)[|Translated(s)| - 1] == s[|s| - 1]
  {
    var n := |s| - 1;
    assert s == s[..n] + [s[n]];
    TranslatedConcat(s[..n], [s[n]]);
    NothingToTranslate([s[n]]);
  }

  lemma {:induction false} TranslatedSpace(w: string)
    requires forall i :: 0 <= i < |w| ==> IsSpace(w[i])
    ensures forall i :: 0 <= i < |Translated(w)| ==> IsSpace(Translated(w)[i])
  {
    if w != [] {
      var k := if w[0] == '\r' && |w| > 1 && w[1] == '\n' then 2 else 1;
      TranslatedSpace(w[k..]);
      var c := if w[0] == '\r' then '\n' else w[0];
      assert Translated(w) == [c] + Translated(w[k..]) && IsSpace(c);
    }
  }

  /** What stripping on the right takes off is white space. */
  lemma {:induction false} RstripParts(s: string) returns (w: string)
    ensures s == Rstrip(s) + w && forall i :: 0 <= i < |w| ==> IsSpace(w[i])
  {
    w := [];
    if s != [] && IsSpace(s[|s| - 1]) {
      var n := |s| - 1;
      var v := RstripParts(s[..n]);
      w := v + [s[n]];
      assert s == s[..n] + [s[n]];
      assert Rstrip(s) + v + [s[n]] == Rstrip(s) + w;
    }
  }

  lemma {:induction false} RstripTranslated(s: string)
    ensures Rstrip(Translated(s)) == Translated(Rstrip(s))
  {
    var core := Rstrip(s);
    var w := RstripParts(s);
    RstripEnd(s);
    TranslatedConcat(core, w);
    TranslatedSpace(w);
    RstripTail(Translated(core), Translated(w));
    if core != [] { TranslatedEnd(core); }
  }

  lemma {:induction false} LstripTranslated(s: string)
    ensures Lstrip(Translated(s)) == Translated(Lstrip(s))
  {
    if s != [] {
      var k := if s[0] == '\r' && |s| > 1 && s[1] == '\n' then 2 else 1;
      var c := if s[0] == '\r' then '\n' else s[0];
      assert Translated(s) == [c] + Translated(s[k..]);
      if IsSpace(s[0]) {
        LstripTranslated(s[k..]);
        assert Translated(s)[1..] == Translated(s[k..]);
        if k == 2 { assert s[1..][1..] == s[2..]; }
      }
    }
  }

  lemma StripTranslated(s: string)
    ensures Strip(Translated(s)) == Translated(Strip(s))
  {
    RstripTranslated(s);
    LstripTranslated(Rstrip(s));
  }

  lemma {:induction false} SemicolonsTranslated(s: string)
    ensures TrimSemicolons(Translated(s)) == Translated(TrimSemicolons(s))
  {
    if s != [] {
      var n := |s| - 1;
      if s[n] == ';' {
        assert s == s[..n] + ";";
        TranslatedConcat(s[..n], ";");
        NothingToTranslate(";");
        assert Translated(s)[..|Translated(s)| - 1] == Translated(s[..n]);
        SemicolonsTranslated(s[..n]);
      } else {
        LastNotSemicolon(s);
      }
    }
  }

  lemma {:induction false} LastNotSemicolon(s: string)
    requires s != [] && s[|s| - 1] != ';'
    ensures Translated(s) == [] || Translated(s)[|Translated(s)| - 1] != ';'
  {
    var k := if s[0] == '\r' && |s| > 1 && s[1] == '\n' then 2 else 1;
    var c := if s[0] == '\r' then '\n' else s[0];
    assert Translated(s) == [c] + Translated(s[k..]);
    if k < |s| { LastNotSemicolon(s[k..]); }
  }

  // ---------------------------------------------------------------- blobs

  /** The blob as it is read: the statement with its line ends translated. */
  function AsRead(b: Blob): Blob {
    b.(sql := Translated(b.sql))
  }

  function AllAsRead(bs: seq<Blob>): (r: seq<Blob>)
    ensures |r| == |bs| && forall i :: 0 <= i < |bs| ==> r[i] == AsRead(bs[i])
  {
    seq(|bs|, i requires 0 <= i < |bs| => AsRead(bs[i]))
  }

  /** What is read back is the statement asked for, translated; so it is unchanged exactly if it holds no carriage return. */
  lemma {:induction false} StatementAsRead(b: Blob)
    ensures Expected(AsRead(b)) == Expected(b).(sql := Translated(Expected(b).sql))
    ensures Expected(AsRead(b)) == Expected(b) <==> '\r' !in Expected(b).sql
  {
    StripTranslated(b.sql);
    SemicolonsTranslated(Strip(b.sql));
    NoReturnLeft(Expected(b).sql);
    if '\r' !in Expected(b).sql { NothingToTranslate(Expected(b).sql); }
  }

  lemma {:induction false} JoinNoReturn(ws: seq<string>)
    requires forall i :: 0 <= i < |ws| ==> Word(ws[i])
    ensures '\r' !in Join(ws, " ")
  {
    if |ws| > 1 {
      JoinNoReturn(ws[1..]);
      JoinFirst(ws);
    }
  }

  lemma {:induction false} UnlinesNoReturn(ls: seq<string>)
    requires forall i :: 0 <= i < |ls| ==> '\r' !in ls[i]
    ensures '\r' !in Unlines(ls)
    ensures ls != [] ==> Unlines(ls) != [] && Unlines(ls)[|Unlines(ls)| - 1] == '\n'
  {
    if ls != [] { UnlinesNoReturn(ls[1..]); }
  }

  lemma {:induction false} HeaderNoReturn(b: Blob)
    requires Printable(b)
    ensures forall i :: 0 <= i < |HeaderLines(b)| ==> '\r' !in HeaderLines(b)[i]
  {
    TokensAreWords(b);
    JoinNoReturn(Tokens(b));
    assert '\r' !in HeaderLine(b);
    forall i | 0 <= i < |b.setup| ensures '\r' !in b.setup[i] { assert GoodSetup(b.setup[i]); }
    NoneIn("--SPLIT", HeaderLine(b), b.setup, "--QUERY");
  }

  lemma NoneIn(split: string, header: string, setup: seq<string>, query: string)
    requires '\r' !in split && '\r' !in header && '\r' !in query && forall i :: 0 <= i < |setup| ==> '\r' !in setup[i]
    ensures forall i :: 0 <= i < |[split, header] + setup + [query]| ==> '\r' !in ([split, header] + setup + [query])[i]
  {
  }

  /** A printed blob is translated into the blob as read, printed. */
  lemma {:induction false} BlobTranslated(b: Blob)
    requires Printable(b)
    ensures Translated(PrintBlob(b)) == PrintBlob(AsRead(b))
    ensures PrintBlob(b) == [] || PrintBlob(b)[|PrintBlob(b)| - 1] != '\r'
  {
    assert HeaderLines(AsRead(b)) == HeaderLines(b);
    HeaderNoReturn(b);
    PrintTranslated(HeaderLines(b), b.sql);
  }

  lemma {:induction false} PrintTranslated(head: seq<string>, sql: string)
    requires head != [] && forall i :: 0 <= i < |head| ==> '\r' !in head[i]
    ensures var p := Rstrip(Unlines(head) + sql);
            Translated(p) == Rstrip(Unlines(head) + Translated(sql)) && (p == [] || p[|p| - 1] != '\r')
  {
    var top := Unlines(head);
    UnlinesNoReturn(head);
    NothingToTranslate(top);
    TranslatedConcat(top, sql);
    RstripTranslated(top + sql);
    RstripEnd(top + sql);
  }

  lemma {:induction false} NewlinesTranslated(p: string, rest: string, k: nat)
    requires (p == [] || p[|p| - 1] != '\r') && k >= 1
    ensures Translated(p + Newlines(k) + rest) == Translated(p) + Newlines(k) + Translated(rest)
  {
    var nl := Newlines(k);
    TranslatedConcat(p + nl, rest);
    TranslatedConcat(p, nl);
    NothingToTranslate(nl);
  }

  function Newlines(k: nat): (s: string)
    ensures |s| == k && forall i :: 0 <= i < k ==> s[i] == '\n'
  {
    seq(k, _ => '\n')
  }

  /** A generated file, read in text mode, is the file of the blobs as read. */
  lemma {:induction false} FileTranslated(bs: seq<Blob>)
    requires bs != [] && AllPrintable(bs)
    ensures Translated(Print(bs)) == Print(AllAsRead(bs))
  {
    BlobTranslated(bs[0]);
    var p, q := PrintBlob(bs[0]), PrintBlob(AsRead(bs[0]));
    if |bs| == 1 {
      NewlinesTranslated(p, [], 1);
      assert Newlines(1) == "\n";
      assert p + "\n" + [] == p + "\n" && q + "\n" + [] == q + "\n";
    } else {
      assert AllAsRead(bs)[1..] == AllAsRead(bs[1..]);
      FileTranslated(bs[1..]);
      NewlinesTranslated(p, Print(bs[1..]), 2);
      assert Newlines(2) == "\n\n";
    }
  }

  // ---------------------------------------------------------------- a blob as read can be printed

  /** Translating makes no occurrence of a word without line ends. */
  lemma {:induction false} TranslatedStarts(s: string, m: string)
    requires StartsWith(Translated(s), m) && '\n' !in m
    ensures StartsWith(s, m)
  {
    if m != [] {
      var c := Translated(s)[0];
      assert c == Translated(s)[..|m|][0] == m[0];
      assert s[0] == c && Translated(s)[1..] == Translated(s[1..]);
      assert Translated(s[1..])[..|m| - 1] == Translated(s)[..|m|][1..] == m[1..];
      TranslatedStarts(s[1..], m[1..]);
      assert s[..|m|] == [s[0]] + s[1..][..|m| - 1] && m == [m[0]] + m[1..];
    }
  }

  lemma {:induction false} TranslatedContains(s: string, m: string)
    requires Contains(Translated(s), m) && '\n' !in m
    ensures Contains(s, m)
  {
    if StartsWith(Translated(s), m) {
      TranslatedStarts(s, m);
    } else {
      var k := if s[0] == '\r' && |s| > 1 && s[1] == '\n' then 2 else 1;
      assert Translated(s)[1..] == Translated(s[k..]);
      TranslatedContains(s[k..], m);
      if k == 2 { assert s[1..][1..] == s[2..] && Contains(s[1..], m); }
    }
  }

  lemma {:induction false} PrintableAsRead(b: Blob)
    requires Printable(b)
    ensures Printable(AsRead(b))
  {
    StripTranslated(b.sql);
    if Contains(Strip(AsRead(b).sql), WIDTH_MARKER) { TranslatedContains(Strip(b.sql), WIDTH_MARKER); }
    assert Strip(b.sql)[0] in Strip(b.sql);
  }

  // ---------------------------------------------------------------- white space before a statement

  lemma {:induction false} LstripParts(s: string) returns (w: string)
    ensures s == w + Lstrip(s) && forall i :: 0 <= i < |w| ==> IsSpace(w[i])
  {
    w := [];
    if s != [] && IsSpace(s[0]) {
      var v := LstripParts(s[1..]);
      w := [s[0]] + v;
      assert s == [s[0]] + s[1..];
      assert [s[0]] + (v + Lstrip(s)) == w + Lstrip(s);
    }
  }

  lemma StripSpaceBefore(c: char, s: string)
    requires IsSpace(c)
    ensures Strip([c] + s) == Strip(s)
  {
    if Rstrip(s) == [] {
      var w := RstripParts(s);
      assert s == w;
      RstripTail([], [c] + s);
      assert [] + ([c] + s) == [c] + s;
    } else {
      RstripFront([c], s);
      assert ([c] + Rstrip(s))[1..] == Rstrip(s);
    }
  }

  lemma {:induction false} CoresSpace(w: string, core: string)
    requires forall i :: 0 <= i < |w| ==> IsSpace(w[i])
    ensures Cores(Pieces(w + core, '\n')) == Cores(Pieces(core, '\n'))
  {
    if w == [] {
      assert w + core == core;
    } else {
      var t := w[1..] + core;
      assert w + core == [w[0]] + t;
      CoresSpace(w[1..], core);
      if w[0] == '\n' { PiecesNewline(t); } else { PiecesSpace(w[0], t); }
    }
  }

  lemma PiecesNewline(t: string)
    ensures Cores(Pieces("\n" + t, '\n')) == Cores(Pieces(t, '\n'))
  {
    FirstPiece("", t);
    assert "" + "\n" + t == "\n" + t;
    assert ([""] + Pieces(t, '\n'))[1..] == Pieces(t, '\n');
  }

  lemma PiecesSpace(c: char, t: string)
    requires IsSpace(c) && c != '\n'
    ensures Cores(Pieces([c] + t, '\n')) == Cores(Pieces(t, '\n'))
  {
    PiecesFront(c, t);
    var ps := Pieces(t, '\n');
    StripSpaceBefore(c, ps[0]);
    assert ([[c] + ps[0]] + ps[1..])[1..] == ps[1..];
  }

  lemma PiecesFront(c: char, t: string)
    requires c != '\n'
    ensures Pieces([c] + t, '\n') == [[c] + Pieces(t, '\n')[0]] + Pieces(t, '\n')[1..]
  {
    var s, i := [c] + t, IndexOf(t, '\n');
    assert s[1..] == t;
    assert IndexOf(s, '\n') == 1 + i;
    if i < |t| { assert s[..1 + i] == [c] + t[..i] && s[1 + i + 1..] == t[i + 1..]; }
  }

  /** Where only white space around the statement holds carriage returns, its lines are read as they were written. */
  lemma {:induction false} CoresAsRead(b: Blob)
    requires '\r' !in Strip(b.sql)
    ensures Cores(SqlLines(AsRead(b))) == Cores(SqlLines(b))
  {
    var t, core := Rstrip(b.sql), Strip(b.sql);
    var w := LstripParts(t);
    RstripTranslated(b.sql);
    NothingToTranslate(core);
    TranslatedConcat(w, core);
    TranslatedSpace(w);
    CoresSpace(w, core);
    CoresSpace(Translated(w), core);
  }

  lemma {:induction false} OnlySemicolonsTrimmed(s: string)
    ensures '\r' in s <==> '\r' in TrimSemicolons(s)
  {
    if s != [] && s[|s| - 1] == ';' {
      OnlySemicolonsTrimmed(s[..|s| - 1]);
      assert s == s[..|s| - 1] + ";";
    }
  }

  /** Without a carriage return in the statement, a blob is good as read exactly if it is good as written. */
  lemma {:induction false} GoodAsRead(b: Blob)
    requires Printable(b) && '\r' !in Expected(b).sql
    ensures Good(AsRead(b)) <==> Good(b)
    ensures Whole(AsRead(b)) <==> Whole(b)
  {
    OnlySemicolonsTrimmed(Strip(b.sql));
    CoresAsRead(b);
    PrintableAsRead(b);
    CoresIff(SqlLines(b));
    CoresIff(SqlLines(AsRead(b)));
  }

  // ---------------------------------------------------------------- round trips

  /** The statement comes back as it was. */
  ghost predicate Unchanged(b: Blob) {
    '\r' !in Expected(b).sql
  }

  lemma {:induction false} AllPrintableAsRead(bs: seq<Blob>)
    requires AllPrintable(bs)
    ensures AllPrintable(AllAsRead(bs))
  {
    forall i | 0 <= i < |bs| ensures Printable(AllAsRead(bs)[i]) { PrintableAsRead(bs[i]); }
  }

  lemma {:induction false} ExpectedAsRead(bs: seq<Blob>)
    ensures ExpectedAll(AllAsRead(bs)) == ExpectedAll(bs) <==> forall i :: 0 <= i < |bs| ==> Unchanged(bs[i])
  {
    var cs, ds := ExpectedAll(AllAsRead(bs)), ExpectedAll(bs);
    forall i | 0 <= i < |bs| ensures cs[i] == ds[i] <==> Unchanged(bs[i]) { StatementAsRead(bs[i]); }
    if forall i :: 0 <= i < |bs| ==> Unchanged(bs[i]) { assert cs == ds; }
  }

  /**
   The runner on a generated file. Every blob comes back - count, order, widths, sizes, tables,
   setup and statement - exactly if no statement holds a carriage return and no line of one is a
   marker. Where the translated statements hold no marker, they are what comes back.
   */
  lemma {:induction false} RunnerRoundTrip(bs: seq<Blob>, cpus: nat, oversubscribe: bool)
    requires bs != [] && AllPrintable(bs) && forall i :: 0 <= i < |bs| ==> WidthOk(bs[i].nthreads, cpus, oversubscribe)
    ensures var read := ParseAll(Lines(Translated(Print(bs))), IsSplit, BlobParser(cpus, oversubscribe));
            && (read == Ok(ExpectedAll(bs)) <==> forall i :: 0 <= i < |bs| ==> Unchanged(bs[i]) && Good(bs[i]))
            && (read == Ok(ExpectedAll(AllAsRead(bs))) <==> AllGood(AllAsRead(bs)))
            && (read.Ok? && |read.value| == |bs| ==> AllGood(AllAsRead(bs)))
  {
    var rs := AllAsRead(bs);
    AllPrintableAsRead(bs);
    FileTranslated(bs);
    LinesReadBackIff(rs, cpus, oversubscribe);
    var read := ParseAll(Lines(Translated(Print(bs))), IsSplit, BlobParser(cpus, oversubscribe));
    if read.Ok? && |read.value| == |bs| { CountedMeansGood(rs, cpus, oversubscribe); }
    ExpectedAsRead(bs);
    forall i | 0 <= i < |bs| && Unchanged(bs[i]) ensures Good(rs[i]) <==> Good(bs[i]) { GoodAsRead(bs[i]); }
  }

  /** A carriage return that is read is read as a newline, so no statement of the second parser holds one. */
  ghost predicate NoReturns(lines: seq<string>) {
    forall i :: 0 <= i < |lines| ==> '\r' !in lines[i]
  }

  lemma {:induction false} LinesNoReturns(t: string)
    requires '\r' !in t
    ensures NoReturns(Lines(t))
    decreases |t|
  {
    if t != [] {
      var i := IndexOf(t, '\n');
      if i < |t| {
        LinesNoReturns(t[i + 1..]);
        assert '\r' !in t[..i];
      }
    }
  }

  lemma {:induction false} PartsNoReturns(lines: seq<string>, mark: seq<string> -> nat)
    requires NoReturns(lines)
    ensures forall i :: 0 <= i < |Parts(lines, mark)| ==> NoReturns(Parts(lines, mark)[i])
    decreases |lines|
  {
    if lines != [] {
      var n := mark(lines);
      if 0 < n <= |lines| {
        PartsNoReturns(lines[n..], mark);
      } else {
        PartsNoReturns(lines[1..], mark);
        var ps := Parts(lines[1..], mark);
        assert NoReturns(ps[0]) && NoReturns([lines[0]] + ps[0]);
      }
    }
  }

  lemma {:induction false} CutNoReturns(lines: seq<string>, mark: seq<string> -> nat)
    requires NoReturns(lines) && CutOnce(lines, mark).Ok?
    ensures NoReturns(CutOnce(lines, mark).value.1)
    decreases |lines|
  {
    if lines != [] {
      var n := mark(lines);
      if !(0 < n <= |lines|) { CutNoReturns(lines[1..], mark); }
    }
  }

  lemma {:induction false} FilledMember(ps: seq<seq<string>>, i: nat)
    requires i < |Filled(ps)|
    ensures Filled(ps)[i] in ps
  {
    if ps != [] {
      if IsBlank(ps[0]) { FilledMember(ps[1..], i); } else if i > 0 { FilledMember(ps[1..], i - 1); }
    }
  }

  lemma {:induction false} StripNoReturn(s: string)
    requires '\r' !in s
    ensures '\r' !in TrimSemicolons(Strip(s))
  {
    var w := RstripParts(s);
    var v := LstripParts(Rstrip(s));
    assert s == v + Strip(s) + w;
    OnlySemicolonsTrimmed(Strip(s));
  }

  lemma {:induction false} NthNoReturn(lines: seq<string>, index: nat)
    requires NoReturns(lines) && NthBlob(lines, index).Ok?
    ensures '\r' !in NthBlob(lines, index).value.1
  {
    var parts := Parts(lines, SplitMark());
    var blobs := Filled(parts);
    var i := if index == 0 then |blobs| - 1 else index - 1;
    PartsNoReturns(lines, SplitMark());
    FilledMember(parts, i);
    CutNoReturns(blobs[i], QueryMark());
    var rest := CutOnce(blobs[i], QueryMark()).value.1;
    UnlinesNoReturn(rest);
    StripNoReturn(Unlines(rest));
  }

  /** What the second parser should return for a blob. */
  ghost predicate SecondReads(bs: seq<Blob>, index: nat)
    requires 1 <= index <= |bs|
  {
    NthBlob(Lines(Translated(Print(bs))), index) == Ok((Expected(bs[index - 1]).setup, Expected(bs[index - 1]).sql))
  }

  lemma {:induction false} SecondReadsBack(bs: seq<Blob>, index: nat)
    requires AllWhole(bs) && 1 <= index <= |bs| && forall i :: 0 <= i < |bs| ==> Unchanged(bs[i])
    ensures SecondReads(bs, index)
  {
    forall i | 0 <= i < |bs| ensures Whole(AllAsRead(bs)[i]) { GoodAsRead(bs[i]); }
    FileTranslated(bs);
    NthReadsBack(AllAsRead(bs), index);
    StatementAsRead(bs[index - 1]);
  }

  lemma {:induction false} SecondReadsNone(bs: seq<Blob>, index: nat)
    requires 1 <= index <= |bs| && SecondReads(bs, index)
    ensures Unchanged(bs[index - 1])
  {
    var t := Translated(Print(bs));
    NoReturnLeft(Print(bs));
    LinesNoReturns(t);
    NthNoReturn(Lines(t), index);
  }

  /** The second parser returns the same setup and statement as the first, at every index, exactly if no statement holds a carriage return. */
  lemma {:induction false} SecondRoundTrip(bs: seq<Blob>)
    requires bs != [] && AllWhole(bs)
    ensures (forall index: nat :: 1 <= index <= |bs| ==> SecondReads(bs, index)) <==> forall i :: 0 <= i < |bs| ==> Unchanged(bs[i])
  {
    if forall i :: 0 <= i < |bs| ==> Unchanged(bs[i]) {
      forall index: nat | 1 <= index <= |bs| ensures SecondReads(bs, index) { SecondReadsBack(bs, index); }
    }
    if forall index: nat :: 1 <= index <= |bs| ==> SecondReads(bs, index) {
      forall i | 0 <= i < |bs| ensures Unchanged(bs[i]) {
        assert SecondReads(bs, i + 1);
        SecondReadsNone(bs, i + 1);
      }
    }
  }

  /** A carriage return inside a printed line cuts it in two when it is read. */
  lemma {:induction false} ReturnCuts(x: string, m: string)
    requires '\r' !in x && '\n' !in x && '\r' !in m && '\n' !in m
    ensures Pieces(Translated(x + "\r" + m), '\n') == [x, m] && Pieces(x + "\r" + m, '\n') == [x + "\r" + m]
  {
    TranslatedConcat(x + "\r", m);
    TranslatedConcat(x, "\r");
    NothingToTranslate(x);
    NothingToTranslate(m);
    assert Translated("\r") == "\n";
    assert Translated(x + "\r" + m) == x + "\n" + m;
    OnePiece(m);
    FirstPiece(x, m);
    OnePiece(x + "\r" + m);
  }

  /** So a statement of one line, with a marker behind a carriage return, is read as a statement with a marker line. */
  lemma {:induction false} ReturnMakesMarker(x: string)
    requires forall i :: 0 <= i < |x| ==> !IsBreak(x[i])
    ensures Pieces(x + "\r" + "--SPLIT", '\n') == [x + "\r" + "--SPLIT"]
    ensures Pieces(Translated(x + "\r" + "--SPLIT"), '\n') == [x, "--SPLIT"] && IsSplit("--SPLIT")
  {
    ReturnCuts(x, "--SPLIT");
    SplitIsSplit();
  }

  /** The runner on such a file: the marker it makes stands at the end without a header, and the file is refused. */
  lemma {:induction false} ReturnRefused(b: Blob, x: string, cpus: nat, oversubscribe: bool)
    requires Printable(b) && b.sql == x + "\r" + "--SPLIT" && !IsSplit(x) && forall i :: 0 <= i < |x| ==> !IsBreak(x[i])
    ensures ParseAll(Lines(Translated(Print([b]))), IsSplit, BlobParser(cpus, oversubscribe)) == Err
  {
    var a := AsRead(b);
    PrintableAsRead(b);
    FileTranslated([b]);
    assert AllAsRead([b]) == [a];
    LinesOfLast(a);
    ReturnLines(b, x);
    EndsWithMarker(a, x, "--SPLIT", cpus, oversubscribe);
  }

  lemma {:induction false} ReturnLines(b: Blob, x: string)
    requires b.sql == x + "\r" + "--SPLIT" && forall i :: 0 <= i < |x| ==> !IsBreak(x[i])
    ensures SqlLines(AsRead(b)) == [x, "--SPLIT"] && IsSplit("--SPLIT")
  {
    ReturnMakesMarker(x);
    NotStripped(b.sql, x + "\r", "--SPLIT");
  }

  lemma NotStripped(s: string, front: string, last: string)
    requires s == front + last && last != [] && !IsSpace(last[|last| - 1])
    ensures Rstrip(Translated(s)) == Translated(s)
  {
    assert s[|s| - 1] == last[|last| - 1];
    TranslatedEnd(s);
  }

  /** A blob whose last line is a marker. */
  lemma {:induction false} EndsWithMarker(b: Blob, x: string, mark: string, cpus: nat, oversubscribe: bool)
    requires Printable(b) && SqlLines(b) == [x, mark] && !IsSplit(x) && IsSplit(mark)
    ensures ParseAll(BlobLines(b), IsSplit, BlobParser(cpus, oversubscribe)) == Err
  {
    var body := b.setup + ["--QUERY", x];
    SplitComment();
    QueryComment();
    SetupHasNoMarker(b.setup);
    NoneOfTwo("--QUERY", x, IsSplit);
    NoneConcat(b.setup, ["--QUERY", x], IsSplit);
    MarkerLast("--SPLIT", HeaderLine(b), body, mark, IsSplit, BlobParser(cpus, oversubscribe));
    LastLineApart("--SPLIT", HeaderLine(b), b.setup, "--QUERY", x, mark);
  }

  lemma NoneOfTwo(x: string, y: string, kind: string -> bool)
    requires !kind(x) && !kind(y)
    ensures NoneOf([x, y], kind)
  {
  }

  lemma LastLineApart(split: string, header: string, setup: seq<string>, query: string, x: string, mark: string)
    ensures [split, header] + setup + [query] + [x, mark] == [split, header] + (setup + [query, x]) + [mark]
  {
  }

  lemma SplitIsSplit()
    ensures IsSplit("--SPLIT")
  {
    StripTrimmed("--SPLIT");
    assert "--SPLIT"[2..] == "SPLIT" && "--SPLIT"[..2] == "--";
    StripTrimmed("SPLIT");
  }

  lemma OnePiece(s: string)
    requires '\n' !in s
    ensures Pieces(s, '\n') == [s]
  {
  }

  lemma FirstPiece(x: string, m: string)
    requires '\n' !in x
    ensures Pieces(x + "\n" + m, '\n') == [x] + Pieces(m, '\n')
  {
    IndexOfAt(x, '\n', m);
    var t := x + "\n" + m;
    assert t[..|x|] == x && t[|x| + 1..] == m;
  }
}
