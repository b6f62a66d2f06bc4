/** Reading back what the generator printed: the runner's parser recovers every blob. */
module BlobRoundTrip {
  import opened Blobs
  import opened Sections
  import opened Text
  import opened Wrappers

  // ---------------------------------------------------------------- blobs that survive

  /** A trimmed statement on one line that is not a comment. */
  predicate GoodSetup(s: string) {
    s != [] && Trimmed(s) && !StartsWith(s, "--") && forall i :: 0 <= i < |s| ==> !IsBreak(s[i])
  }

  predicate NoComment(line: string) {
    !StartsWith(Strip(line), "--")
  }

  /** The lines of the statement as they are printed. */
  function SqlLines(b: Blob): seq<string> {
    Pieces(Rstrip(b.sql), '\n')
  }

  /** Setup statements of one line each, a table name without spaces, and a statement with the width written in. */
  ghost predicate Printable(b: Blob) {
    && (forall i :: 0 <= i < |b.setup| ==> GoodSetup(b.setup[i]))
    && (b.table == [] || Word(b.table))
    && Strip(b.sql) != [] && !Contains(Strip(b.sql), WIDTH_MARKER)
  }

  /** No line of the statement is a marker; other comments may stand in it. */
  ghost predicate Good(b: Blob) {
    Printable(b) && NoneOf(SqlLines(b), IsSplit)
  }

  function Tables(b: Blob): seq<string> {
    if b.table == [] then [] else NonEmpty(Pieces(b.table, ','))
  }

  /** What reading a blob back should give: the statement without outer white space and final semicolons. */
  function Expected(b: Blob): Chunk {
    Chunk(Header(b.nthreads, b.ndata, b.nlambdas, Tables(b)), b.setup, TrimSemicolons(Strip(b.sql)))
  }

  // ---------------------------------------------------------------- the header line

  lemma Keyed(key: string, value: string)
    requires '=' !in key
    ensures '=' in Token(key, value) && KeyOf(Token(key, value)) == key && ValueOf(Token(key, value)) == value
  {
    IndexOfAt(key, '=', value);
    assert Token(key, value)[|key|] == '=';
  }

  lemma {:induction false} FieldLast(tokens: seq<string>, key: string, value: string, wanted: string)
    requires '=' !in key
    ensures Field(tokens + [Token(key, value)], wanted) == if wanted == key then Some(value) else Field(tokens, wanted)
  {
    Keyed(key, value);
    assert (tokens + [Token(key, value)])[..|tokens|] == tokens;
  }

  lemma {:induction false} ThreeFields(a: string, x: string, b: string, y: string, c: string, z: string, wanted: string)
    requires '=' !in a && '=' !in b && '=' !in c
    ensures Field([Token(a, x), Token(b, y), Token(c, z)], wanted) ==
      if wanted == c then Some(z) else if wanted == b then Some(y) else if wanted == a then Some(x) else None
  {
    assert [Token(a, x), Token(b, y), Token(c, z)] == [] + [Token(a, x)] + [Token(b, y)] + [Token(c, z)];
    FieldLast([], a, x, wanted);
    FieldLast([] + [Token(a, x)], b, y, wanted);
    FieldLast([] + [Token(a, x)] + [Token(b, y)], c, z, wanted);
  }

  lemma {:induction false} TokenFields(b: Blob, wanted: string)
    ensures Field(Tokens(b), wanted) ==
      if wanted == "table" && b.table != [] then Some(b.table)
      else if wanted == "nlambdas" then Some(Decimal(b.nlambdas))
      else if wanted == "ndata" then Some(Decimal(b.ndata))
      else if wanted == "nthreads" then Some(Decimal(b.nthreads))
      else None
  {
    var three := [Token("nthreads", Decimal(b.nthreads)), Token("ndata", Decimal(b.ndata)), Token("nlambdas", Decimal(b.nlambdas))];
    ThreeFields("nthreads", Decimal(b.nthreads), "ndata", Decimal(b.ndata), "nlambdas", Decimal(b.nlambdas), wanted);
    FieldLast(three, "table", b.table, wanted);
    assert three + [] == three;
  }

  lemma TokenIsWord(key: string, value: string)
    requires Word(key) && Word(value)
    ensures Word(Token(key, value))
  {
  }

  lemma DecimalIsWord(n: nat)
    ensures Word(Decimal(n))
  {
    DecimalRoundTrip(n);
  }

  lemma LettersAreWord(s: string)
    requires s != [] && forall i :: 0 <= i < |s| ==> 'a' <= s[i] <= 'z'
    ensures Word(s)
  {
  }

  lemma AllWords(a: string, b: string, c: string, rest: seq<string>)
    requires Word(a) && Word(b) && Word(c) && forall i :: 0 <= i < |rest| ==> Word(rest[i])
    ensures var ws := [a, b, c] + rest; forall i :: 0 <= i < |ws| ==> Word(ws[i])
  {
  }

  lemma {:induction false} NumberToken(key: string, n: nat)
    requires key != [] && forall i :: 0 <= i < |key| ==> 'a' <= key[i] <= 'z'
    ensures Word(Token(key, Decimal(n)))
  {
    LettersAreWord(key);
    DecimalIsWord(n);
    TokenIsWord(key, Decimal(n));
  }

  lemma {:induction false} TokensAreWords(b: Blob)
    requires b.table == [] || Word(b.table)
    ensures forall i :: 0 <= i < |Tokens(b)| ==> Word(Tokens(b)[i])
  {
    NumberToken("nthreads", b.nthreads);
    NumberToken("ndata", b.ndata);
    NumberToken("nlambdas", b.nlambdas);
    var rest := if b.table == [] then [] else [Token("table", b.table)];
    if b.table != [] {
      LettersAreWord("table");
      TokenIsWord("table", b.table);
    }
    AllWords(Token("nthreads", Decimal(b.nthreads)), Token("ndata", Decimal(b.ndata)), Token("nlambdas", Decimal(b.nlambdas)), rest);
  }

  lemma {:induction false} StripSpace(t: string)
    requires t != [] && Trimmed(t)
    ensures Strip(" " + t) == t
  {
    RstripFront(" ", t);
    StripTrimmed(t);
    assert (" " + t)[1..] == t;
  }

  lemma DashesTrimmed(t: string)
    requires t != [] && Trimmed(t)
    ensures Trimmed("-- " + t) && StartsWith("-- " + t, "--") && ("-- " + t)[2..] == " " + t
  {
    var s := "-- " + t;
    assert s[0] == '-' && s[|s| - 1] == t[|t| - 1];
    assert s[..2] == "--";
  }

  lemma {:induction false} DashesParse(t: string)
    requires t != [] && Trimmed(t)
    ensures ParseChunkHeader("-- " + t) == ParseFields(Words(t))
  {
    DashesTrimmed(t);
    StripTrimmed("-- " + t);
    StripSpace(t);
  }

  lemma {:induction false} FieldsRoundTrip(b: Blob)
    ensures ParseFields(Tokens(b)) == Ok(Header(b.nthreads, b.ndata, b.nlambdas, Tables(b)))
  {
    TokenFields(b, "nthreads");
    TokenFields(b, "ndata");
    TokenFields(b, "nlambdas");
    TokenFields(b, "table");
    DecimalRoundTrip(b.nthreads);
    DecimalRoundTrip(b.ndata);
    DecimalRoundTrip(b.nlambdas);
  }

  /** Widths, sizes and tables come back. */
  lemma {:induction false} HeaderRoundTrip(b: Blob)
    requires b.table == [] || Word(b.table)
    ensures ParseChunkHeader(HeaderLine(b)) == Ok(Header(b.nthreads, b.ndata, b.nlambdas, Tables(b)))
  {
    TokensAreWords(b);
    JoinTrimmed(Tokens(b));
    DashesParse(Join(Tokens(b), " "));
    JoinWords(Tokens(b));
    FieldsRoundTrip(b);
  }

  // ---------------------------------------------------------------- the lines of a printed file

  lemma StripsToNothing(s: string)
    ensures Strip(s) == [] <==> Rstrip(s) == []
  {
    RstripEnd(s);
    if Rstrip(s) != [] { LstripEnd(Rstrip(s)); }
  }

  /** Every line satisfies a property. */
  ghost predicate Each(lines: seq<string>, p: string -> bool) {
    forall i :: 0 <= i < |lines| ==> p(lines[i])
  }

  function OneLiner(s: string): bool {
    '\n' !in s
  }

  lemma {:induction false} LinesOfUnlines(ls: seq<string>, rest: string)
    requires Each(ls, OneLiner)
    ensures Lines(Unlines(ls) + rest) == ls + Lines(rest)
  {
    if ls == [] {
      assert Unlines(ls) + rest == rest;
      assert ls + Lines(rest) == Lines(rest);
    } else {
      var x, tail := ls[0], ls[1..];
      LinesOfUnlines(tail, rest);
      assert ls == [x] + tail;
      UnlinesStep(x, tail, rest);
      assert OneLiner(x);
      LineFirst(x, Unlines(tail) + rest);
      Cons(x, tail, Lines(rest));
    }
  }

  lemma UnlinesStep(x: string, tail: seq<string>, rest: string)
    ensures Unlines([x] + tail) + rest == x + "\n" + (Unlines(tail) + rest)
  {
    assert ([x] + tail)[1..] == tail;
  }

  function BlobLines(b: Blob): seq<string> {
    HeaderLines(b) + SqlLines(b)
  }

  lemma {:induction false} WordHasNoNewline(s: string)
    requires Word(s)
    ensures '\n' !in s
  {
  }

  lemma {:induction false} JoinNoNewline(ws: seq<string>)
    requires forall i :: 0 <= i < |ws| ==> Word(ws[i])
    ensures '\n' !in Join(ws, " ")
  {
    if |ws| > 1 {
      JoinNoNewline(ws[1..]);
      WordHasNoNewline(ws[0]);
    }
  }

  lemma {:induction false} HeaderIsOneLiner(b: Blob)
    requires b.table == [] || Word(b.table)
    ensures OneLiner(HeaderLine(b))
  {
    TokensAreWords(b);
    JoinNoNewline(Tokens(b));
  }

  lemma {:induction false} SetupPlain(setup: seq<string>)
    requires forall i :: 0 <= i < |setup| ==> GoodSetup(setup[i])
    ensures Each(setup, OneLiner)
  {
    forall i | 0 <= i < |setup| ensures OneLiner(setup[i]) { SetupIsOneLiner(setup[i]); }
  }

  lemma MarksPlain()
    ensures OneLiner("--SPLIT") && OneLiner("--QUERY")
  {
  }

  lemma {:induction false} HeaderLinesPlain(b: Blob)
    requires Printable(b)
    ensures Each(HeaderLines(b), OneLiner)
  {
    HeaderIsOneLiner(b);
    SetupPlain(b.setup);
    MarksPlain();
    AllPlain("--SPLIT", HeaderLine(b), b.setup, "--QUERY");
  }

  lemma AllPlain(split: string, header: string, setup: seq<string>, query: string)
    requires OneLiner(split) && OneLiner(header) && Each(setup, OneLiner) && OneLiner(query)
    ensures Each([split, header] + setup + [query], OneLiner)
  {
  }

  lemma SetupIsOneLiner(s: string)
    requires GoodSetup(s)
    ensures OneLiner(s)
  {
  }

  lemma {:induction false} LinesOfBlob(b: Blob, rest: string)
    requires Printable(b)
    ensures Lines(PrintBlob(b) + "\n" + rest) == BlobLines(b) + Lines(rest)
  {
    HeaderLinesPlain(b);
    StripsToNothing(b.sql);
    LinesOfPrinted(HeaderLines(b), b.sql, rest);
  }

  lemma {:induction false} LinesOfPrinted(head: seq<string>, sql: string, rest: string)
    requires Each(head, OneLiner) && Rstrip(sql) != []
    ensures Lines(Rstrip(Unlines(head) + sql) + "\n" + rest) == head + Pieces(Rstrip(sql), '\n') + Lines(rest)
  {
    var top, s := Unlines(head), Rstrip(sql);
    RstripFront(top, sql);
    LinesAfter(head, top, s, "\n", rest);
  }

  lemma {:induction false} LinesAfter(head: seq<string>, top: string, s: string, newline: string, rest: string)
    requires Each(head, OneLiner) && top == Unlines(head) && newline == "\n"
    ensures Lines(top + s + newline + rest) == head + Pieces(s, '\n') + Lines(rest)
  {
    Grouped(top, s, newline, rest);
    LinesOfUnlines(head, s + newline + rest);
    LinesOf(s, rest);
    Grouped(head, Pieces(s, '\n'), Lines(rest), []);
  }

  lemma Grouped<T>(a: seq<T>, b: seq<T>, c: seq<T>, d: seq<T>)
    ensures a + b + c + d == a + (b + c + d) && a + b + c == a + (b + c)
  {
  }

  function EachBlob(bs: seq<Blob>): (ls: seq<seq<string>>)
    ensures |ls| == |bs| && forall i :: 0 <= i < |bs| ==> ls[i] == BlobLines(bs[i])
  {
    seq(|bs|, i requires 0 <= i < |bs| => BlobLines(bs[i]))
  }

  ghost predicate AllPrintable(bs: seq<Blob>) {
    forall i :: 0 <= i < |bs| ==> Printable(bs[i])
  }

  ghost predicate AllGood(bs: seq<Blob>) {
    forall i :: 0 <= i < |bs| ==> Good(bs[i])
  }

  lemma {:induction false} LinesOfPrint(bs: seq<Blob>)
    requires bs != [] && AllPrintable(bs)
    ensures Lines(Print(bs)) == Stacked(EachBlob(bs), "")
  {
    if |bs| == 1 {
      LinesOfLast(bs[0]);
    } else {
      LinesOfPrint(bs[1..]);
      LinesOfInner(bs[0], Print(bs[1..]));
      EachBlobTail(bs);
    }
  }

  lemma EachBlobTail(bs: seq<Blob>)
    requires bs != []
    ensures EachBlob(bs)[1..] == EachBlob(bs[1..]) && EachBlob(bs)[0] == BlobLines(bs[0])
  {
  }

  lemma {:induction false} LinesOfLast(b: Blob)
    requires Printable(b)
    ensures Lines(PrintBlob(b) + "\n") == BlobLines(b)
  {
    LinesOfBlob(b, []);
    assert PrintBlob(b) + "\n" + [] == PrintBlob(b) + "\n";
    assert BlobLines(b) + [] == BlobLines(b);
  }

  lemma {:induction false} LinesOfInner(b: Blob, rest: string)
    requires Printable(b)
    ensures Lines(PrintBlob(b) + "\n\n" + rest) == BlobLines(b) + [""] + Lines(rest)
  {
    TwoNewlines(PrintBlob(b), rest);
    LinesOfBlob(b, [] + "\n" + rest);
    LineFirst([], rest);
    assert BlobLines(b) + ([""] + Lines(rest)) == BlobLines(b) + [""] + Lines(rest);
  }

  lemma TwoNewlines(printed: string, rest: string)
    ensures printed + "\n\n" + rest == printed + "\n" + ([] + "\n" + rest)
  {
  }

  // ---------------------------------------------------------------- one blob

  /** The lines between header and next marker. */
  function Body(b: Blob, pad: seq<string>): seq<string> {
    b.setup + (["--QUERY"] + (SqlLines(b) + pad))
  }

  /** A bare comment is a marker for its own word only. */
  lemma {:induction false} BareComment(word: string, other: string)
    requires Word(word)
    ensures IsMarker("--" + word, other) <==> word == other
  {
    var s := "--" + word;
    assert s[|s| - 1] == word[|word| - 1] && s[0] == '-';
    Plain(s);
    assert s[2..] == word && s[..2] == "--";
    StripTrimmed(word);
  }

  lemma {:induction false} SplitComment()
    ensures IsSplit("--SPLIT") && !IsQuery("--SPLIT")
  {
    assert "--SPLIT" == "--" + "SPLIT";
    BareComment("SPLIT", "SPLIT");
    BareComment("SPLIT", "QUERY");
  }

  lemma {:induction false} QueryComment()
    ensures IsQuery("--QUERY") && !IsSplit("--QUERY")
  {
    assert "--QUERY" == "--" + "QUERY";
    BareComment("QUERY", "QUERY");
    BareComment("QUERY", "SPLIT");
  }

  lemma BlankNoMarker()
    ensures !IsSplit("") && !IsQuery("")
  {
  }

  lemma Plain(s: string)
    requires s != [] && Trimmed(s)
    ensures Strip(s) == s
  {
    StripTrimmed(s);
  }

  lemma NoCommentNoMarker(line: string)
    requires NoComment(line)
    ensures !IsSplit(line) && !IsQuery(line)
  {
  }

  lemma SetupNoComment(s: string)
    requires GoodSetup(s)
    ensures Strip(s) == s && NoComment(s)
  {
    StripTrimmed(s);
  }

  lemma {:induction false} SetupHasNoMarker(setup: seq<string>)
    requires forall i :: 0 <= i < |setup| ==> GoodSetup(setup[i])
    ensures NoneOf(setup, IsSplit) && NoneOf(setup, IsQuery)
  {
    forall k | 0 <= k < |setup| ensures !IsSplit(setup[k]) && !IsQuery(setup[k]) {
      SetupNoComment(setup[k]);
      NoCommentNoMarker(setup[k]);
    }
  }

  lemma NoneInBody(setup: seq<string>, query: string, sql: seq<string>, kind: string -> bool)
    requires NoneOf(setup, kind) && !kind(query) && NoneOf(sql, kind)
    ensures NoneOf(setup + ([query] + sql), kind)
  {
    NoneOfOne(query, kind);
    NoneConcat([query], sql, kind);
    NoneConcat(setup, [query] + sql, kind);
  }

  lemma {:induction false} BodyHasNoSplit(b: Blob)
    requires Good(b)
    ensures NoneOf(Body(b, []), IsSplit)
  {
    QueryComment();
    SetupHasNoMarker(b.setup);
    NoneInBody(b.setup, "--QUERY", SqlLines(b), IsSplit);
    assert SqlLines(b) + [] == SqlLines(b);
  }

  lemma {:induction false} SetupSurvives(setup: seq<string>)
    requires forall i :: 0 <= i < |setup| ==> GoodSetup(setup[i])
    ensures Statements(setup) == setup
  {
    if setup != [] {
      SetupNoComment(setup[0]);
      SetupSurvives(setup[1..]);
    }
  }

  /** The statement comes back but for outer white space. */
  lemma {:induction false} SqlSurvives(b: Blob, pad: seq<string>)
    requires Padding(pad, "")
    ensures Strip(Unlines(SqlLines(b) + pad)) == Strip(b.sql)
  {
    var sql := Rstrip(b.sql);
    UnlinesPieces(sql);
    UnlinesConcat(SqlLines(b), pad);
    PaddingIsSpace(pad);
    assert sql + "\n" + Unlines(pad) == sql + ("\n" + Unlines(pad));
    RstripTail(sql, "\n" + Unlines(pad));
    RstripTwice(b.sql);
  }

  lemma PaddingIsSpace(pad: seq<string>)
    requires Padding(pad, "")
    ensures var tail := "\n" + Unlines(pad); forall i :: 0 <= i < |tail| ==> IsSpace(tail[i])
  {
    if pad == [""] { OneLine(""); }
  }

  lemma RstripTwice(s: string)
    ensures Rstrip(Rstrip(s)) == Rstrip(s)
  {
    RstripEnd(s);
  }

  lemma StripKeepsEnd(s: string)
    ensures Rstrip(Strip(s)) == Strip(s)
  {
    RstripEnd(s);
    if Rstrip(s) != [] { LstripEnd(Rstrip(s)); }
  }

  lemma {:induction false} ParseBodyIs(h: Header, front: seq<string>, mark: string, rest: seq<string>, sql: string)
    requires IsQuery(mark) && NoneOf(front, IsQuery)
    requires sql == Strip(Unlines(rest)) && sql != [] && !Contains(sql, WIDTH_MARKER)
    ensures ParseBody(h, front + ([mark] + rest)) == Ok(Chunk(h, Statements(front), TrimSemicolons(Rstrip(sql))))
  {
    FirstIs(front, mark, rest, IsQuery);
  }

  lemma {:induction false} BodySurvives(b: Blob, pad: seq<string>)
    requires Printable(b) && Padding(pad, "")
    ensures ParseBody(Expected(b).header, Body(b, pad)) == Ok(Expected(b))
  {
    QueryComment();
    SetupHasNoMarker(b.setup);
    SqlSurvives(b, pad);
    ParseBodyIs(Expected(b).header, b.setup, "--QUERY", SqlLines(b) + pad, Strip(b.sql));
    SetupSurvives(b.setup);
    StripKeepsEnd(b.sql);
  }

  lemma {:induction false} BlobSurvives(b: Blob, pad: seq<string>, cpus: nat, oversubscribe: bool)
    requires Printable(b) && Padding(pad, "") && WidthOk(b.nthreads, cpus, oversubscribe)
    ensures ParseBlob(HeaderLine(b), Body(b, pad), cpus, oversubscribe) == Ok(Expected(b))
  {
    HeaderRoundTrip(b);
    BodySurvives(b, pad);
  }

  // ---------------------------------------------------------------- the file

  function ExpectedAll(bs: seq<Blob>): (cs: seq<Chunk>)
    ensures |cs| == |bs| && forall i :: 0 <= i < |bs| ==> cs[i] == Expected(bs[i])
  {
    seq(|bs|, i requires 0 <= i < |bs| => Expected(bs[i]))
  }

  lemma Regrouped(split: string, header: string, setup: seq<string>, query: string, sql: seq<string>)
    ensures [split, header] + setup + [query] + sql == [split, header] + (setup + ([query] + (sql + [])))
  {
  }

  lemma PadAtEnd(setup: seq<string>, query: string, sql: seq<string>, pad: seq<string>)
    ensures setup + ([query] + (sql + [])) + pad == setup + ([query] + (sql + pad))
  {
  }

  lemma {:induction false} LinesReadAs(
    split: string, header: string, setup: seq<string>, query: string, sql: seq<string>, blank: string, c: Chunk,
    marker: string -> bool, parser: (string, seq<string>) -> Result<Chunk>)
    requires marker(split) && !marker(blank) && NoneOf(setup + ([query] + (sql + [])), marker)
    requires parser(header, setup + ([query] + (sql + []))) == Ok(c) && parser(header, setup + ([query] + (sql + [blank]))) == Ok(c)
    ensures ReadsAs([split, header] + setup + [query] + sql, c, blank, marker, parser)
  {
    PadAtEnd(setup, query, sql, [blank]);
    PrintedReadsAs(split, header, setup + ([query] + (sql + [])), c, blank, marker, parser);
    Regrouped(split, header, setup, query, sql);
  }

  type Parser = (string, seq<string>) -> Result<Chunk>

  /** What a parser has to make of one blob, last or followed by an empty line. */
  ghost predicate Understands(parser: Parser, b: Blob) {
    parser(HeaderLine(b), Body(b, [])) == Ok(Expected(b)) && parser(HeaderLine(b), Body(b, [""])) == Ok(Expected(b))
  }

  lemma {:induction false} BlobReadsAs(b: Blob, parser: Parser)
    requires Good(b) && Understands(parser, b)
    ensures ReadsAs(BlobLines(b), Expected(b), "", IsSplit, parser)
  {
    SplitComment();
    BlankNoMarker();
    BodyHasNoSplit(b);
    LinesReadAs("--SPLIT", HeaderLine(b), b.setup, "--QUERY", SqlLines(b), "", Expected(b), IsSplit, parser);
  }

  lemma {:induction false} FileReadsBack(bs: seq<Blob>, parser: Parser)
    requires bs != [] && AllGood(bs) && forall i :: 0 <= i < |bs| ==> Understands(parser, bs[i])
    ensures ParseAll(Stacked(EachBlob(bs), ""), IsSplit, parser) == Ok(ExpectedAll(bs))
  {
    var ls, cs := EachBlob(bs), ExpectedAll(bs);
    forall i | 0 <= i < |bs| ensures ReadsAs(ls[i], cs[i], "", IsSplit, parser) { BlobReadsAs(bs[i], parser); }
    StackReadsBack(ls, cs, "", IsSplit, parser);
  }

  lemma {:induction false} RunnerUnderstands(b: Blob, cpus: nat, oversubscribe: bool)
    requires Printable(b) && WidthOk(b.nthreads, cpus, oversubscribe)
    ensures Understands(BlobParser(cpus, oversubscribe), b)
  {
    BlobSurvives(b, [], cpus, oversubscribe);
    BlobSurvives(b, [""], cpus, oversubscribe);
  }

  /** The runner recovers every blob of the lines of a generated file: count, order, widths, sizes, tables, setup and statement. */
  lemma {:induction false} LinesReadBack(bs: seq<Blob>, cpus: nat, oversubscribe: bool)
    requires bs != [] && AllGood(bs) && forall i :: 0 <= i < |bs| ==> WidthOk(bs[i].nthreads, cpus, oversubscribe)
    ensures ParseAll(Lines(Print(bs)), IsSplit, BlobParser(cpus, oversubscribe)) == Ok(ExpectedAll(bs))
  {
    LinesOfPrint(bs);
    forall i | 0 <= i < |bs| ensures Understands(BlobParser(cpus, oversubscribe), bs[i]) {
      RunnerUnderstands(bs[i], cpus, oversubscribe);
    }
    FileReadsBack(bs, BlobParser(cpus, oversubscribe));
  }

  // ---------------------------------------------------------------- a marker in a statement

  lemma {:induction false} RstripTailOf(s: string, n: nat)
    requires n < |s| && !IsSpace(s[|s| - 1])
    ensures Rstrip(s[n..]) == s[n..]
  {
  }

  /** A marker names no field. */
  lemma {:induction false} MarkerIsNoHeader(line: string)
    requires IsSplit(line)
    ensures ParseChunkHeader(line) == Err
  {
    var s := Strip(line);
    RstripEnd(line);
    LstripEnd(Rstrip(line));
    RstripTailOf(s, 2);
    OneWord("SPLIT");
    NoField("SPLIT", "nthreads");
  }

  lemma NoField(word: string, key: string)
    requires '=' !in word
    ensures Field([word], key) == None
  {
  }

  lemma {:induction false} ParserRefusesMarkers(cpus: nat, oversubscribe: bool)
    ensures RefusesMarkers(IsSplit, BlobParser(cpus, oversubscribe))
  {
    forall header, body: seq<string> | IsSplit(header) ensures BlobParser(cpus, oversubscribe)(header, body).Err? {
      MarkerIsNoHeader(header);
    }
  }

  lemma {:induction false} HeaderNoSplit(b: Blob)
    requires b.table == [] || Word(b.table)
    ensures !IsSplit(HeaderLine(b))
  {
    HeaderRoundTrip(b);
    if IsSplit(HeaderLine(b)) { MarkerIsNoHeader(HeaderLine(b)); }
  }

  lemma {:induction false} BlobMarks(b: Blob)
    requires Printable(b)
    ensures Marks(BlobLines(b), IsSplit) == 1 + Marks(SqlLines(b), IsSplit)
  {
    SplitComment();
    QueryComment();
    HeaderNoSplit(b);
    SetupHasNoMarker(b.setup);
    NoneOfOne("--QUERY", IsSplit);
    NoneConcat(b.setup, ["--QUERY"], IsSplit);
    MarksOfSection("--SPLIT", HeaderLine(b), b.setup + ["--QUERY"], SqlLines(b), IsSplit);
    assert ["--SPLIT", HeaderLine(b)] + b.setup + ["--QUERY"] == ["--SPLIT", HeaderLine(b)] + (b.setup + ["--QUERY"]);
  }

  /** As many chunks as blobs only without a marker in a statement. */
  lemma {:induction false} CountedMeansGood(bs: seq<Blob>, cpus: nat, oversubscribe: bool)
    requires bs != [] && AllPrintable(bs)
    requires var r := ParseAll(Lines(Print(bs)), IsSplit, BlobParser(cpus, oversubscribe)); r.Ok? && |r.value| == |bs|
    ensures AllGood(bs)
  {
    var ls := EachBlob(bs);
    LinesOfPrint(bs);
    ParserRefusesMarkers(cpus, oversubscribe);
    SectionPerMark(Stacked(ls, ""), IsSplit, BlobParser(cpus, oversubscribe));
    BlankNoMarker();
    forall i | 0 <= i < |bs| ensures Marks(ls[i], IsSplit) >= 1 { BlobMarks(bs[i]); }
    StackMarks(ls, "", IsSplit);
    forall i | 0 <= i < |bs| ensures Good(bs[i]) {
      BlobMarks(bs[i]);
      NoMarksIff(SqlLines(bs[i]), IsSplit);
    }
  }

  /** The file reads back exactly if no line of a statement is a marker. */
  lemma {:induction false} LinesReadBackIff(bs: seq<Blob>, cpus: nat, oversubscribe: bool)
    requires bs != [] && AllPrintable(bs) && forall i :: 0 <= i < |bs| ==> WidthOk(bs[i].nthreads, cpus, oversubscribe)
    ensures ParseAll(Lines(Print(bs)), IsSplit, BlobParser(cpus, oversubscribe)) == Ok(ExpectedAll(bs)) <==> AllGood(bs)
  {
    if AllGood(bs) {
      LinesReadBack(bs, cpus, oversubscribe);
    } else if ParseAll(Lines(Print(bs)), IsSplit, BlobParser(cpus, oversubscribe)) == Ok(ExpectedAll(bs)) {
      CountedMeansGood(bs, cpus, oversubscribe);
    }
  }
}
