/**
 Benchmark files: the generator prints blobs, the runner and the equivalence check each
 parse them with a parser of their own.
 */
module Blobs {
  import opened Sections
  import opened Text
  import opened Wrappers

  // ---------------------------------------------------------------- printing

  datatype Blob = Blob(nthreads: nat, ndata: nat, nlambdas: nat, table: string, setup: seq<string>, sql: string)

  function Token(key: string, value: string): string {
    key + "=" + value
  }

  function Tokens(b: Blob): seq<string> {
    [Token("nthreads", Decimal(b.nthreads)), Token("ndata", Decimal(b.ndata)), Token("nlambdas", Decimal(b.nlambdas))]
    + (if b.table == [] then [] else [Token("table", b.table)])
  }

  function HeaderLine(b: Blob): string {
    "-- " + Join(Tokens(b), " ")
  }

  /** The lines before the statement. */
  function HeaderLines(b: Blob): seq<string> {
    ["--SPLIT", HeaderLine(b)] + b.setup + ["--QUERY"]
  }

  method BlobHeader(b: Blob) returns (head: string)
    ensures head == Unlines(HeaderLines(b))
  {
    var line := HeaderText(b);
    head := "--SPLIT\n" + line + "\n";
    ghost var top := ["--SPLIT", HeaderLine(b)];
    TopLines(b);
    var i := 0;
    assert top + b.setup[..0] == top;
    while i < |b.setup|
      invariant 0 <= i <= |b.setup| && head == Unlines(top + b.setup[..i])
    {
      UnlinesConcat(top + b.setup[..i], [b.setup[i]]);
      assert top + b.setup[..i] + [b.setup[i]] == top + b.setup[..i + 1];
      OneLine(b.setup[i]);
      head := head + b.setup[i] + "\n";
      i := i + 1;
    }
    assert b.setup[..i] == b.setup;
    UnlinesConcat(top + b.setup, ["--QUERY"]);
    OneLine("--QUERY");
    head := head + "--QUERY\n";
  }

  method HeaderText(b: Blob) returns (line: string)
    ensures line == HeaderLine(b)
  {
    var w, n, m := Token("nthreads", Decimal(b.nthreads)), Token("ndata", Decimal(b.ndata)), Token("nlambdas", Decimal(b.nlambdas));
    var fields := w + " " + n + " " + m;
    JoinThree(w, n, m, " ");
    if b.table != [] {
      JoinLast([w, n, m], Token("table", b.table), " ");
      fields := fields + " " + Token("table", b.table);
    } else {
      assert [w, n, m] + [] == [w, n, m];
    }
    line := "-- " + fields;
  }

  lemma {:induction false} JoinLast(ws: seq<string>, w: string, sep: string)
    requires ws != []
    ensures Join(ws + [w], sep) == Join(ws, sep) + sep + w
  {
    if |ws| == 1 {
      assert (ws + [w])[1..] == [w];
    } else {
      JoinLast(ws[1..], w, sep);
      assert (ws + [w])[1..] == ws[1..] + [w];
      var rest := Join(ws[1..], sep);
      assert ws[0] + sep + (rest + sep + w) == ws[0] + sep + rest + sep + w;
    }
  }

  lemma JoinThree(a: string, b: string, c: string, sep: string)
    ensures Join([a, b, c], sep) == a + sep + b + sep + c
  {
    JoinLast([a], b, sep);
    JoinLast([a] + [b], c, sep);
    assert [a, b, c] == [a] + [b] + [c];
  }

  lemma OneLine(s: string)
    ensures Unlines([s]) == s + "\n"
  {
  }

  lemma TopLines(b: Blob)
    ensures Unlines(["--SPLIT", HeaderLine(b)]) == "--SPLIT\n" + HeaderLine(b) + "\n"
  {
    UnlinesConcat(["--SPLIT"], [HeaderLine(b)]);
    OneLine("--SPLIT");
    OneLine(HeaderLine(b));
    assert ["--SPLIT", HeaderLine(b)] == ["--SPLIT"] + [HeaderLine(b)];
  }

  function PrintBlob(b: Blob): string {
    Rstrip(Unlines(HeaderLines(b)) + b.sql)
  }

  /** A file: blobs trimmed on the right, an empty line between them, a newline at the end. */
  function Print(bs: seq<Blob>): string
    requires bs != []
  {
    if |bs| == 1 then PrintBlob(bs[0]) + "\n" else PrintBlob(bs[0]) + "\n\n" + Print(bs[1..])
  }

  // ---------------------------------------------------------------- markers and headers

  /** A comment that holds nothing but one word. */
  predicate IsMarker(line: string, word: string) {
    var s := Strip(line);
    StartsWith(s, "--") && Lstrip(s[2..]) == word
  }

  function KeyOf(token: string): string {
    token[..IndexOf(token, '=')]
  }

  function ValueOf(token: string): string {
    if IndexOf(token, '=') == |token| then [] else token[IndexOf(token, '=') + 1..]
  }

  /** The value of the last field of that name. */
  function Field(tokens: seq<string>, key: string): Option<string> {
    if tokens == [] then None
    else
      var last := tokens[|tokens| - 1];
      if '=' in last && KeyOf(last) == key then Some(ValueOf(last)) else Field(tokens[..|tokens| - 1], key)
  }

  function NonEmpty(s: seq<string>): seq<string> {
    if s == [] then [] else (if s[0] == [] then [] else [s[0]]) + NonEmpty(s[1..])
  }

  datatype Header = Header(nthreads: int, ndata: int, nlambdas: int, tables: seq<string>)

  function Number(field: Option<string>): Option<int> {
    match field
    case None => None
    case Some(s) => var (n, ok) := ParseNat(s); if ok then Some(n) else None
  }

  function ParseFields(tokens: seq<string>): Result<Header> {
    var tables := match Field(tokens, "table") case None => [] case Some(v) => NonEmpty(Pieces(v, ','));
    match (Number(Field(tokens, "nthreads")), Number(Field(tokens, "ndata")), Number(Field(tokens, "nlambdas")))
    case (Some(w), Some(n), Some(m)) => Ok(Header(w, n, m, tables))
    case _ => Err
  }

  function ParseChunkHeader(line: string): Result<Header> {
    var s := Strip(line);
    ParseFields(Words(if StartsWith(s, "--") then Strip(s[2..]) else s))
  }

  // ---------------------------------------------------------------- the runner's parser

  datatype Chunk = Chunk(header: Header, setup: seq<string>, sql: string)

  function TrimSemicolons(s: string): string {
    if s != [] && s[|s| - 1] == ';' then TrimSemicolons(s[..|s| - 1]) else s
  }

  /** Lines that are neither blank nor comments, trimmed. */
  function Statements(lines: seq<string>): seq<string> {
    if lines == [] then []
    else
      var s := Strip(lines[0]);
      (if s != [] && !StartsWith(s, "--") then [s] else []) + Statements(lines[1..])
  }

  const WIDTH_MARKER := "NTHREADS_MARKER"

  /** Width limit: the CPUs there are, unless the runner may oversubscribe them. */
  predicate WidthOk(w: int, cpus: nat, oversubscribe: bool) {
    w >= 1 && (w <= cpus || oversubscribe)
  }

  function IsSplit(line: string): bool {
    IsMarker(line, "SPLIT")
  }

  function IsQuery(line: string): bool {
    IsMarker(line, "QUERY")
  }

  function ParseBody(h: Header, body: seq<string>): Result<Chunk> {
    var q := First(body, IsQuery);
    if q == |body| then Err
    else
      var sql := Strip(Unlines(body[q + 1..]));
      if sql == [] || Contains(sql, WIDTH_MARKER) then Err
      else Ok(Chunk(h, Statements(body[..q]), TrimSemicolons(Rstrip(sql))))
  }

  function ParseBlob(header: string, body: seq<string>, cpus: nat, oversubscribe: bool): Result<Chunk> {
    match ParseChunkHeader(header)
    case Err => Err
    case Ok(h) => if WidthOk(h.nthreads, cpus, oversubscribe) then ParseBody(h, body) else Err
  }

  function BlobParser(cpus: nat, oversubscribe: bool): (string, seq<string>) -> Result<Chunk> {
    (header: string, body: seq<string>) => ParseBlob(header, body, cpus, oversubscribe)
  }

  /** The runner's parser of a file's text; a file without a blob is an error. */
  method SplitBenchmarkFile(text: string, cpus: nat, oversubscribe: bool) returns (r: Result<seq<Chunk>>)
    ensures var all := ParseAll(Lines(Translated(text)), IsSplit, BlobParser(cpus, oversubscribe)); r == if all == Ok([]) then Err else all
  {
    r := SplitSections(Lines(Translated(text)), IsSplit, BlobParser(cpus, oversubscribe));
  }
}
