/** The string operations of the benchmark scripts. */
module Text {

  /** Characters that end a line when a string is split into lines. */
  predicate IsBreak(c: char) {
    '\n' <= c <= '\r' || '\U{1c}' <= c <= '\U{1e}' || c == '\U{85}' || c == '\U{2028}' || c == '\U{2029}'
  }

  predicate IsSpace(c: char) {
    || c == ' ' || c == '\t' || IsBreak(c) || c == '\U{1f}' || c == '\U{a0}' || c == '\U{1680}'
    || '\U{2000}' <= c <= '\U{200a}' || c == '\U{202f}' || c == '\U{205f}' || c == '\U{3000}'
  }

  function Lstrip(s: string): (r: string)
    ensures |r| <= |s| && (r == [] || !IsSpace(r[0]))
  {
    if s != [] && IsSpace(s[0]) then Lstrip(s[1..]) else s
  }

  function Rstrip(s: string): (r: string)
    ensures |r| <= |s|
  {
    if s != [] && IsSpace(s[|s| - 1]) then Rstrip(s[..|s| - 1]) else s
  }

  /** Stripping on the left leaves the right end alone, and may leave nothing only of white space. */
  lemma {:induction false} LstripEnd(s: string)
    requires s != [] && !IsSpace(s[|s| - 1])
    ensures Lstrip(s) != [] && Lstrip(s)[|Lstrip(s)| - 1] == s[|s| - 1]
  {
    if IsSpace(s[0]) { LstripEnd(s[1..]); }
  }

  lemma {:induction false} RstripEnd(s: string)
    ensures Rstrip(s) == [] || !IsSpace(Rstrip(s)[|Rstrip(s)| - 1])
  {
    if s != [] && IsSpace(s[|s| - 1]) { RstripEnd(s[..|s| - 1]); }
  }

  function Strip(s: string): string {
    Lstrip(Rstrip(s))
  }

  /** Dropping what may be dropped at the right end leaves the same as dropping all of it. */
  lemma {:induction false} RstripTail(s: string, t: string)
    requires forall i :: 0 <= i < |t| ==> IsSpace(t[i])
    ensures Rstrip(s + t) == Rstrip(s)
  {
    if t == [] {
      assert s + t == s;
    } else {
      var n := |t| - 1;
      assert (s + t)[|s + t| - 1] == t[n];
      assert (s + t)[..|s + t| - 1] == s + t[..n];
      RstripTail(s, t[..n]);
    }
  }

  lemma {:induction false} RstripFront(s: string, t: string)
    requires Rstrip(t) != []
    ensures Rstrip(s + t) == s + Rstrip(t)
  {
    var n := |t| - 1;
    assert (s + t)[|s + t| - 1] == t[n];
    if IsSpace(t[n]) {
      assert (s + t)[..|s + t| - 1] == s + t[..n];
      RstripFront(s, t[..n]);
    }
  }

  /** Trimmed already. */
  predicate Trimmed(s: string) {
    s == [] || (!IsSpace(s[0]) && !IsSpace(s[|s| - 1]))
  }

  lemma StripTrimmed(s: string)
    requires Trimmed(s)
    ensures Strip(s) == s && Lstrip(s) == s && Rstrip(s) == s
  {
    if s == [] {
    } else {
      assert !IsSpace(s[0]) && !IsSpace(s[|s| - 1]);
    }
  }

  lemma Associate<T>(a: seq<T>, b: seq<T>, c: seq<T>, d: seq<T>)
    ensures a + b + c + d == a + b + (c + d)
  {
  }

  // ---------------------------------------------------------------- splitting

  function IndexOf(s: string, c: char): (i: nat)
    ensures i <= |s| && (i < |s| ==> s[i] == c)
  {
    if s == [] || s[0] == c then 0 else 1 + IndexOf(s[1..], c)
  }

  lemma {:induction false} NotBefore(s: string, c: char)
    ensures c !in s[..IndexOf(s, c)]
  {
    if s != [] && s[0] != c {
      NotBefore(s[1..], c);
      assert s[..IndexOf(s, c)] == [s[0]] + s[1..][..IndexOf(s[1..], c)];
    }
  }

  lemma {:induction false} IndexOfAt(a: string, c: char, b: string)
    requires c !in a
    ensures IndexOf(a + [c] + b, c) == |a|
  {
    if a == [] {
      assert (a + [c] + b)[0] == c;
    } else {
      assert (a + [c] + b)[0] == a[0] && (a + [c] + b)[1..] == a[1..] + [c] + b;
      IndexOfAt(a[1..], c, b);
    }
  }

  /** What lies between the separators. */
  function Pieces(s: string, sep: char): (r: seq<string>)
    ensures r != []
    decreases |s|
  {
    var i := IndexOf(s, sep);
    if i == |s| then [s] else [s[..i]] + Pieces(s[i + 1..], sep)
  }

  function Join(pieces: seq<string>, sep: string): string {
    if pieces == [] then [] else if |pieces| == 1 then pieces[0] else pieces[0] + sep + Join(pieces[1..], sep)
  }

  /** Lines of a text, without their newlines; a last line need not end in one. */
  function Lines(t: string): seq<string>
    decreases |t|
  {
    if t == [] then []
    else
      var i := IndexOf(t, '\n');
      if i == |t| then [t] else [t[..i]] + Lines(t[i + 1..])
  }

  /** What reading a file in text mode makes of its text: every line end becomes a newline. */
  function Translated(t: string): string {
    if t == [] then []
    else if t[0] == '\r' then "\n" + Translated(if |t| > 1 && t[1] == '\n' then t[2..] else t[1..])
    else [t[0]] + Translated(t[1..])
  }

  lemma {:induction false} LineFirst(x: string, rest: string)
    requires '\n' !in x
    ensures Lines(x + "\n" + rest) == [x] + Lines(rest)
  {
    var t := x + "\n" + rest;
    IndexOfAt(x, '\n', rest);
    assert t[..|x|] == x && t[|x| + 1..] == rest;
  }

  lemma Cons<T>(x: T, s: seq<T>, t: seq<T>)
    ensures [x] + s + t == [x] + (s + t)
  {
  }

  lemma {:induction false} LinesOf(a: string, rest: string)
    ensures Lines(a + "\n" + rest) == Pieces(a, '\n') + Lines(rest)
    decreases |a|
  {
    var i := IndexOf(a, '\n');
    NotBefore(a, '\n');
    if i == |a| {
      assert a[..i] == a;
      LineFirst(a, rest);
    } else {
      LinesOf(a[i + 1..], rest);
      LineThen(a, i, rest);
      Cons(a[..i], Pieces(a[i + 1..], '\n'), Lines(rest));
    }
  }

  lemma {:induction false} LineThen(a: string, i: nat, rest: string)
    requires i < |a| && a[i] == '\n' && '\n' !in a[..i]
    ensures Lines(a + "\n" + rest) == [a[..i]] + Lines(a[i + 1..] + "\n" + rest)
  {
    Regroup(a, i, rest);
    LineFirst(a[..i], a[i + 1..] + "\n" + rest);
  }

  lemma Regroup(a: string, i: nat, rest: string)
    requires i < |a| && a[i] == '\n'
    ensures a + "\n" + rest == a[..i] + "\n" + (a[i + 1..] + "\n" + rest)
  {
  }

  /** Lines back to text, each with its newline. */
  function Unlines(lines: seq<string>): string {
    if lines == [] then [] else lines[0] + "\n" + Unlines(lines[1..])
  }

  lemma {:induction false} UnlinesConcat(a: seq<string>, b: seq<string>)
    ensures Unlines(a + b) == Unlines(a) + Unlines(b)
  {
    if a == [] {
      assert a + b == b;
      assert [] + Unlines(b) == Unlines(b);
    } else {
      UnlinesConcat(a[1..], b);
      assert (a + b)[1..] == a[1..] + b && (a + b)[0] == a[0];
      Associate(a[0], "\n", Unlines(a[1..]), Unlines(b));
    }
  }

  lemma {:induction false} UnlinesPieces(a: string)
    ensures Unlines(Pieces(a, '\n')) == a + "\n"
    decreases |a|
  {
    var i := IndexOf(a, '\n');
    if i == |a| {
      assert Unlines([a]) == a + "\n";
    } else {
      var x, y := a[..i], a[i + 1..];
      UnlinesPieces(y);
      UnlinesFirst(x, Pieces(y, '\n'));
      AtNewline(a, i);
    }
  }

  lemma AtNewline(a: string, i: nat)
    requires i < |a| && a[i] == '\n'
    ensures a[..i] + "\n" + (a[i + 1..] + "\n") == a + "\n"
  {
    assert a == a[..i] + "\n" + a[i + 1..];
  }

  lemma UnlinesFirst(x: string, tail: seq<string>)
    ensures Unlines([x] + tail) == x + "\n" + Unlines(tail)
  {
    assert ([x] + tail)[1..] == tail;
  }

  /** Maximal runs without white space. */
  function Words(s: string): seq<string>
    decreases |s|
  {
    var t := Lstrip(s);
    if t == [] then [] else var n := WordLength(t); [t[..n]] + Words(t[n..])
  }

  function WordLength(s: string): (n: nat)
    requires s != [] && !IsSpace(s[0])
    ensures 0 < n <= |s| && (forall i :: 0 <= i < n ==> !IsSpace(s[i])) && (n < |s| ==> IsSpace(s[n]))
  {
    if |s| == 1 || IsSpace(s[1]) then 1 else 1 + WordLength(s[1..])
  }

  ghost predicate Word(s: string) {
    s != [] && forall i :: 0 <= i < |s| ==> !IsSpace(s[i])
  }

  lemma {:induction false} WordLengthIs(w: string, rest: string)
    requires Word(w) && (rest == [] || IsSpace(rest[0]))
    ensures WordLength(w + rest) == |w|
  {
    var s := w + rest;
    assert s[0] == w[0];
    if |w| > 1 {
      assert s[1] == w[1];
      WordLengthIs(w[1..], rest);
      assert s[1..] == w[1..] + rest;
    }
  }

  lemma {:induction false} WordsFirst(w: string, rest: string)
    requires Word(w) && (rest == [] || IsSpace(rest[0]))
    ensures Words(w + rest) == [w] + Words(rest)
  {
    var s := w + rest;
    var n := WordLength(s);
    WordLengthIs(w, rest);
    assert Lstrip(s) == s;
    assert s[..n] == w && s[n..] == rest;
  }

  lemma WordsSpace(s: string)
    ensures Words(" " + s) == Words(s)
  {
    assert (" " + s)[1..] == s;
  }

  lemma JoinFirst(ws: seq<string>)
    requires |ws| > 1
    ensures Join(ws, " ") == ws[0] + (" " + Join(ws[1..], " "))
  {
  }

  /** Words joined by single spaces come apart again. */
  lemma {:induction false} JoinWords(ws: seq<string>)
    requires forall i :: 0 <= i < |ws| ==> Word(ws[i])
    ensures Words(Join(ws, " ")) == ws
  {
    if |ws| == 1 {
      OneWord(ws[0]);
    } else if |ws| > 1 {
      JoinWords(ws[1..]);
      var rest := Join(ws[1..], " ");
      JoinFirst(ws);
      WordThen(ws[0], rest);
      assert ws == [ws[0]] + ws[1..];
    }
  }

  lemma OneWord(w: string)
    requires Word(w)
    ensures Words(w) == [w]
  {
    assert w + [] == w;
    WordsFirst(w, []);
  }

  lemma WordThen(w: string, rest: string)
    requires Word(w)
    ensures Words(w + (" " + rest)) == [w] + Words(rest)
  {
    WordsFirst(w, " " + rest);
    WordsSpace(rest);
  }

  lemma {:induction false} JoinTrimmed(ws: seq<string>)
    requires ws != [] && forall i :: 0 <= i < |ws| ==> Word(ws[i])
    ensures Join(ws, " ") != [] && Trimmed(Join(ws, " "))
  {
    if |ws| > 1 {
      JoinTrimmed(ws[1..]);
      var s, t := Join(ws, " "), Join(ws[1..], " ");
      assert s == ws[0] + " " + t;
      assert s[0] == ws[0][0] && s[|s| - 1] == t[|t| - 1];
    }
  }

  predicate StartsWith(s: string, prefix: string) {
    |prefix| <= |s| && s[..|prefix|] == prefix
  }

  predicate Contains(s: string, t: string) {
    StartsWith(s, t) || (s != [] && Contains(s[1..], t))
  }

  // ---------------------------------------------------------------- numbers

  function Digit(d: nat): char
    requires d < 10
  {
    "0123456789"[d]
  }

  function Decimal(n: nat): (s: string)
    ensures s != []
  {
    if n < 10 then [Digit(n)] else Decimal(n / 10) + [Digit(n % 10)]
  }

  predicate IsDigit(c: char) {
    '0' <= c <= '9'
  }

  function ParseNat(s: string): (int, bool) {
    if s == [] then (0, false)
    else
      var c := s[|s| - 1];
      if !IsDigit(c) then (0, false)
      else if |s| == 1 then (c as int - '0' as int, true)
      else
        var (front, ok) := ParseNat(s[..|s| - 1]);
        (10 * front + (c as int - '0' as int), ok)
  }

  lemma {:induction false} DecimalRoundTrip(n: nat)
    ensures ParseNat(Decimal(n)) == (n, true)
    ensures forall i :: 0 <= i < |Decimal(n)| ==> IsDigit(Decimal(n)[i])
  {
    DigitIs(n % 10);
    if n >= 10 {
      DecimalRoundTrip(n / 10);
      assert Decimal(n)[..|Decimal(n)| - 1] == Decimal(n / 10);
    }
  }

  lemma DigitIs(d: nat)
    requires d < 10
    ensures IsDigit(Digit(d)) && Digit(d) as int - '0' as int == d
  {
  }
}
