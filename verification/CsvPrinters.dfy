/**
 * The two printers whose output the reader of CsvParser reads back: the import upload
 * (frontend/src/api.ts), which quotes as RFC 4180 section 2, rules 5 to 7, asks, and the lead export
 * (frontend/src/components/ExportModal.tsx), which does not double quotes.
 */
module CsvPrinters {
  import opened Text
  import opened CsvParser
  import opened CsvReading

  // ----- quoting -----

  function Escape(s: string): string {
    if s == [] then [] else (if s[0] == QUOTE then [QUOTE, QUOTE] else [s[0]]) + Escape(s[1..])
  }

  function Quoted(s: string): string { [QUOTE] + Escape(s) + [QUOTE] }

  /** The export's cell: quotes around, none doubled. */
  function Bare(s: string): string { [QUOTE] + s + [QUOTE] }

  function QuotedAll(cells: seq<string>): (r: seq<string>)
    ensures |r| == |cells|
    ensures forall i :: 0 <= i < |r| ==> r[i] == Quoted(cells[i])
  {
    if cells == [] then [] else [Quoted(cells[0])] + QuotedAll(cells[1..])
  }

  function PrintRow(cells: seq<string>, d: char): string { Join(QuotedAll(cells), [d]) }

  function PrintRows(grid: Grid, d: char): (r: seq<string>)
    ensures |r| == |grid|
    ensures forall i :: 0 <= i < |r| ==> r[i] == PrintRow(grid[i], d)
  {
    if grid == [] then [] else [PrintRow(grid[0], d)] + PrintRows(grid[1..], d)
  }

  // ----- cutting what was joined -----

  /** Whether the reader stands inside quotes after `s`. */
  function Inside(s: string, quoted: bool): bool {
    if s == [] then quoted else Inside(s[1..], (s[0] == QUOTE) != quoted)
  }

  /** No `c` of `s` separates, and `s` closes what it opens. */
  predicate Sealed(s: string, c: char) { Pieces(s, c, false) == [s] && !Inside(s, false) }

  lemma WholeTail(a: string, c: char, quoted: bool)
    requires a != [] && Pieces(a, c, quoted) == [a]
    ensures (a[0] != c || quoted) && Pieces(a[1..], c, (a[0] == QUOTE) != quoted) == [a[1..]]
  {
    if a[0] != c || quoted {
      var rest := Pieces(a[1..], c, (a[0] == QUOTE) != quoted);
      assert |[[a[0]] + rest[0]] + rest[1..]| == |rest|;
      assert ([[a[0]] + rest[0]] + rest[1..])[0] == a;
      assert rest[0] == ([a[0]] + rest[0])[1..];
    }
  }

  lemma PiecesStep(s: string, c: char, quoted: bool)
    requires s != [] && (s[0] != c || quoted)
    ensures var rest := Pieces(s[1..], c, (s[0] == QUOTE) != quoted);
      Pieces(s, c, quoted) == [[s[0]] + rest[0]] + rest[1..]
  {
  }

  lemma {:induction false} InsideAppend(a: string, b: string, quoted: bool)
    ensures Inside(a + b, quoted) == Inside(b, Inside(a, quoted))
  {
    if a == [] {
      assert a + b == b;
    } else {
      assert (a + b)[1..] == a[1..] + b && (a + b)[0] == a[0];
      InsideAppend(a[1..], b, (a[0] == QUOTE) != quoted);
    }
  }

  lemma {:induction false} PiecesAppend(a: string, b: string, c: char, quoted: bool)
    requires Pieces(a, c, quoted) == [a]
    ensures var p := Pieces(b, c, Inside(a, quoted)); Pieces(a + b, c, quoted) == [a + p[0]] + p[1..]
    ensures Inside(a + b, quoted) == Inside(b, Inside(a, quoted))
  {
    InsideAppend(a, b, quoted);
    if a == [] {
      var p := Pieces(b, c, Inside(a, quoted));
      assert a + b == b && [] + p[0] == p[0];
    } else {
      WholeTail(a, c, quoted);
      hide Pieces, Inside;
      PiecesAppend(a[1..], b, c, (a[0] == QUOTE) != quoted);
      OneMore(a, b, c, quoted);
    }
  }

  /** What holds behind the first character holds with it. */
  lemma OneMore(a: string, b: string, c: char, quoted: bool)
    requires a != [] && (a[0] != c || quoted)
    requires var next := (a[0] == QUOTE) != quoted; var p := Pieces(b, c, Inside(a[1..], next));
      Pieces(a[1..] + b, c, next) == [a[1..] + p[0]] + p[1..]
    ensures var p := Pieces(b, c, Inside(a, quoted)); Pieces(a + b, c, quoted) == [a + p[0]] + p[1..]
  {
    var next := (a[0] == QUOTE) != quoted;
    assert Inside(a, quoted) == Inside(a[1..], next);
    hide Inside;
    assert (a + b)[1..] == a[1..] + b && (a + b)[0] == a[0];
    PiecesStep(a + b, c, quoted);
    hide Pieces;
    var p := Pieces(b, c, Inside(a, quoted));
    assert [a[0]] + (a[1..] + p[0]) == a + p[0];
  }

  lemma PiecesOne(x: char, c: char, quoted: bool)
    requires x != c || quoted
    ensures Pieces([x], c, quoted) == [[x]] && Inside([x], quoted) == ((x == QUOTE) != quoted)
  {
    assert [x][1..] == [];
    assert Pieces([], c, (x == QUOTE) != quoted) == [[]];
    assert [x] + [] == [x] && [[x]] + [] == [[x]];
  }

  lemma SealedAppend(a: string, b: string, c: char)
    requires Sealed(a, c) && Sealed(b, c)
    ensures Sealed(a + b, c)
  {
    PiecesAppend(a, b, c, false);
  }

  lemma {:induction false} SealedPlain(s: string, c: char)
    requires QUOTE !in s && c !in s
    ensures Sealed(s, c)
  {
    if s != [] {
      SealedPlain(s[1..], c);
      assert s == [s[0]] + s[1..];
    }
  }

  lemma {:induction false} EscapeInside(s: string, c: char)
    requires c != QUOTE
    ensures Pieces(Escape(s), c, true) == [Escape(s)] && Inside(Escape(s), true)
  {
    if s != [] {
      EscapeInside(s[1..], c);
      var head: string := if s[0] == QUOTE then [QUOTE, QUOTE] else [s[0]];
      PiecesOne(s[0], c, true);
      PiecesOne(QUOTE, c, false);
      if s[0] == QUOTE {
        PiecesAppend([QUOTE], [QUOTE], c, true);
        assert [QUOTE] + [QUOTE] == head;
      }
      PiecesAppend(head, Escape(s[1..]), c, true);
    }
  }

  lemma SealedQuoted(s: string, c: char)
    requires c != QUOTE
    ensures Sealed(Quoted(s), c)
  {
    EscapeInside(s, c);
    PiecesOne(QUOTE, c, true);
    PiecesAppend(Escape(s), [QUOTE], c, true);
    PiecesOne(QUOTE, c, false);
    PiecesAppend([QUOTE], Escape(s) + [QUOTE], c, false);
    assert Quoted(s) == [QUOTE] + (Escape(s) + [QUOTE]);
  }

  /** Cutting a join of sealed parts gives the parts back. */
  lemma {:induction false} PiecesJoin(parts: seq<string>, c: char)
    requires c != QUOTE && parts != [] && forall p :: p in parts ==> Sealed(p, c)
    ensures Pieces(Join(parts, [c]), c, false) == parts
  {
    assert Sealed(parts[0], c);
    if |parts| > 1 {
      var rest := Join(parts[1..], [c]);
      PiecesJoin(parts[1..], c);
      assert ([c] + rest)[1..] == rest;
      PiecesAppend(parts[0], [c] + rest, c, false);
      assert parts[0] + ([c] + rest) == parts[0] + [c] + rest && parts[0] + [] == parts[0];
    }
  }

  lemma {:induction false} SealedJoin(parts: seq<string>, separator: char, c: char)
    requires separator != c && separator != QUOTE && forall p :: p in parts ==> Sealed(p, c)
    ensures Sealed(Join(parts, [separator]), c)
  {
    if |parts| > 1 {
      SealedJoin(parts[1..], separator, c);
      SealedPlain([separator], c);
      SealedAppend(parts[0], [separator], c);
      SealedAppend(parts[0] + [separator], Join(parts[1..], [separator]), c);
    }
  }

  lemma SealedRow(cells: seq<string>, d: char, c: char)
    requires d != c && d != QUOTE && c != QUOTE
    ensures Sealed(PrintRow(cells, d), c)
  {
    forall p | p in QuotedAll(cells) ensures Sealed(p, c) {
      var i :| 0 <= i < |cells| && p == Quoted(cells[i]);
      SealedQuoted(cells[i], c);
    }
    SealedJoin(QuotedAll(cells), d, c);
  }

  // ----- unquoting what was quoted -----

  lemma EscapeStep(s: string, rest: string)
    requires s != []
    ensures Escape(s) + [QUOTE] + rest
         == (if s[0] == QUOTE then [QUOTE, QUOTE] else [s[0]]) + (Escape(s[1..]) + [QUOTE] + rest)
  {
  }

  lemma DecodeStep(c: char, tail: string)
    ensures Decode((if c == QUOTE then [QUOTE, QUOTE] else [c]) + tail, true) == [c] + Decode(tail, true)
  {
    if c == QUOTE {
      assert ([QUOTE, QUOTE] + tail)[2..] == tail;
    } else {
      assert ([c] + tail)[1..] == tail;
    }
  }

  lemma {:induction false} DecodeEscape(s: string, rest: string)
    requires rest == [] || rest[0] != QUOTE
    ensures Decode(Escape(s) + [QUOTE] + rest, true) == s + Decode(rest, false)
  {
    if s == [] {
      assert Escape(s) + [QUOTE] + rest == [QUOTE] + rest;
    } else {
      var tail := Escape(s[1..]) + [QUOTE] + rest;
      DecodeEscape(s[1..], rest);
      EscapeStep(s, rest);
      DecodeStep(s[0], tail);
      assert s[1..] + Decode(rest, false) == Decode(tail, true);
      assert s == [s[0]] + s[1..];
    }
  }

  lemma DecodeQuoted(s: string, rest: string)
    requires rest == [] || rest[0] != QUOTE
    ensures Decode(Quoted(s) + rest, false) == s + Decode(rest, false)
  {
    DecodeEscape(s, rest);
    assert Quoted(s) + rest == [QUOTE] + (Escape(s) + [QUOTE] + rest);
  }

  lemma PrintRowStep(cells: seq<string>, d: char)
    ensures |cells| == 1 ==> PrintRow(cells, d) == Quoted(cells[0])
    ensures |cells| > 1 ==> PrintRow(cells, d) == Quoted(cells[0]) + ([d] + PrintRow(cells[1..], d))
  {
    if |cells| > 1 { assert QuotedAll(cells)[1..] == QuotedAll(cells[1..]); }
  }

  lemma JoinStep(parts: seq<string>, separator: string)
    ensures |parts| > 1 ==> Join(parts, separator) == parts[0] + (separator + Join(parts[1..], separator))
  {
  }

  lemma {:induction false} DecodeRow(cells: seq<string>, d: char)
    requires d != QUOTE
    ensures Decode(PrintRow(cells, d), false) == Join(cells, [d])
  {
    if |cells| == 1 {
      PrintRowStep(cells, d);
      DecodeQuoted(cells[0], []);
      assert Quoted(cells[0]) + [] == Quoted(cells[0]);
    } else if |cells| > 1 {
      PrintRowStep(cells, d);
      hide PrintRow, Quoted;
      var row := PrintRow(cells[1..], d);
      DecodeRow(cells[1..], d);
      DecodeQuoted(cells[0], [d] + row);
      assert ([d] + row)[1..] == row;
      JoinStep(cells, [d]);
    }
  }

  lemma CutPrintedRow(cells: seq<string>, d: char)
    requires d != QUOTE && cells != []
    ensures Pieces(PrintRow(cells, d), d, false) == QuotedAll(cells)
  {
    hide Quoted, Sealed;
    forall p | p in QuotedAll(cells) ensures Sealed(p, d) {
      var i :| 0 <= i < |cells| && p == Quoted(cells[i]);
      SealedQuoted(cells[i], d);
    }
    PiecesJoin(QuotedAll(cells), d);
  }

  lemma DecodePrintedCells(cells: seq<string>)
    ensures Cells(QuotedAll(cells)) == TrimAll(cells)
  {
    hide Quoted;
    forall i | 0 <= i < |cells| ensures Cells(QuotedAll(cells))[i] == TrimAll(cells)[i] {
      DecodeQuoted(cells[i], []);
      assert Quoted(cells[i]) + [] == Quoted(cells[i]) && cells[i] + [] == cells[i];
    }
  }

  /** A printed row read with its own delimiter gives back its cells, trimmed. */
  lemma ReadPrintedRow(cells: seq<string>, d: char)
    requires d != QUOTE && cells != []
    ensures RowOf(PrintRow(cells, d), d) == TrimAll(cells)
  {
    CutPrintedRow(cells, d);
    DecodePrintedCells(cells);
  }

  /** Read with any other delimiter it is one cell. */
  lemma ReadMisprintedRow(cells: seq<string>, d: char, other: char)
    requires d != other && d != QUOTE && other != QUOTE
    ensures RowOf(PrintRow(cells, d), other) == [Trim(Browser, Join(cells, [d]))]
  {
    SealedRow(cells, d, other);
    DecodeRow(cells, d);
  }

  // ----- newlines inside cells -----

  function UnixAll(cells: seq<string>): (r: seq<string>)
    ensures |r| == |cells|
    ensures forall i :: 0 <= i < |r| ==> r[i] == UnixLines(cells[i])
  {
    if cells == [] then [] else [UnixLines(cells[0])] + UnixAll(cells[1..])
  }

  /** What reading a printed grid should give: cells newline-normalised and trimmed. */
  function Tidy(grid: Grid): (r: Grid)
    ensures |r| == |grid|
    ensures forall i :: 0 <= i < |r| ==> r[i] == TrimAll(UnixAll(grid[i]))
  {
    if grid == [] then [] else [TrimAll(UnixAll(grid[0]))] + Tidy(grid[1..])
  }

  lemma {:induction false} CrToLfAppend(a: string, b: string)
    ensures CrToLf(a + b) == CrToLf(a) + CrToLf(b)
  {
    if a == [] {
      assert a + b == b;
    } else {
      assert (a + b)[1..] == a[1..] + b;
      CrToLfAppend(a[1..], b);
    }
  }

  lemma CrLfPair(s: string)
    ensures CrLfToLf(['\r', '\n'] + s) == ['\n'] + CrLfToLf(s)
  {
    assert (['\r', '\n'] + s)[2..] == s;
  }

  lemma CrLfOther(c: char, s: string)
    requires c != '\r' || s == [] || s[0] != '\n'
    ensures CrLfToLf([c] + s) == [c] + CrLfToLf(s)
  {
    assert ([c] + s)[1..] == s;
  }

  lemma {:induction false} CrLfAppend(a: string, b: string)
    requires a == [] || b == [] || a[|a| - 1] != '\r' || b[0] != '\n'
    ensures CrLfToLf(a + b) == CrLfToLf(a) + CrLfToLf(b)
    decreases |a|
  {
    if a == [] {
      assert a + b == b && CrLfToLf(a) == [];
    } else if a[0] == '\r' && |a| > 1 && a[1] == '\n' {
      hide CrLfToLf;
      var t := a[2..];
      assert a == ['\r', '\n'] + t && a + b == ['\r', '\n'] + (t + b);
      CrLfAppend(t, b);
      CrLfPair(t);
      CrLfPair(t + b);
    } else {
      hide CrLfToLf;
      var t := a[1..];
      assert a == [a[0]] + t && a + b == [a[0]] + (t + b);
      CrLfAppend(t, b);
      CrLfOther(a[0], t);
      CrLfOther(a[0], t + b);
    }
  }

  /** Newline normalisation works on both sides of any seam that does not split a CRLF. */
  lemma UnixAppend(a: string, b: string)
    requires a == [] || b == [] || a[|a| - 1] != '\r' || b[0] != '\n'
    ensures UnixLines(a + b) == UnixLines(a) + UnixLines(b)
  {
    CrLfAppend(a, b);
    CrToLfAppend(CrLfToLf(a), CrLfToLf(b));
  }

  lemma {:induction false} UnixPlain(s: string)
    requires '\r' !in s
    ensures UnixLines(s) == s
  {
    if s != [] {
      UnixAppend([s[0]], s[1..]);
      assert s == [s[0]] + s[1..];
      UnixPlain(s[1..]);
    }
  }

  /** CRLF is one line feed. */
  lemma CrLfIsNewline(a: string, b: string)
    ensures UnixLines(a + ("\r\n" + b)) == UnixLines(a) + ("\n" + UnixLines(b))
  {
    UnixCrLf();
    assert ['\r', '\n'] == "\r\n" && ['\n'] == "\n";
    hide UnixLines;
    UnixAppend(a, "\r\n" + b);
    UnixAppend("\r\n", b);
  }

  /** A lone CR is a line feed. */
  lemma CrIsNewline(a: string, b: string)
    requires b == [] || b[0] != '\n'
    ensures UnixLines(a + ("\r" + b)) == UnixLines(a) + ("\n" + UnixLines(b))
  {
    assert CrLfToLf("\r") == "\r" && "\r"[1..] == "" && UnixLines("\r") == "\n";
    hide UnixLines;
    UnixAppend(a, "\r" + b);
    UnixAppend("\r", b);
  }

  lemma EscapeAppend(a: string, b: string)
    ensures Escape(a + b) == Escape(a) + Escape(b)
  {
    if a == [] {
      assert a + b == b;
    } else {
      assert (a + b)[1..] == a[1..] + b;
      EscapeAppend(a[1..], b);
    }
  }

  lemma EscapeEnds(s: string)
    ensures s == [] <==> Escape(s) == []
    ensures s != [] ==> Escape(s)[0] == s[0]
  {
  }

  lemma EscapeOne(c: char)
    ensures Escape([c]) == if c == QUOTE then [QUOTE, QUOTE] else [c]
    ensures UnixLines(Escape([c])) == Escape(UnixLines([c]))
  {
    assert [c][1..] == [] && ['\n'][1..] == [] && CrLfToLf([c]) == [c];
    var u := if c == '\r' then '\n' else c;
    assert CrToLf([c]) == [u] && [u][1..] == [];
    if c == QUOTE { UnixPlain([QUOTE, QUOTE]); UnixPlain([QUOTE]); }
  }

  lemma UnixCrLf()
    ensures UnixLines(['\r', '\n']) == ['\n'] && Escape(['\r', '\n']) == ['\r', '\n'] && Escape(['\n']) == ['\n']
  {
    assert ['\r', '\n'][2..] == [] && ['\r', '\n'][1..] == ['\n'] && ['\n'][1..] == [];
  }

  /** Doubling quotes and normalising newlines do not interfere. */
  lemma {:induction false} UnixEscape(s: string)
    ensures UnixLines(Escape(s)) == Escape(UnixLines(s))
    decreases |s|
  {
    if s != [] {
      var n := if s[0] == '\r' && |s| > 1 && s[1] == '\n' then 2 else 1;
      var head, tail := s[..n], s[n..];
      assert s == head + tail;
      UnixCrLf();
      EscapeOne(s[0]);
      assert n == 1 ==> head == [s[0]];
      assert n == 2 ==> head == ['\r', '\n'];
      EscapeEnds(tail);
      UnixEscape(tail);
      hide UnixLines, Escape;
      EscapeAppend(head, tail);
      EscapeAppend(UnixLines(head), UnixLines(tail));
      UnixAppend(head, tail);
      UnixAppend(Escape(head), Escape(tail));
    }
  }

  lemma UnixQuoted(s: string)
    ensures UnixLines(Quoted(s)) == Quoted(UnixLines(s))
  {
    UnixEscape(s);
    UnixAppend([QUOTE] + Escape(s), [QUOTE]);
    UnixAppend([QUOTE], Escape(s));
  }

  lemma {:induction false} PrintRowEnds(cells: seq<string>, d: char)
    requires cells != []
    ensures PrintRow(cells, d) != [] && PrintRow(cells, d)[0] == QUOTE
    ensures PrintRow(cells, d)[|PrintRow(cells, d)| - 1] == QUOTE
  {
    PrintRowStep(cells, d);
    if |cells| > 1 { PrintRowEnds(cells[1..], d); }
  }

  lemma {:induction false} UnixRow(cells: seq<string>, d: char)
    requires d != '\r' && d != '\n' && cells != []
    ensures UnixLines(PrintRow(cells, d)) == PrintRow(UnixAll(cells), d)
  {
    UnixQuoted(cells[0]);
    PrintRowStep(cells, d);
    PrintRowStep(UnixAll(cells), d);
    if |cells| > 1 {
      assert UnixAll(cells)[1..] == UnixAll(cells[1..]);
      PrintRowEnds(cells[1..], d);
      var rest := PrintRow(cells[1..], d);
      UnixRow(cells[1..], d);
      UnixPlain([d]);
      hide PrintRow, UnixLines;
      UnixAppend(Quoted(cells[0]), [d] + rest);
      UnixAppend([d], rest);
    }
  }

  // ----- the import upload -----

  /** A byte-order mark, quoted rows, CRLF between rows and after the last. */
  function UploadText(grid: Grid): string {
    [BOM] + (Join(PrintRows(grid, ','), ['\r', '\n']) + ['\r', '\n'])
  }

  function UnixGrid(grid: Grid): (r: Grid)
    ensures |r| == |grid|
    ensures forall i :: 0 <= i < |r| ==> r[i] == UnixAll(grid[i])
  {
    if grid == [] then [] else [UnixAll(grid[0])] + UnixGrid(grid[1..])
  }

  lemma PrintRowsStep(grid: Grid, d: char, separator: string)
    requires grid != []
    ensures |grid| == 1 ==> Join(PrintRows(grid, d), separator) == PrintRow(grid[0], d)
    ensures |grid| > 1 ==>
      Join(PrintRows(grid, d), separator)
      == PrintRow(grid[0], d) + (separator + Join(PrintRows(grid[1..], d), separator))
  {
    JoinStep(PrintRows(grid, d), separator);
    assert PrintRows(grid, d)[1..] == PrintRows(grid[1..], d);
  }

  lemma UnixLine(line: string, rest: string)
    requires line != [] && line[|line| - 1] == QUOTE
    ensures UnixLines(line + (['\r', '\n'] + rest)) == UnixLines(line) + (['\n'] + UnixLines(rest))
  {
    UnixCrLf();
    hide UnixLines;
    UnixAppend(line, ['\r', '\n'] + rest);
    UnixAppend(['\r', '\n'], rest);
  }

  lemma {:induction false} UnixRows(grid: Grid)
    requires grid != [] && forall row :: row in grid ==> row != []
    ensures UnixLines(Join(PrintRows(grid, ','), ['\r', '\n']) + ['\r', '\n'])
         == Join(PrintRows(UnixGrid(grid), ','), ['\n']) + ['\n']
  {
    hide *;
    var crlf := ['\r', '\n'];
    var first := PrintRow(grid[0], ',');
    PrintRowsStep(grid, ',', crlf);
    PrintRowsStep(UnixGrid(grid), ',', ['\n']);
    assert grid[0] in grid;
    UnixRow(grid[0], ',');
    PrintRowEnds(grid[0], ',');
    if |grid| > 1 {
      assert forall row :: row in grid[1..] ==> row in grid;
      UnixRows(grid[1..]);
      assert UnixGrid(grid)[1..] == UnixGrid(grid[1..]);
      var rest := Join(PrintRows(grid[1..], ','), crlf);
      UnixLine(first, rest + crlf);
      assert first + (crlf + rest) + crlf == first + (crlf + (rest + crlf));
    } else {
      UnixLine(first, []);
      assert crlf + [] == crlf;
      UnixPlain([]);
    }
  }

  lemma {:induction false} JoinSnoc(parts: seq<string>, last: string, separator: string)
    requires parts != []
    ensures Join(parts + [last], separator) == Join(parts, separator) + (separator + last)
  {
    if |parts| > 1 {
      assert (parts + [last])[1..] == parts[1..] + [last] && (parts + [last])[0] == parts[0];
      JoinSnoc(parts[1..], last, separator);
      assert parts[0] + separator + (Join(parts[1..], separator) + (separator + last))
        == (parts[0] + separator + Join(parts[1..], separator)) + (separator + last);
    } else {
      assert (parts + [last])[1..] == [last];
      assert parts[0] + separator + last == parts[0] + (separator + last);
    }
  }

  lemma JoinLast(parts: seq<string>, separator: string)
    requires parts != []
    ensures Join(parts + [[]], separator) == Join(parts, separator) + separator
  {
    JoinSnoc(parts, [], separator);
    assert separator + [] == separator;
  }

  /** A printed row starts with its first cell, and each further cell comes behind a comma. */
  lemma RowGrows(cells: seq<string>, cell: string)
    ensures PrintRow([cell], ',') == Quoted(cell)
    ensures cells != [] ==> PrintRow(cells + [cell], ',') == PrintRow(cells, ',') + ("," + Quoted(cell))
  {
    assert QuotedAll([cell]) == [Quoted(cell)];
    assert QuotedAll(cells + [cell]) == QuotedAll(cells) + [Quoted(cell)];
    assert [','] == ",";
    hide Quoted, Join;
    if cells != [] { JoinSnoc(QuotedAll(cells), Quoted(cell), ","); }
    OneJoined(Quoted(cell), ",");
  }

  lemma OneJoined(s: string, separator: string)
    ensures Join([s], separator) == s
  {
  }

  /** An uploaded file is a byte-order mark and its printed rows, each ended by CR LF. */
  lemma UploadGrows(grid: Grid, row: seq<string>)
    ensures UploadText([row]) == [BOM] + (PrintRow(row, ',') + "\r\n")
    ensures grid != [] ==> UploadText(grid + [row]) == UploadText(grid) + (PrintRow(row, ',') + "\r\n")
  {
    assert PrintRows([row], ',') == [PrintRow(row, ',')];
    assert PrintRows(grid + [row], ',') == PrintRows(grid, ',') + [PrintRow(row, ',')];
    assert ['\r', '\n'] == "\r\n";
    hide PrintRow, Join;
    var lines, line := PrintRows(grid, ','), PrintRow(row, ',');
    OneJoined(line, "\r\n");
    if grid != [] {
      JoinSnoc(lines, line, "\r\n");
      assert [BOM] + ((Join(lines, "\r\n") + ("\r\n" + line)) + "\r\n")
        == [BOM] + (Join(lines, "\r\n") + "\r\n") + (line + "\r\n");
    }
  }

  lemma UploadNormalised(grid: Grid)
    requires grid != [] && forall row :: row in grid ==> row != []
    ensures Normalised(UploadText(grid)) == Join(PrintRows(UnixGrid(grid), ',') + [[]], ['\n'])
  {
    assert UploadText(grid)[1..] == Join(PrintRows(grid, ','), ['\r', '\n']) + ['\r', '\n'];
    UnixRows(grid);
    JoinLast(PrintRows(UnixGrid(grid), ','), ['\n']);
  }

  lemma SealedLines(grid: Grid)
    ensures forall l :: l in PrintRows(grid, ',') + [[]] ==> Sealed(l, '\n')
  {
    hide PrintRow;
    forall l | l in PrintRows(grid, ',') + [[]] ensures Sealed(l, '\n') {
      if l != [] {
        var i :| 0 <= i < |grid| && l == PrintRow(grid[i], ',');
        SealedRow(grid[i], ',', '\n');
      }
    }
  }

  lemma BlankLastLine(lines: seq<string>, d: char)
    ensures KeepRows(RowsOf(lines + [[]], d)) == KeepRows(RowsOf(lines, d))
  {
    assert Pieces([], d, false) == [[]];
    assert KeepRows([RowOf([], d)]) == [];
    hide RowOf, KeepRows;
    assert RowsOf(lines + [[]], d) == RowsOf(lines, d) + [RowOf([], d)];
    KeepRowsAppend(RowsOf(lines, d), [RowOf([], d)]);
  }

  /** Reading a printed grid line by line: the empty line after the last row is dropped. */
  lemma ReadUpload(grid: Grid, d: char)
    requires grid != [] && (forall row :: row in grid ==> row != []) && d != QUOTE
    ensures GridWith(Normalised(UploadText(grid)), d) == KeepRows(RowsOf(PrintRows(UnixGrid(grid), ','), d))
  {
    var lines := PrintRows(UnixGrid(grid), ',');
    UploadNormalised(grid);
    SealedLines(UnixGrid(grid));
    hide Sealed;
    PiecesJoin(lines + [[]], '\n');
    BlankLastLine(lines, d);
  }

  /** A row with two cells or more holds a comma that a wrong delimiter leaves in its single cell. */
  lemma CommaSurvives(cells: seq<string>)
    requires |cells| > 1
    ensures Trim(Browser, Join(cells, [','])) != []
  {
    assert Join(cells, [','])[|cells[0]|] == ',';
    TrimVisible(Browser, Join(cells, [',']), ',');
  }

  lemma RightDelimiter(grid: Grid)
    requires forall row :: row in grid ==> row != []
    ensures RowsOf(PrintRows(UnixGrid(grid), ','), ',') == Tidy(grid)
  {
    hide RowOf, PrintRow, TrimAll, UnixAll;
    forall i | 0 <= i < |grid| ensures RowsOf(PrintRows(UnixGrid(grid), ','), ',')[i] == Tidy(grid)[i] {
      assert grid[i] in grid;
      ReadPrintedRow(UnixGrid(grid)[i], ',');
    }
  }

  lemma WrongDelimiter(grid: Grid, d: char)
    requires d != ',' && d != QUOTE
    ensures forall i :: 0 <= i < |grid| ==>
      RowsOf(PrintRows(UnixGrid(grid), ','), d)[i] == [Trim(Browser, Join(UnixGrid(grid)[i], [',']))]
  {
    hide RowOf, PrintRow;
    forall i | 0 <= i < |grid|
      ensures RowsOf(PrintRows(UnixGrid(grid), ','), d)[i] == [Trim(Browser, Join(UnixGrid(grid)[i], [',']))]
    {
      ReadMisprintedRow(UnixGrid(grid)[i], ',', d);
    }
  }

  lemma OneColumn(grid: Grid)
    requires forall row :: row in grid ==> |row| == 1
    ensures forall i :: 0 <= i < |grid| ==> [Trim(Browser, Join(UnixGrid(grid)[i], [',']))] == Tidy(grid)[i]
  {
    forall i | 0 <= i < |grid| ensures [Trim(Browser, Join(UnixGrid(grid)[i], [',']))] == Tidy(grid)[i] {
      assert grid[i] in grid && UnixGrid(grid)[i] == [UnixGrid(grid)[i][0]];
    }
  }

  /** Read with a wrong delimiter, the header is a row of one cell; as it should be, rows are wider. */
  lemma Misread(grid: Grid, width: nat, read: Grid)
    requires grid != [] && width > 1 && forall row :: row in grid ==> |row| == width
    requires read != [] && read[0] == [Trim(Browser, Join(UnixGrid(grid)[0], [',']))]
    ensures KeepRows(read) != KeepRows(Tidy(grid))
  {
    assert grid[0] in grid;
    CommaSurvives(UnixGrid(grid)[0]);
    assert read[0][0] != [];
    assert KeepRows(read)[0] == read[0];
    KeepRowsMembers(Tidy(grid));
    hide Join, Trim, UnixLines;
    forall row | row in KeepRows(Tidy(grid)) ensures |row| == width {
      var i :| 0 <= i < |grid| && row == Tidy(grid)[i];
      assert grid[i] in grid;
    }
  }

  lemma DetectedDelimiter(text: string)
    ensures DelimiterOf(text) == ',' || DelimiterOf(text) == ';' || DelimiterOf(text) == '\t'
  {
  }

  lemma ReadAsDetected(grid: Grid)
    requires grid != [] && forall row :: row in grid ==> row != []
    ensures ParsedGrid(UploadText(grid))
        == KeepRows(RowsOf(PrintRows(UnixGrid(grid), ','), DelimiterOf(UploadText(grid))))
  {
    DetectedDelimiter(UploadText(grid));
    ReadUpload(grid, DelimiterOf(UploadText(grid)));
    hide UploadText, DelimiterOf, KeepRows, RowsOf, PrintRows, UnixGrid, GridWith;
  }

  lemma ReadOneColumn(grid: Grid, d: char)
    requires d != ',' && d != QUOTE && forall row :: row in grid ==> |row| == 1
    ensures RowsOf(PrintRows(UnixGrid(grid), ','), d) == Tidy(grid)
  {
    hide *;
    WrongDelimiter(grid, d);
    OneColumn(grid);
  }

  lemma ReadMoreColumns(grid: Grid, width: nat, d: char)
    requires d != ',' && d != QUOTE && grid != [] && width > 1 && forall row :: row in grid ==> |row| == width
    ensures KeepRows(RowsOf(PrintRows(UnixGrid(grid), ','), d)) != KeepRows(Tidy(grid))
  {
    hide *;
    WrongDelimiter(grid, d);
    Misread(grid, width, RowsOf(PrintRows(UnixGrid(grid), ','), d));
  }

  /** A printed grid is read back if and only if it has one column or the reader detects comma. */
  lemma ReadBackByDelimiter(grid: Grid, width: nat)
    requires grid != [] && width >= 1 && forall row :: row in grid ==> |row| == width
    ensures ParsedGrid(UploadText(grid)) == KeepRows(Tidy(grid))
       <==> (width == 1 || DelimiterOf(UploadText(grid)) == ',')
  {
    assert QUOTE == '"';
    assert forall row :: row in grid ==> row != [];
    DetectedDelimiter(UploadText(grid));
    ReadAsDetected(grid);
    hide *;
    if DelimiterOf(UploadText(grid)) == ',' {
      RightDelimiter(grid);
    } else if width == 1 {
      ReadOneColumn(grid, DelimiterOf(UploadText(grid)));
    } else {
      ReadMoreColumns(grid, width, DelimiterOf(UploadText(grid)));
    }
  }

  lemma {:induction false} EscapePlain(s: string)
    requires QUOTE !in s
    ensures Escape(s) == s
  {
    if s != [] { EscapePlain(s[1..]); }
  }

  lemma {:induction false} FirstLinePrefix(line: string, rest: string)
    requires '\n' !in line && (rest == [] || rest[0] == '\n')
    ensures FirstLine(line + rest) == line
  {
    if line == [] {
      assert line + rest == rest;
    } else {
      assert (line + rest)[1..] == line[1..] + rest;
      FirstLinePrefix(line[1..], rest);
    }
  }
}
