/**
 * Which delimiter the reader detects in an import upload (frontend/src/api.ts), from the header cells
 * alone, and with it the round trip under a condition that can be checked before printing.
 */
module UploadDelimiter {
  import opened Text
  import opened CsvParser
  import opened CsvReading
  import opened CsvPrinters

  /** What of a header is printed on the first line: cells up to the first newline inside a cell. */
  function FirstLineCells(cells: seq<string>): seq<string> {
    if cells == [] then []
    else if '\n' in cells[0] then [FirstLine(cells[0])]
    else [cells[0]] + FirstLineCells(cells[1..])
  }

  /** Commas inside the cells and between them are at least as many as semicolons, and as TABs. */
  predicate CommaWins(header: seq<string>) {
    var shown := FirstLineCells(UnixAll(header));
    var commas := Occurrences(shown, ',') + |shown| - 1;
    commas >= Occurrences(shown, ';') && commas >= Occurrences(shown, '\t')
  }

  // ----- counting in the first line -----

  lemma {:induction false} FirstLineAppend(a: string, b: string)
    ensures FirstLine(a + b) == if '\n' in a then FirstLine(a) else a + FirstLine(b)
    ensures '\n' !in a ==> FirstLine(a) == a
  {
    if a == [] {
      assert a + b == b;
    } else {
      assert a == [a[0]] + a[1..] && (a + b)[1..] == a[1..] + b && (a + b)[0] == a[0];
      FirstLineAppend(a[1..], b);
    }
  }

  lemma EscapeHead(s: string)
    requires s != []
    ensures Escape(s) == Escape([s[0]]) + Escape(s[1..])
    ensures forall c :: c != QUOTE ==>
      (c in Escape([s[0]]) <==> c == s[0]) && Count(Escape([s[0]]), c) == Count([s[0]], c)
  {
    EscapeOne(s[0]);
    assert [s[0]][1..] == [] && [QUOTE, QUOTE][1..] == [QUOTE] && [QUOTE][1..] == [];
  }

  /** Doubling quotes does not change what else stands on the first line. */
  lemma {:induction false} EscapeFirstLine(s: string, c: char)
    requires c != QUOTE
    ensures '\n' in Escape(s) <==> '\n' in s
    ensures Count(FirstLine(Escape(s)), c) == Count(FirstLine(s), c)
  {
    if s != [] {
      EscapeHead(s);
      EscapeFirstLine(s[1..], c);
      assert s == [s[0]] + s[1..];
      FirstLineAppend([s[0]], s[1..]);
      FirstLineAppend(Escape([s[0]]), Escape(s[1..]));
      if s[0] != '\n' {
        CountAppend([s[0]], FirstLine(s[1..]), c);
        CountAppend(Escape([s[0]]), FirstLine(Escape(s[1..])), c);
      } else {
        EscapeOne('\n');
        assert Escape(['\n']) == ['\n'];
      }
    }
  }

  lemma CountOne(x: char, c: char)
    ensures Count([x], c) == if x == c then 1 else 0
  {
    assert [x][1..] == [];
  }

  lemma QuotedFirstLine(s: string, c: char)
    requires c != QUOTE
    ensures '\n' in Quoted(s) <==> '\n' in s
    ensures Count(FirstLine(Quoted(s)), c) == Count(FirstLine(s), c)
  {
    EscapeFirstLine(s, c);
    CountOne(QUOTE, c);
    assert Quoted(s) == [QUOTE] + (Escape(s) + [QUOTE]);
    FirstLineAppend([QUOTE], Escape(s) + [QUOTE]);
    FirstLineAppend(Escape(s), [QUOTE]);
    FirstLineAppend([QUOTE], []);
    assert [QUOTE] + [] == [QUOTE];
    hide Escape, FirstLine, Count;
    CountAppend([QUOTE], FirstLine(Escape(s) + [QUOTE]), c);
    CountAppend(Escape(s), [QUOTE], c);
  }

  lemma CellsStep(cells: seq<string>, c: char)
    requires cells != []
    ensures var rest, shown := FirstLineCells(cells[1..]), FirstLineCells(cells);
      && |shown| > 0
      && (if '\n' in cells[0] || |cells| == 1 then
            |shown| == 1 && Occurrences(shown, c) == Count(FirstLine(cells[0]), c)
          else
            |shown| == |rest| + 1 && |rest| > 0 && Occurrences(shown, c) == Count(FirstLine(cells[0]), c)
                + Occurrences(rest, c))
  {
    FirstLineAppend(cells[0], []);
    var shown := FirstLineCells(cells);
    assert shown[1..] == if '\n' in cells[0] then [] else FirstLineCells(cells[1..]);
    assert Occurrences(shown, c) == Count(shown[0], c) + Occurrences(shown[1..], c);
  }

  lemma SeamCount(first: string, seam: char, tail: string, c: char)
    requires seam != '\n'
    ensures Count(FirstLine(first + ([seam] + tail)), c)
         == Count(FirstLine(first), c)
            + if '\n' in first then 0 else (if c == seam then 1 else 0) + Count(FirstLine(tail), c)
  {
    FirstLineAppend(first, [seam] + tail);
    FirstLineAppend([seam], tail);
    CountOne(seam, c);
    FirstLineAppend(first, []);
    hide FirstLine, Count;
    CountAppend([seam], FirstLine(tail), c);
    CountAppend(first, [seam] + FirstLine(tail), c);
  }

  lemma LastCount(last: string, rest: string, c: char)
    ensures Count(FirstLine(last + ("\n" + rest)), c) == Count(FirstLine(last), c)
  {
    FirstLineAppend(last, "\n" + rest);
    FirstLineAppend(last, []);
    assert last + [] == last;
  }

  lemma Regroup(first: string, seam: string, row: string, rest: string)
    ensures first + (seam + row) + rest == first + (seam + (row + rest))
  {
  }

  /** How often a character other than the quote stands on the first line of a printed text. */
  lemma {:induction false} HeaderCount(cells: seq<string>, rest: string, c: char)
    requires cells != [] && c != QUOTE && c != '\n'
    ensures Count(FirstLine(PrintRow(cells, ',') + ("\n" + rest)), c)
         == Occurrences(FirstLineCells(cells), c) + if c == ',' then |FirstLineCells(cells)| - 1 else 0
  {
    var first := Quoted(cells[0]);
    PrintRowStep(cells, ',');
    QuotedFirstLine(cells[0], c);
    CellsStep(cells, c);
    hide *;
    if |cells| == 1 {
      LastCount(first, rest, c);
    } else {
      var tail := PrintRow(cells[1..], ',') + ("\n" + rest);
      HeaderCount(cells[1..], rest, c);
      Regroup(first, [','], PrintRow(cells[1..], ','), "\n" + rest);
      SeamCount(first, ',', tail, c);
    }
  }

  /** The reader detects comma in an uploaded text if and only if comma wins in the header cells. */
  lemma CommaDetected(grid: Grid)
    requires grid != [] && forall row :: row in grid ==> row != []
    ensures DelimiterOf(UploadText(grid)) == ',' <==> CommaWins(grid[0])
  {
    var rows := PrintRows(UnixGrid(grid), ',');
    UploadNormalised(grid);
    JoinStep(rows + [[]], "\n");
    var rest := Join((rows + [[]])[1..], "\n");
    assert grid[0] in grid && UnixGrid(grid)[0] == UnixAll(grid[0]);
    HeaderCount(UnixAll(grid[0]), rest, ',');
    HeaderCount(UnixAll(grid[0]), rest, ';');
    HeaderCount(UnixAll(grid[0]), rest, '\t');
    assert ['\n'] == "\n";
    hide UploadText, Normalised, PrintRow, FirstLineCells, Occurrences, FirstLine, Count, UnixAll, Join;
  }

  // ----- the results -----

  /**
   * The round trip, with its exact condition. A grid that the import prints is read back, newlines
   * normalised, cells trimmed and blank rows dropped, if and only if it has a single column or comma
   * wins in its header.
   */
  lemma ImportRoundTrip(grid: Grid, width: nat)
    requires grid != [] && width >= 1 && forall row :: row in grid ==> |row| == width
    ensures ParsedGrid(UploadText(grid)) == KeepRows(Tidy(grid)) <==> width == 1 || CommaWins(grid[0])
  {
    hide *;
    assert forall row :: row in grid ==> row != [];
    CommaDetected(grid);
    ReadBackByDelimiter(grid, width);
  }

  /** Nothing in a header that could be taken for a delimiter or a line's end. */
  predicate PlainHeader(header: seq<string>) {
    forall i :: 0 <= i < |header| ==>
      ',' !in header[i] && ';' !in header[i] && '\t' !in header[i] && '\r' !in header[i] && '\n' !in header[i]
  }

  lemma {:induction false} PlainCells(cells: seq<string>)
    requires PlainHeader(cells)
    ensures UnixAll(cells) == cells && FirstLineCells(cells) == cells
    ensures Occurrences(cells, ',') == 0 && Occurrences(cells, ';') == 0 && Occurrences(cells, '\t') == 0
  {
    if cells != [] {
      PlainCells(cells[1..]);
      UnixPlain(cells[0]);
      CountAbsent(cells[0], ',');
      CountAbsent(cells[0], ';');
      CountAbsent(cells[0], '\t');
      assert cells == [cells[0]] + cells[1..];
    }
  }

  /** In a plain header comma always wins. */
  lemma PlainHeaderWins(header: seq<string>)
    requires PlainHeader(header) && header != []
    ensures CommaWins(header)
  {
    PlainCells(header);
  }
}
