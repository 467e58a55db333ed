/**
 * The export of any list of leads read back (frontend/src/components/ExportModal.tsx): rows of bare
 * cells joined by newlines, and exactly which double quotes inside them survive.
 */
module ExportRows {
  import opened Text
  import opened CsvParser
  import opened CsvReading
  import opened CsvPrinters
  import opened LeadExport
  import opened ExportQuotes

  predicate NoQuotes(cells: seq<string>) { forall i :: 0 <= i < |cells| ==> QUOTE !in cells[i] }

  /** No cell holds a quote, except that the very last one may end with a single one. */
  predicate AllSurvive(rows: Grid) {
    if rows == [] then true
    else if |rows| == 1 then rows[0] != [] && Survive(rows[0])
    else NoQuotes(rows[0]) && AllSurvive(rows[1..])
  }

  function TrimGrid(rows: Grid): (r: Grid)
    ensures |r| == |rows|
    ensures forall i :: 0 <= i < |r| ==> r[i] == TrimAll(rows[i])
  {
    if rows == [] then [] else [TrimAll(rows[0])] + TrimGrid(rows[1..])
  }

  function GridText(rows: Grid): string { Join(BareRows(rows), "\n") }

  /** The rows read from a text, blank ones dropped. */
  function KeptRows(t: string): Grid { KeepRows(RowsOf(Pieces(t, '\n', false), ';')) }

  // ----- semicolons: as many in a text as its rows account for -----

  function RowWeight(row: seq<string>): int { |row| - 1 + Occurrences(row, ';') }

  function Weight(rows: Grid): int { if rows == [] then 0 else RowWeight(rows[0]) + Weight(rows[1..]) }

  /** The first piece of a text and what follows it. */
  lemma {:induction false} CutPiece(t: string, c: char, quoted: bool) returns (y: string)
    requires c != QUOTE
    ensures var pieces := Pieces(t, c, quoted);
      && t == pieces[0] + y
      && (y == [] ==> pieces == [pieces[0]])
      && (y != [] ==> y[0] == c && !Inside(pieces[0], quoted) && pieces[1..] == Pieces(y[1..], c, false))
  {
    if t == [] {
      y := [];
    } else if t[0] == c && !quoted {
      y := t;
    } else {
      var next := (t[0] == QUOTE) != quoted;
      y := CutPiece(t[1..], c, next);
      var rest := Pieces(t[1..], c, next);
      var first := [t[0]] + rest[0];
      assert first[1..] == rest[0] && t == [t[0]] + t[1..];
    }
  }

  lemma LineWeight(line: string)
    ensures Count(line, ';') == RowWeight(RowOf(line, ';'))
  {
    RowCount(line);
  }

  /** The rows kept from behind the first line. */
  function LaterRows(t: string): Grid { KeepRows(RowsOf(Pieces(t, '\n', false), ';')[1..]) }

  lemma KeptStep(t: string)
    ensures KeptRows(t) == Keep(RowOf(Pieces(t, '\n', false)[0], ';')) + LaterRows(t)
    ensures forall before ::
      ReadsAfter(before, t) == Keep(before + RowOf(Pieces(t, '\n', false)[0], ';')) + LaterRows(t)
  {
    hide Pieces, RowOf, Keep;
  }

  /** What one line, and the text behind it, contribute. */
  lemma CutRow(t: string) returns (line: string, y: string)
    ensures line == Pieces(t, '\n', false)[0] && t == line + y
    ensures Count(t, ';') == RowWeight(RowOf(line, ';')) + if y == [] then 0 else Count(y[1..], ';')
    ensures y != [] ==> y[0] == '\n' && !Inside(line, false)
    ensures LaterRows(t) == if y == [] then [] else KeptRows(y[1..])
  {
    y := CutPiece(t, '\n', false);
    var lines := Pieces(t, '\n', false);
    line := lines[0];
    LineWeight(line);
    CountAppend(line, y, ';');
    if y != [] { assert y == ['\n'] + y[1..]; }
    hide Pieces, RowOf, Inside, RowWeight;
    assert RowsOf(lines, ';')[1..] == RowsOf(lines[1..], ';');
    assert KeepRows([]) == [];
  }

  lemma {:induction false} NoWeightLost(t: string)
    ensures Weight(KeptRows(t)) <= Count(t, ';')
    decreases |t|
  {
    var line, y := CutRow(t);
    FirstCell(line);
    KeptStep(t);
    assert Weight([]) == 0;
    hide KeptRows, LaterRows, RowOf, Keep, RowWeight, Weight, Pieces, Inside, Count;
    KeepWeight(RowOf(line, ';'));
    WeightAppend(Keep(RowOf(line, ';')), LaterRows(t));
    if y != [] { NoWeightLost(y[1..]); }
  }

  lemma KeepWeight(row: seq<string>)
    requires row != []
    ensures 0 <= Weight(Keep(row)) <= RowWeight(row)
  {
    if NonEmptyRow(row) { assert [row][1..] == []; }
  }

  lemma {:induction false} WeightAppend(a: Grid, b: Grid)
    ensures Weight(a + b) == Weight(a) + Weight(b)
  {
    hide RowWeight;
    if a == [] {
      assert a + b == b;
    } else {
      assert (a + b)[1..] == a[1..] + b && (a + b)[0] == a[0];
      WeightAppend(a[1..], b);
    }
  }

  // ----- finding a row -----

  /**
   * `line` is a line of the text that is read as the row `first`; no semicolon stands before it, and the
   * text behind it is read as `more` and holds no more semicolons than that takes.
   */
  ghost predicate Found(t: string, z: string, line: string, y: string, first: seq<string>, more: Grid) {
    && t == z + (line + y) && Count(z, ';') == 0 && !Inside(z, false) && (z != [] ==> z[|z| - 1] == '\n')
    && RowOf(line, ';') == first
    && if y == [] then more == []
       else y[0] == '\n' && !Inside(line, false) && KeptRows(y[1..]) == more && Count(y[1..], ';') == Weight(more)
  }

  /**
   * When a text is read as expected and holds no more semicolons than that takes, the lines before the
   * first expected row hold none.
   */
  lemma {:induction false} SkipBlank(t: string, expected: Grid) returns (z: string, line: string, y: string)
    requires expected != [] && KeptRows(t) == expected && Count(t, ';') == Weight(expected)
    ensures Found(t, z, line, y, expected[0], expected[1..])
    decreases |t|
  {
    line, y := CutRow(t);
    var row := RowOf(line, ';');
    FirstCell(line);
    KeptStep(t);
    KeepOnly(row, LaterRows(t));
    WeightStep(expected);
    hide KeptRows, LaterRows, RowOf, RowWeight, Weight, Keep, NonEmptyRow, Pieces, Inside, Count;
    if NonEmptyRow(row) {
      z := [];
      EmptyText();
      SameFirst(row, LaterRows(t), expected);
    } else {
      var first, end := line, y;
      LineWeight(first);
      NoWeightLost(end[1..]);
      var z';
      z', line, y := SkipBlank(end[1..], expected);
      z := first + (['\n'] + z');
      Reassemble(first, end, z', line, y);
      SkippedLine(first, z');
    }
  }

  lemma Reassemble(first: string, end: string, z: string, line: string, y: string)
    requires end != [] && end[0] == '\n' && end[1..] == z + (line + y)
    ensures first + end == (first + (['\n'] + z)) + (line + y)
  {
    assert end == ['\n'] + end[1..];
    assert ['\n'] + (z + (line + y)) == (['\n'] + z) + (line + y);
  }

  lemma EmptyText()
    ensures Count([], ';') == 0 && !Inside([], false)
  {
  }

  lemma WeightStep(rows: Grid)
    ensures rows != [] ==> Weight(rows) == RowWeight(rows[0]) + Weight(rows[1..]) && rows == [rows[0]] + rows[1..]
  {
    hide RowWeight;
  }

  lemma SkippedLine(line: string, z: string)
    requires !Inside(line, false) && !Inside(z, false) && Count(line, ';') == 0 && Count(z, ';') == 0
    requires z != [] ==> z[|z| - 1] == '\n'
    ensures var all := line + (['\n'] + z); Count(all, ';') == 0 && !Inside(all, false) && all[|all| - 1] == '\n'
  {
    InsideAppend(line, ['\n'] + z, false);
    InsideAppend(['\n'], z, false);
    assert ['\n'][1..] == [];
    CountAppend(line, ['\n'] + z, ';');
    CountAppend(['\n'], z, ';');
  }

  /** The same with cells already read: then the row stands in the very first line. */
  lemma FindRow(before: seq<string>, t: string, first: seq<string>, more: Grid)
    returns (z: string, line: string, y: string)
    requires NonEmptyRow(before + first) && ReadsAfter(before, t) == [before + first] + more
    requires Count(t, ';') == RowWeight(first) + Weight(more)
    ensures Found(t, z, line, y, first, more) && (before != [] ==> z == [])
  {
    hide *;
    line, y := CutRow(t);
    var row := RowOf(line, ';');
    FirstCell(line);
    KeptStep(t);
    KeepOnly(before + row, LaterRows(t));
    if NonEmptyRow(before + row) {
      z := [];
      FirstOfTwo(before, row, LaterRows(t), first, more);
      FoundAtStart(t, line, y, first, more);
    } else {
      NoWeightLost(y[1..]);
      NothingRead(before, first, row, more);
      assert before + row == row && before + first == first;
      assert ([first] + more)[1..] == more;
      z, line, y := SkipBlank(t, [first] + more);
    }
  }

  lemma FoundAtStart(t: string, line: string, y: string, first: seq<string>, more: Grid)
    requires t == line + y && RowOf(line, ';') == first && Count(t, ';') == RowWeight(first) + Weight(more)
    requires Count(t, ';') == RowWeight(RowOf(line, ';')) + if y == [] then 0 else Count(y[1..], ';')
    requires y != [] ==> y[0] == '\n' && !Inside(line, false)
    requires more == if y == [] then [] else KeptRows(y[1..])
    ensures Found(t, [], line, y, first, more)
  {
    EmptyText();
    assert [] + (line + y) == t;
    hide RowWeight, Weight, Count, KeptRows, RowOf, Inside;
  }

  /** A row that is still to come takes more semicolons when cells stand before it. */
  lemma NothingRead(before: seq<string>, first: seq<string>, row: seq<string>, more: Grid)
    requires row != [] && RowWeight(row) + Weight([before + first] + more) <= RowWeight(first) + Weight(more)
    ensures before == [] && Weight([before + first] + more) == RowWeight(first) + Weight(more)
  {
    WeightStep([before + first] + more);
    assert ([before + first] + more)[1..] == more;
    OccurrencesAppend(before, first, ';');
    if before == [] { assert before + first == first; }
  }

  lemma KeepOnly(row: seq<string>, later: Grid)
    ensures Keep(row) + later == if NonEmptyRow(row) then [row] + later else later
  {
  }

  lemma SameFirst(row: seq<string>, later: Grid, expected: Grid)
    requires [row] + later == expected
    ensures expected[0] == row && expected[1..] == later
  {
  }

  lemma FirstOfTwo(before: seq<string>, row: seq<string>, rest: Grid, first: seq<string>, more: Grid)
    requires [before + row] + rest == [before + first] + more
    ensures row == first && rest == more
  {
    assert before + row == ([before + row] + rest)[0] == before + first;
    assert row == (before + row)[|before|..] && first == (before + first)[|before|..];
    assert rest == ([before + row] + rest)[1..] && more == ([before + first] + more)[1..];
  }

  // ----- a quote in the last cell of a row that is not the last -----

  lemma SameFront(a: string, x: string, b: string, y: string, c: char)
    requires a + ([c] + x) == b + ([c] + y) && Count(a, c) == Count(b, c)
    ensures a == b
  {
    var t := a + ([c] + x);
    assert t[|a|] == c && t[|b|] == c;
    if |a| < |b| {
      assert a + [c] <= b by { assert b == t[..|b|] && a + [c] == t[..|a| + 1]; }
      PrefixCount(a + [c], b, c);
      PrefixCount(a, a + [c], c);
    } else if |b| < |a| {
      assert b + [c] <= a by { assert a == t[..|a|] && b + [c] == t[..|b| + 1]; }
      PrefixCount(b + [c], a, c);
      PrefixCount(b, b + [c], c);
    } else {
      assert a == t[..|a|] && b == t[..|a|];
    }
  }

  /** How many quotes a text that is read as the cell `c`, and closes what it opens, holds at least. */
  lemma QuotesTaken(c: string, p: string)
    requires Trim(Browser, Decode(p, false)) == Trim(Browser, c) && !Inside(p, false)
    ensures Count(p, ';') == Count(c, ';') && Count(p, QUOTE) % 2 == 0
    ensures Count(c, QUOTE) > 0 ==> Count(p, QUOTE) >= 2 * Count(c, QUOTE) + 2
  {
    hide Trim, Decode, Inside, Count;
    var e := Decode(p, false);
    TrimCount(c, ';'); TrimCount(c, QUOTE);
    TrimCount(e, ';'); TrimCount(e, QUOTE);
    DecodeCount(p, false);
    InsideParity(p, false);
    CountAbsent(c, QUOTE);
    CountAbsent(e, QUOTE);
  }

  lemma TwoCells(c: string, d: string, x: char)
    ensures Count(Bare(c) + (['\n'] + Bare(d)), x)
         == Count(c, x) + Count(d, x) + (if x == QUOTE then 4 else 0) + (if x == '\n' then 1 else 0)
  {
    BareCount(c, x);
    BareCount(d, x);
    CountAppend(Bare(c), ['\n'] + Bare(d), x);
    CountAppend(['\n'], Bare(d), x);
    assert ['\n'][1..] == [];
  }

  lemma ThreeParts(p: string, z: string, r: string, x: char)
    ensures Count(p + (['\n'] + (z + r)), x) == Count(p, x) + (if x == '\n' then 1 else 0) + Count(z, x) + Count(r, x)
  {
    CountAppend(p, ['\n'] + (z + r), x);
    CountAppend(['\n'], z + r, x);
    CountAppend(z, r, x);
    assert ['\n'][1..] == [];
  }

  /** What the text of two cells across a row's end counts, and how it ends. */
  lemma CellCounts(a: string, c: string, d: string)
    requires a == Bare(c) + (['\n'] + Bare(d))
    ensures Count(a, ';') == Count(c, ';') + Count(d, ';') && Count(a, QUOTE) == Count(c, QUOTE) + Count(d, QUOTE) + 4
    ensures a != [] && a[|a| - 1] == QUOTE
  {
    EndsWithQuote(c, d);
    hide Count, Bare;
    TwoCells(c, d, ';');
    TwoCells(c, d, QUOTE);
  }

  /** What the text of two pieces counts, blank lines between them, and that it ends with the second. */
  lemma PartCounts(b: string, p: string, z: string, r: string)
    requires b == p + (['\n'] + (z + r)) && (z != [] ==> z[|z| - 1] == '\n')
    ensures Count(b, ';') == Count(p, ';') + Count(z, ';') + Count(r, ';')
    ensures Count(b, QUOTE) == Count(p, QUOTE) + Count(z, QUOTE) + Count(r, QUOTE)
    ensures b != [] && (b[|b| - 1] == QUOTE ==> Count(r, QUOTE) > 0)
  {
    hide Count;
    ThreeParts(p, z, r, ';');
    ThreeParts(p, z, r, QUOTE);
    LastOfThree(p, z, r);
    if b[|b| - 1] == QUOTE { CountAbsent(r, QUOTE); }
  }

  /**
   * The cell `c` stands at the end of a row and the cell `d` starts the next. Two pieces of the text can be
   * read as these cells, the second before a semicolon, only if `c` holds no quote: there are too few.
   */
  lemma QuotedRowEnd(c: string, d: string, x: string, p: string, z: string, r: string, y: string)
    requires Bare(c) + (['\n'] + Bare(d)) + ([';'] + x) == p + (['\n'] + (z + r)) + ([';'] + y)
    requires Trim(Browser, Decode(p, false)) == Trim(Browser, c) && !Inside(p, false)
    requires Trim(Browser, Decode(r, false)) == Trim(Browser, d) && !Inside(r, false)
    requires Count(z, ';') == 0 && (z != [] ==> z[|z| - 1] == '\n')
    ensures QUOTE !in c
  {
    hide Trim, Decode, Inside, Count, Bare;
    QuotesTaken(c, p);
    QuotesTaken(d, r);
    CellCounts(Bare(c) + (['\n'] + Bare(d)), c, d);
    PartCounts(p + (['\n'] + (z + r)), p, z, r);
    SameEnd(Bare(c) + (['\n'] + Bare(d)), x, p + (['\n'] + (z + r)), y);
    Budget(Count(c, QUOTE), Count(d, QUOTE), Count(p, QUOTE), Count(z, QUOTE), Count(r, QUOTE));
    CountAbsent(c, QUOTE);
  }

  lemma SameEnd(a: string, x: string, b: string, y: string)
    requires a + ([';'] + x) == b + ([';'] + y) && Count(a, ';') == Count(b, ';') && a != [] && b != []
    ensures Count(a, QUOTE) == Count(b, QUOTE) && a[|a| - 1] == b[|b| - 1]
  {
    SameFront(a, x, b, y, ';');
  }

  /** Two cells with four quotes around them leave too few for pieces that need twice their quotes. */
  lemma Budget(c: nat, d: nat, p: nat, z: nat, r: nat)
    requires c + d + 4 == p + z + r && r % 2 == 0 && r > 0
    requires (c > 0 ==> p >= 2 * c + 2) && (d > 0 ==> r >= 2 * d + 2)
    ensures c == 0
  {
  }

  lemma EndsWithQuote(c: string, d: string)
    ensures var a := Bare(c) + (['\n'] + Bare(d)); a[|a| - 1] == QUOTE
  {
  }

  lemma LastOfThree(p: string, z: string, r: string)
    requires z != [] ==> z[|z| - 1] == '\n'
    ensures var b := p + (['\n'] + (z + r)); b[|b| - 1] == QUOTE ==> QUOTE in r
  {
  }

  // ----- all rows -----

  /** Rows of two cells or more, each with a visible one. */
  ghost predicate Fits(rows: Grid) {
    forall i :: 0 <= i < |rows| ==> |rows[i]| >= 2 && NonEmptyRow(TrimAll(rows[i]))
  }

  lemma GridTextStep(rows: Grid)
    requires rows != []
    ensures GridText(rows) == BareText(rows[0]) + if |rows| == 1 then [] else ['\n'] + GridText(rows[1..])
  {
    hide BareAll;
    assert BareRows(rows)[1..] == BareRows(rows[1..]);
    JoinStep(BareRows(rows), "\n");
    assert BareText(rows[0]) + [] == BareText(rows[0]);
  }

  lemma {:induction false} GridCount(rows: Grid)
    requires rows != [] && Fits(rows)
    ensures Count(GridText(rows), ';') == Weight(TrimGrid(rows))
  {
    GridTextStep(rows);
    BareTextCount(rows[0]);
    TrimAllCount(rows[0]);
    WeightStep(TrimGrid(rows));
    assert TrimGrid(rows)[1..] == TrimGrid(rows[1..]);
    hide BareText, GridText, Count, Occurrences, NonEmptyRow, TrimAll;
    if |rows| > 1 {
      GridCount(rows[1..]);
      CountAppend(BareText(rows[0]), ['\n'] + GridText(rows[1..]), ';');
      CountAppend(['\n'], GridText(rows[1..]), ';');
      NewlineCount();
    } else {
      assert BareText(rows[0]) + [] == BareText(rows[0]);
      NoWeight();
    }
  }

  lemma NewlineCount()
    ensures Count(['\n'], ';') == 0
  {
    assert ['\n'][1..] == [];
  }

  lemma NoWeight()
    ensures Weight([]) == 0
  {
  }

  /** The text of the rest of a row and of the rows behind it. */
  function TailText(cells: seq<string>, rows: Grid): string { BareText(cells) + (['\n'] + GridText(rows)) }

  lemma TailCount(cells: seq<string>, rows: Grid)
    requires cells != [] && rows != [] && Fits(rows)
    ensures Count(TailText(cells, rows), ';') == RowWeight(TrimAll(cells)) + Weight(TrimGrid(rows))
  {
    BareTextCount(cells);
    TrimAllCount(cells);
    GridCount(rows);
    NewlineCount();
    hide BareText, GridText, Count, Occurrences, Fits, TrimAll, Weight;
    CountAppend(BareText(cells), ['\n'] + GridText(rows), ';');
    CountAppend(['\n'], GridText(rows), ';');
  }

  /** The first piece of a line, its trimmed text, and the semicolon behind it if the row goes on. */
  lemma FirstPiece(line: string, row: seq<string>) returns (p: string, y: string)
    requires RowOf(line, ';') == row
    ensures line == p + y && row != [] && Trim(Browser, Decode(p, false)) == row[0]
    ensures if |row| == 1 then y == [] else y != [] && y[0] == ';' && !Inside(p, false)
  {
    FirstCell(line);
    y := CutPiece(line, ';', false);
    p := Pieces(line, ';', false)[0];
    if y != [] {
      var pieces := Pieces(line, ';', false);
      assert |pieces[1..]| == |Pieces(y[1..], ';', false)| >= 1;
    }
  }

  /** A cell before another one of its row, read as expected, holds no quote. */
  lemma InnerCell(before: seq<string>, cells: seq<string>, rows: Grid)
    requires |cells| > 1 && rows != [] && Fits(rows) && NonEmptyRow(before + TrimAll(cells))
    requires ReadsAfter(before, TailText(cells, rows)) == [before + TrimAll(cells)] + TrimGrid(rows)
    ensures QUOTE !in cells[0]
  {
    var t := TailText(cells, rows);
    TailCount(cells, rows);
    StartsWithBare(cells);
    hide ReadsAfter, TrimGrid, RowWeight, Weight, Fits, Bare, BareText, GridText, NonEmptyRow, RowOf, KeptRows, Inside,
         Count, Trim, Decode;
    var z, line, y := FindRow(before, t, TrimAll(cells), TrimGrid(rows));
    var p, y' := FirstPiece(line, TrimAll(cells));
    if z != [] {
      assert z[0] == t[0] == QUOTE;
      FirstQuoteCloses(z);
    }
    var x := ([';'] + BareText(cells[1..])) + (['\n'] + GridText(rows));
    assert Bare(cells[0]) + x == z + p + (y' + y) by {
      AssociateText(Bare(cells[0]), [';'] + BareText(cells[1..]), ['\n'] + GridText(rows));
      RegroupLine(z, p, y', y);
    }
    if QUOTE in cells[0] { QuotedCellRead(cells[0], x, z, p, y' + y); }
  }

  lemma RegroupLine(z: string, p: string, y: string, rest: string)
    ensures z + ((p + y) + rest) == z + p + (y + rest)
  {
  }

  lemma AssociateText(a: string, b: string, c: string)
    ensures a + (b + c) == a + b + c
  {
  }

  /** The last cell of a row that is not the last, read as expected, holds no quote. */
  lemma LastCell(before: seq<string>, c: string, rows: Grid)
    requires before != [] && rows != [] && Fits(rows) && NonEmptyRow(before + TrimAll([c]))
    requires ReadsAfter(before, TailText([c], rows)) == [before + TrimAll([c])] + TrimGrid(rows)
    ensures QUOTE !in c
  {
    var next := rows[0];
    FitsStep(rows);
    TailOfLast(c, rows);
    var e := FindRowEnd(before, c, rows);
    assert ReadsRowEnd(TailText([c], rows), c, next[0], e);
    hide *;
    var behind := if |rows| == 1 then [] else ['\n'] + GridText(rows[1..]);
    NextRow(c, next, BareText(next[1..]), behind);
    AtRowEnd(TailText([c], rows), c, next[0], BareText(next[1..]) + behind, e);
  }

  lemma AtRowEnd(t: string, c: string, d: string, x: string, e: RowEnd)
    requires ReadsRowEnd(t, c, d, e) && t == Bare(c) + (['\n'] + Bare(d)) + ([';'] + x)
    ensures QUOTE !in c
  {
    hide Trim, Decode, Inside, Count, Bare;
    FoundNext(e.p, e.z, e.r, e.end, e.y);
    QuotedRowEnd(c, d, x, e.p, e.z, e.r, e.end[1..] + e.y);
  }

  lemma TailOfLast(c: string, rows: Grid)
    requires rows != [] && |rows[0]| >= 2
    ensures var behind := if |rows| == 1 then [] else ['\n'] + GridText(rows[1..]);
      TailText([c], rows)
      == Bare(c) + ([] + (['\n'] + ((Bare(rows[0][0]) + ([';'] + BareText(rows[0][1..]))) + behind)))
  {
    StartsWithBare([c]);
    StartsWithBare(rows[0]);
    GridTextStep(rows);
    hide Bare, BareText, GridText;
    var g := GridText(rows);
    assert Bare(c) + [] == Bare(c) && [] + (['\n'] + g) == ['\n'] + g;
  }

  /** Two pieces of a text that are read as a row's last cell and the next row's first, and their seams. */
  datatype RowEnd = RowEnd(p: string, z: string, r: string, end: string, y: string)

  ghost predicate ReadsRowEnd(t: string, c: string, d: string, e: RowEnd) {
    && t == e.p + (['\n'] + (e.z + ((e.r + e.end) + e.y)))
    && Trim(Browser, Decode(e.p, false)) == Trim(Browser, c) && !Inside(e.p, false)
    && Trim(Browser, Decode(e.r, false)) == Trim(Browser, d) && !Inside(e.r, false)
    && Count(e.z, ';') == 0 && (e.z != [] ==> e.z[|e.z| - 1] == '\n') && e.end != [] && e.end[0] == ';'
  }

  /** What the expected rows say of the text. */
  lemma FindRowEnd(before: seq<string>, c: string, rows: Grid) returns (e: RowEnd)
    requires before != [] && rows != [] && Fits(rows) && NonEmptyRow(before + TrimAll([c]))
    requires ReadsAfter(before, TailText([c], rows)) == [before + TrimAll([c])] + TrimGrid(rows)
    ensures |rows[0]| >= 2 && ReadsRowEnd(TailText([c], rows), c, rows[0][0], e)
  {
    var t := TailText([c], rows);
    TailCount([c], rows);
    FitsStep(rows);
    TrimGridStep(rows);
    hide *;
    var z1, line, y1 := FindRow(before, t, TrimAll([c]), TrimGrid(rows));
    FoundAgain(t, z1, line, y1, TrimAll([c]), TrimGrid(rows));
    var p, y' := FirstPiece(line, TrimAll([c]));
    assert p == line;
    var z, line2, y := SkipBlank(y1[1..], TrimGrid(rows));
    FoundAgain(y1[1..], z, line2, y, TrimGrid(rows)[0], TrimGrid(rows)[1..]);
    assert TrimGrid(rows)[0] == TrimAll(rows[0]);
    var r, end := FirstPiece(line2, TrimAll(rows[0]));
    JoinParts(t, line, y1, z, r + end, y);
    e := RowEnd(p, z, r, end, y);
    IsRowEnd(t, c, rows[0][0], e);
  }

  lemma IsRowEnd(t: string, c: string, d: string, e: RowEnd)
    requires t == e.p + (['\n'] + (e.z + ((e.r + e.end) + e.y)))
    requires Trim(Browser, Decode(e.p, false)) == Trim(Browser, c) && !Inside(e.p, false)
    requires Trim(Browser, Decode(e.r, false)) == Trim(Browser, d) && !Inside(e.r, false)
    requires Count(e.z, ';') == 0 && (e.z != [] ==> e.z[|e.z| - 1] == '\n') && e.end != [] && e.end[0] == ';'
    ensures ReadsRowEnd(t, c, d, e)
  {
  }

  lemma JoinParts(t: string, line: string, rest: string, z: string, next: string, y: string)
    requires t == line + rest && rest != [] && rest[0] == '\n' && rest[1..] == z + (next + y)
    ensures t == line + (['\n'] + (z + (next + y)))
  {
    assert rest == ['\n'] + rest[1..];
  }

  lemma FoundAgain(t: string, z: string, line: string, y: string, first: seq<string>, more: Grid)
    requires Found(t, z, line, y, first, more)
    ensures t == z + (line + y) && Count(z, ';') == 0 && (z != [] ==> z[|z| - 1] == '\n') && RowOf(line, ';') == first
    ensures if y == [] then more == []
            else y[0] == '\n' && !Inside(line, false) && KeptRows(y[1..]) == more && Count(y[1..], ';') == Weight(more)
    ensures z == [] ==> t == line + y
  {
  }

  lemma NextRow(c: string, next: seq<string>, others: string, behind: string)
    requires |next| > 1
    ensures Bare(c) + ([] + (['\n'] + ((Bare(next[0]) + ([';'] + others)) + behind)))
         == Bare(c) + (['\n'] + Bare(next[0])) + ([';'] + (others + behind))
  {
    hide Bare;
    var d := Bare(next[0]);
    assert (d + ([';'] + others)) + behind == d + ([';'] + (others + behind));
    assert ['\n'] + (d + ([';'] + (others + behind))) == (['\n'] + d) + ([';'] + (others + behind));
    assert [] + (['\n'] + ((d + ([';'] + others)) + behind)) == ['\n'] + ((d + ([';'] + others)) + behind);
  }

  lemma FoundNext(p: string, z: string, r: string, end: string, y: string)
    requires end != [] && end[0] == ';'
    ensures p + (['\n'] + (z + ((r + end) + y))) == p + (['\n'] + (z + r)) + ([';'] + (end[1..] + y))
  {
    assert end == [';'] + end[1..];
    assert z + ((r + end) + y) == (z + r) + ([';'] + (end[1..] + y));
    assert ['\n'] + ((z + r) + ([';'] + (end[1..] + y))) == (['\n'] + (z + r)) + ([';'] + (end[1..] + y));
  }

  /** A row's last cell without quotes, then a newline: read, and the rows behind it are read on their own. */
  lemma PeelRow(before: seq<string>, c: string, u: string)
    requires QUOTE !in c
    ensures ReadsAfter(before, Bare(c) + (['\n'] + u)) == Keep(before + [Trim(Browser, c)]) + KeptRows(u)
  {
    var t := Bare(c) + (['\n'] + u);
    SealedBare(c, '\n');
    SealedBare(c, ';');
    SealedLine(Bare(c), u);
    KeptStep(t);
    var lines := Pieces(u, '\n', false);
    assert RowOf(Bare(c), ';') == [Trim(Browser, c)];
    hide ReadsAfter, Bare, Trim, Keep, RowOf, Pieces;
    assert RowsOf([Bare(c)] + lines, ';')[1..] == RowsOf(lines, ';') by { assert ([Bare(c)] + lines)[1..] == lines; }
  }

  lemma TailStep(cells: seq<string>, rows: Grid)
    requires cells != []
    ensures TailText(cells, rows)
         == Bare(cells[0]) + if |cells| == 1 then ['\n'] + GridText(rows) else [';'] + TailText(cells[1..], rows)
  {
    StartsWithBare(cells);
    hide Bare, BareText, GridText;
    if |cells| > 1 {
      Regroup(Bare(cells[0]), [';'], BareText(cells[1..]), ['\n'] + GridText(rows));
    } else {
      assert Bare(cells[0]) + [] == Bare(cells[0]);
    }
  }

  lemma Regroup(a: string, seam: string, b: string, c: string)
    ensures (a + (seam + b)) + c == a + (seam + (b + c))
  {
    AssociateText(a, seam + b, c);
    AssociateText(seam, b, c);
  }

  /** What a row and the rows behind it need to be read as expected. */
  lemma {:induction false} RowThenRows(before: seq<string>, cells: seq<string>, rows: Grid)
    requires cells != [] && rows != [] && Fits(rows) && |before| + |cells| >= 2 && NonEmptyRow(before + TrimAll(cells))
    ensures ReadsAfter(before, TailText(cells, rows)) == [before + TrimAll(cells)] + TrimGrid(rows)
       <==> NoQuotes(cells) && KeptRows(GridText(rows)) == TrimGrid(rows)
    decreases |cells|
  {
    TailStep(cells, rows);
    if QUOTE in cells[0] {
      hide *;
      QuotedCell(before, cells, rows);
    } else if |cells| == 1 {
      PeelRow(before, cells[0], GridText(rows));
      hide ReadsAfter, TailText, Bare, Trim, NonEmptyRow, KeptRows, GridText, Fits;
      assert TrimAll(cells) == [Trim(Browser, cells[0])];
      SameTail([before + TrimAll(cells)], KeptRows(GridText(rows)), TrimGrid(rows));
    } else {
      var next := before + [Trim(Browser, cells[0])];
      TrimFirst(before, cells);
      PeelCell(before, cells[0], TailText(cells[1..], rows));
      NoQuotesStep(cells);
      hide ReadsAfter, TailText, Bare, Trim, NonEmptyRow, KeptRows, GridText, Fits, NoQuotes;
      RowThenRows(next, cells[1..], rows);
    }
  }

  lemma NoQuotesStep(cells: seq<string>)
    requires cells != []
    ensures NoQuotes(cells) <==> QUOTE !in cells[0] && NoQuotes(cells[1..])
  {
    assert forall i :: 0 < i < |cells| ==> cells[i] == cells[1..][i - 1];
  }

  lemma QuotedCell(before: seq<string>, cells: seq<string>, rows: Grid)
    requires cells != [] && rows != [] && Fits(rows) && |before| + |cells| >= 2 && NonEmptyRow(before + TrimAll(cells))
    requires QUOTE in cells[0]
    ensures ReadsAfter(before, TailText(cells, rows)) != [before + TrimAll(cells)] + TrimGrid(rows) && !NoQuotes(cells)
  {
    hide ReadsAfter, TailText, Fits, NonEmptyRow, TrimGrid, TrimAll;
    if ReadsAfter(before, TailText(cells, rows)) == [before + TrimAll(cells)] + TrimGrid(rows) {
      if |cells| > 1 {
        InnerCell(before, cells, rows);
      } else {
        assert cells == [cells[0]];
        LastCell(before, cells[0], rows);
      }
    }
  }

  /**
   * Rows of two cells or more, each with a visible one, are read back trimmed if and only if no cell holds
   * a quote, except that the very last one may end with a single one.
   */
  lemma {:induction false} RowsReadBack(rows: Grid)
    requires rows != [] && Fits(rows)
    ensures KeptRows(GridText(rows)) == TrimGrid(rows) <==> AllSurvive(rows)
  {
    if |rows| == 1 {
      OneRow(rows);
    } else {
      MoreRows(rows);
      assert Fits(rows[1..]);
      hide KeptRows, GridText, TrimGrid, NoQuotes, NonEmptyRow;
      RowsReadBack(rows[1..]);
    }
  }

  lemma OneRow(rows: Grid)
    requires |rows| == 1 && Fits(rows)
    ensures KeptRows(GridText(rows)) == TrimGrid(rows) <==> Survive(rows[0])
  {
    var cells := rows[0];
    GridTextStep(rows);
    KeepOnly(TrimAll(cells), []);
    hide ReadsAfter, BareText, GridText, NonEmptyRow, KeptRows, Survive, TrimAll, Keep;
    EmptyBefore(BareText(cells));
    CellsReadBack([], cells);
    assert [] + TrimAll(cells) == TrimAll(cells) && BareText(cells) + [] == BareText(cells);
    assert TrimGrid(rows) == [TrimAll(cells)] + [];
    assert Keep(TrimAll(cells)) + [] == Keep(TrimAll(cells));
  }

  lemma MoreRows(rows: Grid)
    requires |rows| > 1 && Fits(rows)
    ensures KeptRows(GridText(rows)) == TrimGrid(rows)
       <==> NoQuotes(rows[0]) && KeptRows(GridText(rows[1..])) == TrimGrid(rows[1..])
  {
    hide *;
    FitsStep(rows);
    GridIsTail(rows);
    TrimGridStep(rows);
    EmptyBefore(GridText(rows));
    assert [] + TrimAll(rows[0]) == TrimAll(rows[0]);
    RowThenRows([], rows[0], rows[1..]);
  }

  lemma FitsStep(rows: Grid)
    requires rows != [] && Fits(rows)
    ensures Fits(rows[1..]) && |rows[0]| >= 2 && NonEmptyRow(TrimAll(rows[0]))
  {
    hide NonEmptyRow, TrimAll;
  }

  lemma GridIsTail(rows: Grid)
    requires |rows| > 1
    ensures GridText(rows) == TailText(rows[0], rows[1..])
  {
    GridTextStep(rows);
  }

  lemma TrimGridStep(rows: Grid)
    requires rows != []
    ensures TrimGrid(rows) == [TrimAll(rows[0])] + TrimGrid(rows[1..])
  {
    hide TrimAll;
  }

  lemma EmptyBefore(t: string)
    ensures ReadsAfter([], t) == KeptRows(t)
  {
    KeptStep(t);
    hide ReadsAfter, KeptRows, RowOf, Keep, LaterRows, Pieces;
    var row := RowOf(Pieces(t, '\n', false)[0], ';');
    assert [] + row == row;
  }

  // ----- why every row needs a visible cell -----

  /** A quote at the end of the first row, a blank row, and a third that falls into place. */
  const HIDDEN: Grid := [["\n", "\""], ["\n", " "], [";", "\n;"]]

  lemma PairText(a: string, b: string)
    ensures BareText([a, b]) == Bare(a) + ([';'] + Bare(b))
  {
    BareTextStep([a, b]);
    BareTextStep([b]);
    assert [a, b][1..] == [b] && Bare(b) + [] == Bare(b);
  }

  lemma HiddenRows()
    ensures BareText(["\n", "\""]) == "\"\n\";\"\"\""
    ensures BareText(["\n", " "]) == "\"\n\";\" \""
    ensures BareText([";", "\n;"]) == "\";\";\"\n;\""
  {
    PairText("\n", "\"");
    PairText("\n", " ");
    PairText(";", "\n;");
    hide BareText;
  }

  lemma ThreeRows(a: seq<string>, b: seq<string>, c: seq<string>)
    ensures GridText([a, b, c]) == BareText(a) + (['\n'] + (BareText(b) + (['\n'] + BareText(c))))
  {
    hide BareText, GridText;
    var rows := [a, b, c];
    GridTextStep(rows);
    GridTextStep([b, c]);
    GridTextStep([c]);
    assert rows[1..] == [b, c] && [b, c][1..] == [c];
    assert BareText(c) + [] == BareText(c);
  }

  /** The text of these rows, cut as it is read. */
  lemma HiddenText()
    ensures GridText(HIDDEN) == "\"\n\";\"\"\"\n\"" + ("\n" + ("\";\" \"\n\";\";\"" + ("\n" + ";\"")))
  {
    HiddenRows();
    hide BareText, GridText;
    ThreeRows(["\n", "\""], ["\n", " "], [";", "\n;"]);
  }

  lemma HiddenFirst()
    ensures var line := "\"\n\";\"\"\"\n\""; Sealed(line, '\n') && RowOf(line, ';') == ["", "\""]
  {
    var cells := ["\n", "\"\n"];
    PrintRowStep(cells, ';');
    PrintRowStep(cells[1..], ';');
    EscapePlain("\n");
    assert Escape("\"\n") == ['"', '"'] + Escape("\n");
    assert PrintRow(cells, ';') == "\"\n\";\"\"\"\n\"";
    SealedRow(cells, ';', '\n');
    ReadPrintedRow(cells, ';');
    assert Trim(Browser, "\n") == "";
    assert Trim(Browser, "\"\n") == "\"" by { assert "\"\n"[..1] == "\""; }
    hide PrintRow, Trim, RowOf, Sealed;
    assert TrimAll(cells) == ["", "\""];
  }

  lemma HiddenCell()
    ensures var cell := "\";\" \"\n\"";
      Sealed(cell, '\n') && Sealed(cell, ';') && Trim(Browser, Decode(cell, false)) == ";"
  {
    var a, b := Quoted(";"), Quoted("\n");
    EscapePlain(";");
    EscapePlain("\n");
    forall c | c == '\n' || c == ';' ensures Sealed("\";\" \"\n\"", c) {
      SealedQuoted(";", c);
      SealedQuoted("\n", c);
      SealedPlain(" ", c);
      SealedAppend(a, " ", c);
      SealedAppend(a + " ", b, c);
      assert a + " " + b == "\";\" \"\n\"";
    }
    assert a == "\";\"" && b == "\"\n\"" && a + (" " + b) == "\";\" \"\n\"";
    DecodeQuoted(";", " " + b);
    DecodePrefix(" ", b, false);
    DecodeQuoted("\n", []);
    assert b + [] == b && Decode([], false) == [];
    assert Decode(a + (" " + b), false) == "; \n";
    HiddenCellTrim();
  }

  lemma HiddenCellTrim()
    ensures Trim(Browser, "; \n") == ";"
  {
    assert "; \n"[..2] == "; " && "; "[..1] == ";";
    assert IsSpace(Browser, '\n') && IsSpace(Browser, ' ') && !IsSpace(Browser, ';');
    hide IsSpace;
    assert TrimStart(Browser, "; \n") == "; \n";
    assert TrimEnd(Browser, ";") == ";" && TrimEnd(Browser, "; ") == ";";
  }

  lemma HiddenSecond()
    ensures var line := "\";\" \"\n\";\";\""; Sealed(line, '\n') && RowOf(line, ';') == [";", ";"]
  {
    var cell, last := "\";\" \"\n\"", "\";\"";
    HiddenCell();
    SealedBare(";", '\n');
    SealedBare(";", ';');
    assert Bare(";") == last;
    SealedPlain(";", '\n');
    TrimFixed(Browser, ";");
    hide Sealed, Trim, Decode;
    SealedAppend(cell, ";", '\n');
    SealedAppend(cell + ";", last, '\n');
    assert cell + ";" + last == "\";\" \"\n\";\";\"" == Join([cell, last], ";");
    PiecesJoin([cell, last], ';');
    assert [cell, last][1..] == [last] && [last][1..] == [];
    assert Cells([cell, last]) == [";", ";"];
  }

  lemma HiddenThird()
    ensures KeptRows(";\"") == []
  {
    PiecesOne(QUOTE, '\n', false);
    PiecesOne(QUOTE, ';', false);
    assert ";\"" == [';', QUOTE] && [';', QUOTE][1..] == [QUOTE];
    PiecesStep([';', QUOTE], '\n', false);
    assert [';'] + [QUOTE] == [';', QUOTE] && [[QUOTE]][1..] == [] && [[';', QUOTE]] + [] == [[';', QUOTE]];
    assert Pieces([';', QUOTE], '\n', false) == [[';', QUOTE]];
    assert Pieces([';', QUOTE], ';', false) == ["", [QUOTE]];
    assert [QUOTE][1..] == [] && Decode([QUOTE], false) == "" && Decode("", false) == "" && Trim(Browser, "") == "";
    hide Pieces, Decode, Trim;
    assert ["", [QUOTE]][1..] == [[QUOTE]] && [[QUOTE]][1..] == [];
    assert Cells(["", [QUOTE]]) == ["", ""];
    assert [[';', QUOTE]][1..] == [] && KeepRows([["", ""]]) == [] by { assert [["", ""]][1..] == []; }
  }

  /** With a blank row among them, rows can be read back although a quote stands in the first of them. */
  lemma BlankRowHides()
    ensures KeptRows(GridText(HIDDEN)) == KeepRows(TrimGrid(HIDDEN)) && !AllSurvive(HIDDEN)
  {
    HiddenText();
    HiddenFirst();
    HiddenSecond();
    HiddenThird();
    HiddenExpected();
    assert NonEmptyRow(["", "\""]) && NonEmptyRow([";", ";"]) by { assert ["", "\""][1] != [] && [";", ";"][0] != []; }
    hide *;
    TwoLines("\"\n\";\"\"\"\n\"", ["", "\""], "\";\" \"\n\";\";\"", [";", ";"], ";\"");
  }

  lemma TwoLines(first: string, a: seq<string>, second: string, b: seq<string>, last: string)
    requires Sealed(first, '\n') && RowOf(first, ';') == a && NonEmptyRow(a)
    requires Sealed(second, '\n') && RowOf(second, ';') == b && NonEmptyRow(b)
    requires KeptRows(last) == []
    ensures KeptRows(first + ("\n" + (second + ("\n" + last)))) == [a, b]
  {
    hide *;
    var rest := second + ("\n" + last);
    HeadedRead(first, a, rest);
    HeadedRead(second, b, last);
    EmptyBefore(rest);
    EmptyBefore(last);
    ReadsAsGrid(first + ("\n" + rest));
    ReadsAsGrid(rest);
    assert [a] + ([b] + []) == [a, b];
  }

  lemma ReadsAsGrid(t: string)
    ensures KeptRows(t) == GridWith(t, ';')
  {
  }

  lemma HiddenTrims()
    ensures TrimGrid(HIDDEN) == [["", "\""], ["", ""], [";", ";"]]
  {
    assert Trim(Browser, "\n") == "" && Trim(Browser, " ") == "";
    TrimFixed(Browser, "\"");
    TrimFixed(Browser, ";");
    assert Trim(Browser, "\n;") == ";" by { assert "\n;"[1..] == ";"; }
    hide Trim;
    assert TrimAll(["\n", "\""]) == ["", "\""] && TrimAll(["\n", " "]) == ["", ""];
    assert TrimAll([";", "\n;"]) == [";", ";"];
  }

  lemma KeepOutside(a: seq<string>, b: seq<string>, c: seq<string>)
    requires NonEmptyRow(a) && !NonEmptyRow(b) && NonEmptyRow(c)
    ensures KeepRows([a, b, c]) == [a, c]
  {
    hide NonEmptyRow;
    assert [a, b, c][1..] == [b, c] && [b, c][1..] == [c] && [c][1..] == [];
    assert KeepRows([c]) == [c] && KeepRows([b, c]) == [c];
  }

  lemma HiddenExpected()
    ensures KeepRows(TrimGrid(HIDDEN)) == [["", "\""], [";", ";"]] && !AllSurvive(HIDDEN)
  {
    HiddenTrims();
    assert ["", "\""][1] != [] && [";", ";"][0] != [];
    KeepOutside(["", "\""], ["", ""], [";", ";"]);
    hide TrimGrid;
    assert HIDDEN[0][1] == "\"" && "\""[0] == QUOTE;
  }

  // ----- the export of any list of leads -----

  lemma {:induction false} UnixGridText(rows: Grid)
    requires rows != [] && forall i :: 0 <= i < |rows| ==> rows[i] != []
    ensures UnixLines(GridText(rows)) == GridText(UnixGrid(rows))
  {
    GridTextStep(rows);
    GridTextStep(UnixGrid(rows));
    UnixBareText(rows[0]);
    assert UnixGrid(rows)[1..] == UnixGrid(rows[1..]);
    hide UnixLines, GridText, BareText;
    if |rows| > 1 {
      UnixGridText(rows[1..]);
      UnixPlain(['\n']);
      EndsQuoted(rows[0]);
      UnixAppend(BareText(rows[0]), ['\n'] + GridText(rows[1..]));
      StartsQuoted(rows[1..]);
      UnixAppend(['\n'], GridText(rows[1..]));
    } else {
      assert BareText(rows[0]) + [] == BareText(rows[0]);
      assert BareText(UnixAll(rows[0])) + [] == BareText(UnixAll(rows[0]));
    }
  }

  lemma {:induction false} EndsQuoted(cells: seq<string>)
    requires cells != []
    ensures BareText(cells) != [] && BareText(cells)[|BareText(cells)| - 1] == QUOTE != '\r'
  {
    BareTextStep(cells);
    hide BareText;
    if |cells| > 1 { EndsQuoted(cells[1..]); }
  }

  lemma StartsQuoted(rows: Grid)
    requires rows != [] && rows[0] != []
    ensures GridText(rows) != [] && GridText(rows)[0] == QUOTE
  {
    GridTextStep(rows);
    StartsWithBare(rows[0]);
  }

  lemma {:induction false} UnixAllSurvive(rows: Grid)
    requires forall i :: 0 <= i < |rows| ==> rows[i] != []
    ensures AllSurvive(UnixGrid(rows)) <==> AllSurvive(rows)
  {
    if rows != [] {
      UnixSurvive(rows[0]);
      UnixNoQuotes(rows[0]);
      hide Survive, NoQuotes;
      UnixAllSurvive(rows[1..]);
      assert UnixGrid(rows)[1..] == UnixGrid(rows[1..]);
    }
  }

  lemma UnixNoQuotes(cells: seq<string>)
    ensures NoQuotes(UnixAll(cells)) <==> NoQuotes(cells)
  {
    hide UnixLines;
    forall i | 0 <= i < |cells| ensures QUOTE in UnixAll(cells)[i] <==> QUOTE in cells[i] { UnixQuotes(cells[i]); }
  }

  lemma TidyIsTrimmed(grid: Grid)
    ensures TrimGrid(UnixGrid(grid)) == Tidy(grid)
  {
    hide TrimAll, UnixAll;
  }

  /** The normalised file: header line, newline, the leads' bare rows. */
  lemma LeadsNormalised(leads: seq<Lead>, options: Options)
    requires leads != []
    ensures Normalised(ExportText(leads, options))
         == Join(HeaderRow(options), ";") + ("\n" + GridText(UnixGrid(LeadGrid(leads, options))))
  {
    var line, grid := Join(HeaderRow(options), ";"), LeadGrid(leads, options);
    HeaderLine(options);
    assert forall i :: 0 <= i < |grid| ==> grid[i] != [];
    LeadsText(leads, options);
    UnixPlain(line);
    UnixPlain("\n");
    hide HeaderRow, LeadCells, LeadGrid, BareText, ExportText, Sealed, RowOf;
    UnixGridText(grid);
    StartsQuoted(grid);
    assert ([BOM] + (line + ("\n" + GridText(grid))))[1..] == line + ("\n" + GridText(grid));
    hide UnixLines, GridText;
    UnixAppend(line, "\n" + GridText(grid));
    UnixAppend("\n", GridText(grid));
  }

  lemma LeadsText(leads: seq<Lead>, options: Options)
    requires leads != []
    ensures ExportText(leads, options)
         == [BOM] + (Join(HeaderRow(options), ";") + ("\n" + GridText(LeadGrid(leads, options))))
  {
    var line := Join(HeaderRow(options), ";");
    var rows := BareRows(LeadGrid(leads, options));
    assert ExportText(leads, options) == [BOM] + Join([line] + rows, "\n");
    hide HeaderRow, LeadCells, LeadGrid, ExportText;
    JoinStep([line] + rows, "\n");
    assert ([line] + rows)[1..] == rows;
  }

  lemma VisibleFits(leads: seq<Lead>, options: Options)
    requires AllVisible(Tidy(LeadGrid(leads, options)))
    ensures Fits(UnixGrid(LeadGrid(leads, options)))
  {
    var grid := LeadGrid(leads, options);
    LeadWidths(leads, options);
    TidyIsTrimmed(grid);
    hide LeadGrid, TrimAll, NonEmptyRow, Tidy, UnixAll;
    var unix := UnixGrid(grid);
    forall i | 0 <= i < |unix| ensures |unix[i]| >= 2 && NonEmptyRow(TrimAll(unix[i])) {
      assert TrimGrid(unix)[i] == TrimAll(unix[i]);
    }
  }

  lemma LeadWidths(leads: seq<Lead>, options: Options)
    ensures forall i :: 0 <= i < |leads| ==> |LeadGrid(leads, options)[i]| >= 8 && LeadGrid(leads, options)[i] != []
  {
  }

  /**
   * The exact condition for every list of leads with something to show, and any choice of columns: the
   * reader returns the header and every lead's cells, newline-normalised and trimmed, if and only if no
   * cell holds a double quote, except that the very last one of the file may end with a single one.
   */
  lemma LeadsReadBack(leads: seq<Lead>, options: Options)
    requires AllVisible(Tidy(LeadGrid(leads, options)))
    ensures ParsedGrid(ExportText(leads, options)) == [HeaderRow(options)] + Tidy(LeadGrid(leads, options))
       <==> AllSurvive(LeadGrid(leads, options))
  {
    if leads == [] {
      ExportRoundTrip(leads, options);
    } else {
      SomeLeadsReadBack(leads, options);
    }
  }

  lemma SomeLeadsReadBack(leads: seq<Lead>, options: Options)
    requires leads != [] && AllVisible(Tidy(LeadGrid(leads, options)))
    ensures ParsedGrid(ExportText(leads, options)) == [HeaderRow(options)] + Tidy(LeadGrid(leads, options))
       <==> AllSurvive(LeadGrid(leads, options))
  {
    hide *;
    var grid := LeadGrid(leads, options);
    LeadWidths(leads, options);
    VisibleFits(leads, options);
    ReadBehindHeader(leads, options);
    RowsReadBack(UnixGrid(grid));
    UnixAllSurvive(grid);
    TidyIsTrimmed(grid);
    SameTail([HeaderRow(options)], KeptRows(GridText(UnixGrid(grid))), Tidy(grid));
  }

  lemma ReadBehindHeader(leads: seq<Lead>, options: Options)
    requires leads != []
    ensures ParsedGrid(ExportText(leads, options))
         == [HeaderRow(options)] + KeptRows(GridText(UnixGrid(LeadGrid(leads, options))))
  {
    var header, rows := HeaderRow(options), GridText(UnixGrid(LeadGrid(leads, options)));
    var line := Join(header, ";");
    PlainHeaders(options);
    HeaderLine(options);
    LeadsNormalised(leads, options);
    assert NonEmptyRow(header) by { assert header[0] in header; }
    hide HeaderRow, LeadCells, LeadGrid, ExportText, GridText, Sealed, RowOf, Normalised, Join, ReadsAfter, KeptRows;
    HeadedRead(line, header, rows);
    FirstLinePrefix(line, "\n" + rows);
    EmptyBefore(rows);
  }

  /** The same for one lead, whether or not it has anything to show. */
  lemma OneLeadReadBack(lead: Lead, options: Options)
    ensures LeadCells(lead, options) != []
    ensures ParsedGrid(ExportText([lead], options))
         == [HeaderRow(options)] + KeepRows(Tidy(LeadGrid([lead], options)))
       <==> Survive(LeadCells(lead, options))
  {
    var cells := LeadCells(lead, options);
    var unix := UnixAll(cells);
    assert cells != [] && LeadGrid([lead], options) == [cells];
    ReadBehindHeader([lead], options);
    GridTextStep([unix]);
    TidyOne(lead, options);
    assert UnixGrid([cells]) == [unix];
    assert [] + TrimAll(unix) == TrimAll(unix) && BareText(unix) + [] == BareText(unix);
    hide *;
    EmptyBefore(BareText(unix));
    CellsReadBack([], unix);
    UnixSurvive(cells);
    SameTail([HeaderRow(options)], KeptRows(BareText(unix)), Keep(TrimAll(unix)));
  }

  lemma TidyOne(lead: Lead, options: Options)
    ensures KeepRows(Tidy(LeadGrid([lead], options))) == Keep(TrimAll(UnixAll(LeadCells(lead, options))))
  {
    hide LeadCells, TrimAll, UnixAll, Keep;
    var tidy := Tidy(LeadGrid([lead], options));
    assert tidy == [TrimAll(UnixAll(LeadCells(lead, options)))] && tidy[1..] == [];
    assert Keep(tidy[0]) + [] == Keep(tidy[0]);
  }

  lemma {:induction false} FirstCellsPlain(rows: Grid, k: nat)
    requires AllSurvive(rows) && k < |rows| && |rows[k]| >= 2
    ensures QUOTE !in rows[k][0]
  {
    if k > 0 { FirstCellsPlain(rows[1..], k - 1); }
  }

  /** So a list with a double quote in the name of some lead, say, is never read back. */
  lemma QuotedNameLost(leads: seq<Lead>, options: Options, k: nat)
    requires AllVisible(Tidy(LeadGrid(leads, options))) && k < |leads| && QUOTE in leads[k].name
    ensures ParsedGrid(ExportText(leads, options)) != [HeaderRow(options)] + Tidy(LeadGrid(leads, options))
  {
    LeadWidths(leads, options);
    assert LeadGrid(leads, options)[k][0] == leads[k].name;
    LeadsReadBack(leads, options);
    hide ParsedGrid, ExportText, HeaderRow, LeadGrid, LeadCells, Tidy, KeepRows, AllVisible, AllSurvive;
    if AllSurvive(LeadGrid(leads, options)) { FirstCellsPlain(LeadGrid(leads, options), k); }
  }

  /** With the intent columns every lead has something to show. */
  lemma IntentLeadsReadBack(leads: seq<Lead>, options: Options)
    requires options.intent
    ensures ParsedGrid(ExportText(leads, options)) == [HeaderRow(options)] + Tidy(LeadGrid(leads, options))
       <==> AllSurvive(LeadGrid(leads, options))
  {
    assert AllVisible(Tidy(LeadGrid(leads, options))) by {
      forall i | 0 <= i < |leads| ensures NonEmptyRow(Tidy(LeadGrid(leads, options))[i]) {
          ScoreVisible(leads[i], options); }
    }
    hide *;
    LeadsReadBack(leads, options);
  }
}
