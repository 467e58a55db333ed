/**
 * One row of the lead export read back (frontend/src/components/ExportModal.tsx): exactly which double
 * quotes inside its cells survive, although none is doubled.
 */
module ExportQuotes {
  import opened Text
  import opened CsvParser
  import opened CsvReading
  import opened CsvPrinters
  import opened LeadExport

  /** No quote, or a single one at the end, which the closing quote then doubles. */
  predicate SurvivesLast(s: string) {
    QUOTE !in s || (s[|s| - 1] == QUOTE && QUOTE !in s[..|s| - 1])
  }

  /** Every cell but the last is free of quotes, and the last one survives at the end of the file. */
  predicate Survive(cells: seq<string>)
    requires cells != []
  {
    if |cells| == 1 then SurvivesLast(cells[0]) else QUOTE !in cells[0] && Survive(cells[1..])
  }

  function BareText(cells: seq<string>): string { Join(BareAll(cells), ";") }

  /** The rows read from `t` when the cells `before` already stand in the first of them. */
  function ReadsAfter(before: seq<string>, t: string): Grid {
    var rows := RowsOf(Pieces(t, '\n', false), ';');
    Keep(before + rows[0]) + KeepRows(rows[1..])
  }

  // ----- counting -----

  lemma {:induction false} InsideParity(s: string, quoted: bool)
    ensures Inside(s, quoted) == ((Count(s, QUOTE) % 2 == 1) != quoted)
  {
    if s != [] { InsideParity(s[1..], (s[0] == QUOTE) != quoted); }
  }

  /** Unquoting keeps other characters, and uses up at least two quotes for each one it leaves. */
  lemma {:induction false} DecodeCount(s: string, quoted: bool)
    ensures forall c :: c != QUOTE ==> Count(Decode(s, quoted), c) == Count(s, c)
    ensures 2 * Count(Decode(s, quoted), QUOTE) <= Count(s, QUOTE)
    ensures !quoted && QUOTE in Decode(s, quoted) ==> 2 * Count(Decode(s, quoted), QUOTE) < Count(s, QUOTE)
    decreases |s|
  {
    CountAbsent(Decode(s, quoted), QUOTE);
    if s == [] {
    } else if s[0] != QUOTE {
      DecodeCount(s[1..], quoted);
      CountAbsent(Decode(s[1..], quoted), QUOTE);
    } else if quoted && |s| > 1 && s[1] == QUOTE {
      DecodeCount(s[2..], quoted);
      assert s[1..][1..] == s[2..];
    } else {
      DecodeCount(s[1..], !quoted);
    }
  }

  lemma {:induction false} BlankCount(host: Host, s: string, c: char)
    requires Blank(host, s) && !IsSpace(host, c)
    ensures Count(s, c) == 0
  {
    CountAbsent(s, c);
  }

  lemma TrimCount(s: string, c: char)
    requires !IsSpace(Browser, c)
    ensures Count(Trim(Browser, s), c) == Count(s, c)
  {
    var i, j := TrimCut(Browser, s);
    hide Trim;
    BlankCount(Browser, s[..i], c);
    BlankCount(Browser, s[j..], c);
    assert s == s[..i] + (s[i..j] + s[j..]);
    CountAppend(s[..i], s[i..j] + s[j..], c);
    CountAppend(s[i..j], s[j..], c);
  }

  lemma {:induction false} PiecesCount(s: string, c: char, quoted: bool)
    requires c != QUOTE
    ensures Count(s, c) == |Pieces(s, c, quoted)| - 1 + Occurrences(Pieces(s, c, quoted), c)
  {
    if s != [] {
      var next := if s[0] == c && !quoted then quoted else (s[0] == QUOTE) != quoted;
      PiecesCount(s[1..], c, next);
      var rest := Pieces(s[1..], c, next);
      if s[0] == c && !quoted {
        assert ([[]] + rest)[1..] == rest;
      } else {
        var all := [[s[0]] + rest[0]] + rest[1..];
        assert all[1..] == rest[1..] && all[0][1..] == rest[0];
      }
    }
  }

  lemma {:induction false} CellsCount(pieces: seq<string>)
    ensures Occurrences(Cells(pieces), ';') == Occurrences(pieces, ';')
  {
    if pieces != [] {
      DecodeCount(pieces[0], false);
      TrimCount(Decode(pieces[0], false), ';');
      CellsCount(pieces[1..]);
      assert Cells(pieces)[1..] == Cells(pieces[1..]);
    }
  }

  /** A line's semicolons are those between its cells and those inside them. */
  lemma RowCount(line: string)
    ensures Count(line, ';') == |RowOf(line, ';')| - 1 + Occurrences(RowOf(line, ';'), ';')
  {
    PiecesCount(line, ';', false);
    CellsCount(Pieces(line, ';', false));
  }

  lemma BareCount(s: string, c: char)
    ensures Count(Bare(s), c) == Count(s, c) + if c == QUOTE then 2 else 0
  {
    assert [QUOTE][1..] == [];
    CountAppend([QUOTE] + s, [QUOTE], c);
    CountAppend([QUOTE], s, c);
  }

  lemma BareTextStep(cells: seq<string>)
    requires cells != []
    ensures BareText(cells) == Bare(cells[0]) + if |cells| == 1 then [] else [';'] + BareText(cells[1..])
  {
    if |cells| > 1 {
      assert BareAll(cells)[1..] == BareAll(cells[1..]);
      JoinStep(BareAll(cells), ";");
    }
  }

  lemma {:induction false} BareTextCount(cells: seq<string>)
    requires cells != []
    ensures Count(BareText(cells), ';') == |cells| - 1 + Occurrences(cells, ';')
  {
    BareTextStep(cells);
    BareCount(cells[0], ';');
    if |cells| > 1 {
      BareTextCount(cells[1..]);
      hide BareText, Bare;
      var tail := BareText(cells[1..]);
      CountAppend(Bare(cells[0]), [';'] + tail, ';');
      assert ([';'] + tail)[1..] == tail;
    } else {
      assert Bare(cells[0]) + [] == Bare(cells[0]);
      assert Occurrences(cells[1..], ';') == 0;
    }
  }

  lemma {:induction false} TrimAllCount(cells: seq<string>)
    ensures Occurrences(TrimAll(cells), ';') == Occurrences(cells, ';')
  {
    if cells != [] {
      TrimCount(cells[0], ';');
      TrimAllCount(cells[1..]);
      assert TrimAll(cells)[1..] == TrimAll(cells[1..]);
    }
  }

  // ----- where a piece stands -----

  /** Piece k of a text, what stands before it and behind it. */
  lemma {:induction false} PieceAt(s: string, c: char, quoted: bool, k: nat) returns (z: string, y: string)
    requires c != QUOTE && k < |Pieces(s, c, quoted)|
    ensures s == z + Pieces(s, c, quoted)[k] + y
    ensures if k == 0 then z == [] else z != [] && !Inside(z, quoted)
    ensures y != [] ==> !Inside(z + Pieces(s, c, quoted)[k], quoted)
  {
    if s == [] {
      z, y := [], [];
    } else if s[0] == c && !quoted {
      if k == 0 {
        z, y := [], s;
      } else {
        var z';
        z', y := PieceAt(s[1..], c, quoted, k - 1);
        z := [c] + z';
        var piece := Pieces(s[1..], c, quoted)[k - 1];
        assert Pieces(s, c, quoted)[k] == piece && Inside([], quoted) == quoted;
        hide Pieces, Inside;
        PieceBehind(c, z', piece, y, quoted);
        assert s == [c] + s[1..];
      }
    } else {
      var next := (s[0] == QUOTE) != quoted;
      var z';
      z', y := PieceAt(s[1..], c, next, k);
      var piece := Pieces(s[1..], c, next)[k];
      assert Pieces(s, c, quoted)[k] == if k == 0 then [s[0]] + piece else piece;
      hide Pieces, Inside;
      assert s == [s[0]] + s[1..];
      PieceBehind(s[0], z', piece, y, quoted);
      z := if k == 0 then [] else [s[0]] + z';
    }
  }

  lemma PieceBehind(x: char, z: string, piece: string, y: string, quoted: bool)
    ensures [x] + (z + piece + y) == ([x] + z) + piece + y
    ensures z == [] ==> [x] + (z + piece + y) == [] + ([x] + piece) + y
    ensures var next := (x == QUOTE) != quoted;
      Inside([x] + z, quoted) == Inside(z, next) && Inside(([x] + z) + piece, quoted) == Inside(z + piece, next)
    ensures z == [] ==> Inside([] + ([x] + piece), quoted) == Inside(z + piece, (x == QUOTE) != quoted)
  {
    assert ([x] + z)[1..] == z && (([x] + z) + piece)[1..] == z + piece;
    if z == [] { assert ([] + ([x] + piece))[1..] == piece && z + piece == piece; }
  }

  // ----- a cell with a quote -----

  lemma {:induction false} DecodePrefix(u: string, s: string, quoted: bool)
    requires QUOTE !in u
    ensures Decode(u + s, quoted) == u + Decode(s, quoted)
  {
    if u == [] {
      assert u + s == s;
    } else {
      assert (u + s)[1..] == u[1..] + s && (u + s)[0] == u[0];
      DecodePrefix(u[1..], s, quoted);
    }
  }

  /** The only quote of a cell, between quotes, is left over only at the cell's end. */
  lemma OneQuote(u: string, v: string)
    requires QUOTE !in u && QUOTE !in v
    ensures Decode(Bare(u + [QUOTE] + v), false) == if v == [] then u + [QUOTE] else u + v
  {
    var tail := [QUOTE] + v + [QUOTE];
    assert Bare(u + [QUOTE] + v) == [QUOTE] + (u + tail);
    assert ([QUOTE] + (u + tail))[1..] == u + tail;
    DecodePrefix(u, tail, true);
    if v == [] {
      assert tail == [QUOTE, QUOTE] && tail[2..] == [];
    } else {
      assert tail[1..] == v + [QUOTE] && tail[1] == v[0];
      DecodePrefix(v, [QUOTE], false);
      assert [QUOTE][1..] == [];
    }
  }

  lemma {:induction false} SplitAtQuote(s: string) returns (u: string, v: string)
    requires QUOTE in s
    ensures s == u + [QUOTE] + v && QUOTE !in u && Count(s, QUOTE) == 1 + Count(v, QUOTE)
  {
    if s[0] == QUOTE {
      u, v := [], s[1..];
    } else {
      var u';
      u', v := SplitAtQuote(s[1..]);
      u := [s[0]] + u';
    }
  }

  lemma LastQuoteSurvives(c: string)
    requires Count(c, QUOTE) == 1 && Count(Decode(Bare(c), false), QUOTE) == 1
    ensures SurvivesLast(c)
  {
    CountAbsent(c, QUOTE);
    var u, v := SplitAtQuote(c);
    CountAbsent(v, QUOTE);
    OneQuote(u, v);
    hide Decode, Bare;
    if v != [] {
      CountAbsent(u, QUOTE);
      CountAppend(u, v, QUOTE);
    } else {
      assert c[..|c| - 1] == u;
    }
  }

  lemma PrefixCount(a: string, b: string, c: char)
    requires a <= b
    ensures Count(a, c) <= Count(b, c)
    ensures a < b && b[|b| - 1] == c ==> Count(a, c) < Count(b, c)
  {
    assert b == a + b[|a|..];
    CountAppend(a, b[|a|..], c);
    CountAbsent(b[|a|..], c);
    if a < b { assert b[|b| - 1] == b[|a|..][|b| - |a| - 1]; }
  }

  /**
   * The heart of the matter: a piece `p` of the text that starts with the bare cell `c`, which holds a
   * quote, can be read as `c` only if `c` is the whole text and its one quote stands at its end.
   */
  lemma QuotedCellRead(c: string, x: string, z: string, p: string, y: string)
    requires QUOTE in c && Bare(c) + x == z + p + y && (x != [] ==> x[0] == ';')
    requires Count(z, ';') == 0 && Trim(Browser, Decode(p, false)) == Trim(Browser, c)
    requires z != [] ==> Count(z, QUOTE) >= 2
    requires y != [] ==> !Inside(p, false)
    ensures x == [] && SurvivesLast(c)
  {
    TrimCount(c, ';'); TrimCount(c, QUOTE);
    TrimCount(Decode(p, false), ';'); TrimCount(Decode(p, false), QUOTE);
    DecodeCount(p, false);
    BareCount(c, ';'); BareCount(c, QUOTE);
    CountAbsent(c, QUOTE);
    CountAbsent(Decode(p, false), QUOTE);
    CountAppend(z, p, ';'); CountAppend(z, p, QUOTE);
    InsideParity(p, false);
    hide Trim, Count, Inside, Decode;
    var b, front := Bare(c), z + p;
    assert front <= b + x;
    if |front| > |b| {
      assert b + [';'] <= front;
      PrefixCount(b, b + [';'], ';');
      PrefixCount(b + [';'], front, ';');
      assert false;
    }
    assert front <= b;
    assert b[|b| - 1] == QUOTE;
    PrefixCount(front, b, QUOTE);
    assert z == [] && Count(c, QUOTE) == 1;
    assert p == front == b;
    LastQuoteSurvives(c);
  }

  // ----- a row whose first cell holds a quote -----

  lemma FirstCell(line: string)
    ensures RowOf(line, ';') != []
    ensures RowOf(line, ';')[0] == Trim(Browser, Decode(Pieces(line, ';', false)[0], false))
  {
  }

  lemma QuoteVisible(cells: seq<string>, before: seq<string>)
    requires cells != [] && QUOTE in cells[0]
    ensures NonEmptyRow(before + TrimAll(cells))
  {
    TrimVisible(Browser, cells[0], QUOTE);
    assert (before + TrimAll(cells))[|before|] == TrimAll(cells)[0];
  }

  /** If line k of the text reads as the cells, the first of which holds a quote, it is the only cell. */
  lemma QuotedRowRead(before: seq<string>, cells: seq<string>, k: nat)
    requires cells != [] && QUOTE in cells[0]
    requires var lines := Pieces(BareText(cells), '\n', false);
      k < |lines| && RowOf(lines[k], ';') == (if k == 0 then [] else before) + TrimAll(cells)
    ensures |cells| == 1 && SurvivesLast(cells[0])
  {
    hide Pieces, RowOf, BareText, Bare, Trim, Decode, TrimAll, SurvivesLast, Count, Survive;
    var t := BareText(cells);
    var line := Pieces(t, '\n', false)[k];
    var z, y := PieceAt(t, '\n', false, k);
    var z', y' := PieceAt(line, ';', false, 0);
    var p := Pieces(line, ';', false)[0];
    StartsWithBare(cells);
    var x := if |cells| == 1 then [] else [';'] + BareText(cells[1..]);
    FirstCell(line);
    NothingBefore(before, cells, k, z, line, y);
    InsideAppend(z, line, false);
    if z != [] { FirstQuoteCloses(z); }
    assert z == [] ==> z + line == line;
    assert z' + p == p;
    if y' == [] { assert line == p; }
    assert y' + y != [] ==> !Inside(p, false);
    hide *;
    assert t == z + p + (y' + y);
    QuotedCellRead(cells[0], x, z, p, y' + y);
  }

  lemma StartsWithBare(cells: seq<string>)
    requires cells != []
    ensures BareText(cells) == Bare(cells[0]) + if |cells| == 1 then [] else [';'] + BareText(cells[1..])
    ensures BareText(cells) != [] && BareText(cells)[0] == QUOTE
  {
    BareTextStep(cells);
  }

  lemma FirstQuoteCloses(z: string)
    requires z != [] && z[0] == QUOTE && !Inside(z, false)
    ensures Count(z, QUOTE) >= 2
  {
    InsideParity(z, false);
    CountAbsent(z, QUOTE);
  }

  /** Semicolons tell that no cell stands before the row, nor a semicolon before its line. */
  lemma NothingBefore(before: seq<string>, cells: seq<string>, k: nat, z: string, line: string, y: string)
    requires cells != [] && BareText(cells) == z + line + y && (k == 0 ==> z == [])
    requires RowOf(line, ';') == (if k == 0 then [] else before) + TrimAll(cells)
    ensures Count(z, ';') == 0 && RowOf(line, ';') == TrimAll(cells)
  {
    var front := if k == 0 then [] else before;
    BareTextCount(cells);
    TrimAllCount(cells);
    RowCount(line);
    OccurrencesAppend(front, TrimAll(cells), ';');
    hide BareText, RowOf, TrimAll, Occurrences, Count;
    CountAppend(z + line, y, ';');
    CountAppend(z, line, ';');
    assert |front| == 0;
  }

  lemma {:induction false} OccurrencesAppend(a: seq<string>, b: seq<string>, c: char)
    ensures Occurrences(a + b, c) == Occurrences(a, c) + Occurrences(b, c)
  {
    if a == [] {
      assert a + b == b;
    } else {
      assert (a + b)[1..] == a[1..] + b && (a + b)[0] == a[0];
      OccurrencesAppend(a[1..], b, c);
    }
  }

  /** Read as expected, a row whose first cell holds a quote is that one cell. */
  lemma QuotedFirst(before: seq<string>, cells: seq<string>)
    requires cells != [] && QUOTE in cells[0]
    requires ReadsAfter(before, BareText(cells)) == Keep(before + TrimAll(cells))
    ensures |cells| == 1 && SurvivesLast(cells[0])
  {
    QuoteVisible(cells, before);
    hide *;
    var k := RowFound(before, BareText(cells), before + TrimAll(cells));
    if k == 0 { DropPrefix(before, RowOf(Pieces(BareText(cells), '\n', false)[0], ';'), TrimAll(cells)); }
    QuotedRowRead(before, cells, k);
  }

  lemma DropPrefix(before: seq<string>, a: seq<string>, b: seq<string>)
    requires before + a == before + b
    ensures a == [] + b
  {
    assert a == (before + a)[|before|..] && b == (before + b)[|before|..];
  }

  lemma RowFound(before: seq<string>, t: string, expected: seq<string>) returns (k: nat)
    requires NonEmptyRow(expected) && ReadsAfter(before, t) == Keep(expected)
    ensures var lines := Pieces(t, '\n', false);
      k < |lines| && (if k == 0 then before + RowOf(lines[0], ';') else RowOf(lines[k], ';')) == expected
  {
    hide Pieces, RowOf, KeepRows;
    k := KeptRow(before, RowsOf(Pieces(t, '\n', false), ';'), expected);
  }

  lemma KeptRow(before: seq<string>, rows: Grid, expected: seq<string>) returns (k: nat)
    requires rows != [] && Keep(before + rows[0]) + KeepRows(rows[1..]) == [expected]
    ensures k < |rows| && (if k == 0 then before + rows[0] else rows[k]) == expected
  {
    KeepRowsMembers(rows[1..]);
    hide NonEmptyRow;
    assert expected in Keep(before + rows[0]) + KeepRows(rows[1..]);
    if before + rows[0] == expected {
      k := 0;
    } else {
      var j :| 0 <= j < |rows| - 1 && rows[1..][j] == expected;
      k := j + 1;
    }
  }

  // ----- all cells of a lead -----

  lemma SealedBare(s: string, c: char)
    requires QUOTE !in s && c != QUOTE
    ensures Sealed(Bare(s), c) && Decode(Bare(s), false) == s
  {
    BareCellSurvives(s);
    SealedQuoted(s, c);
  }

  /** A bare cell without quotes, then a semicolon: read, and the rest is read behind it. */
  lemma PeelCell(before: seq<string>, s: string, rest: string)
    requires QUOTE !in s
    ensures ReadsAfter(before, Bare(s) + ([';'] + rest)) == ReadsAfter(before + [Trim(Browser, s)], rest)
  {
    var lines := Pieces(rest, '\n', false);
    SealedBare(s, '\n');
    SealedBare(s, ';');
    SemicolonLine(rest);
    SemicolonCells(s, lines[0]);
    hide RowOf, Bare, Trim;
    PiecesAppend(Bare(s), [';'] + rest, '\n', false);
    assert Bare(s) + ([';'] + lines[0]) == Pieces(Bare(s) + ([';'] + rest), '\n', false)[0];
    var row := RowOf(lines[0], ';');
    assert before + ([Trim(Browser, s)] + row) == before + [Trim(Browser, s)] + row;
    hide Pieces;
    assert RowsOf(lines, ';')[1..] == RowsOf(lines[1..], ';');
  }

  lemma SemicolonLine(rest: string)
    ensures var lines := Pieces(rest, '\n', false);
      Pieces([';'] + rest, '\n', false) == [[';'] + lines[0]] + lines[1..]
  {
    assert ([';'] + rest)[1..] == rest;
  }

  lemma SemicolonCells(s: string, line: string)
    requires QUOTE !in s
    ensures RowOf(Bare(s) + ([';'] + line), ';') == [Trim(Browser, s)] + RowOf(line, ';')
  {
    SealedBare(s, ';');
    hide Bare;
    PiecesAppend(Bare(s), [';'] + line, ';', false);
    assert ([';'] + line)[1..] == line && Bare(s) + [] == Bare(s);
    var pieces := Pieces(line, ';', false);
    assert Pieces([';'] + line, ';', false) == [[]] + pieces;
    assert ([Bare(s)] + pieces)[1..] == pieces;
  }

  lemma ReadLastCell(before: seq<string>, s: string)
    requires SurvivesLast(s)
    ensures ReadsAfter(before, Bare(s)) == Keep(before + [Trim(Browser, s)])
  {
    WholeCell(s, '\n');
    WholeCell(s, ';');
    hide Bare, Trim, Keep, SurvivesLast, Decode, Pieces;
    assert [Bare(s)][1..] == [];
    assert RowOf(Bare(s), ';') == [Trim(Browser, s)];
    var rows := RowsOf([Bare(s)], ';');
    assert rows == [[Trim(Browser, s)]] && rows[1..] == [] && KeepRows([]) == [];
    assert Keep(before + rows[0]) + [] == Keep(before + [Trim(Browser, s)]);
  }

  lemma WholeCell(s: string, c: char)
    requires SurvivesLast(s) && c != QUOTE
    ensures Pieces(Bare(s), c, false) == [Bare(s)] && Decode(Bare(s), false) == s
  {
    if QUOTE !in s {
      SealedBare(s, c);
    } else {
      var u := s[..|s| - 1];
      SealedBare(u, c);
      OneQuote(u, []);
      assert s == u + [QUOTE] && u + [QUOTE] + [] == s;
      assert Bare(s) == Bare(u) + [QUOTE];
      hide Bare;
      PiecesOne(QUOTE, c, false);
      PiecesAppend(Bare(u), [QUOTE], c, false);
    }
  }

  /**
   * The cells of a lead are read back as one row, trimmed, if and only if they survive: every cell but
   * the last is free of quotes, and the last is, or has a single one at its end.
   */
  lemma {:induction false} CellsReadBack(before: seq<string>, cells: seq<string>)
    requires cells != []
    ensures ReadsAfter(before, BareText(cells)) == Keep(before + TrimAll(cells)) <==> Survive(cells)
    decreases |cells|
  {
    if QUOTE in cells[0] && ReadsAfter(before, BareText(cells)) == Keep(before + TrimAll(cells)) {
      QuotedFirst(before, cells);
    } else if |cells| == 1 {
      if SurvivesLast(cells[0]) { LastReadBack(before, cells); }
    } else if QUOTE !in cells[0] {
      hide ReadsAfter, BareText, Keep, Trim;
      CellsReadBack(before + [Trim(Browser, cells[0])], cells[1..]);
      FirstReadBack(before, cells);
    }
  }

  lemma LastReadBack(before: seq<string>, cells: seq<string>)
    requires |cells| == 1 && SurvivesLast(cells[0])
    ensures ReadsAfter(before, BareText(cells)) == Keep(before + TrimAll(cells))
  {
    BareTextStep(cells);
    hide *;
    assert Bare(cells[0]) + [] == Bare(cells[0]) && TrimAll(cells) == [Trim(Browser, cells[0])];
    ReadLastCell(before, cells[0]);
  }

  lemma FirstReadBack(before: seq<string>, cells: seq<string>)
    requires |cells| > 1 && QUOTE !in cells[0]
    ensures ReadsAfter(before, BareText(cells)) == ReadsAfter(before + [Trim(Browser, cells[0])], BareText(cells[1..]))
    ensures before + TrimAll(cells) == before + [Trim(Browser, cells[0])] + TrimAll(cells[1..])
  {
    BareTextStep(cells);
    TrimFirst(before, cells);
    hide *;
    PeelCell(before, cells[0], BareText(cells[1..]));
  }

  lemma TrimFirst(before: seq<string>, cells: seq<string>)
    requires cells != []
    ensures before + TrimAll(cells) == before + [Trim(Browser, cells[0])] + TrimAll(cells[1..])
  {
    TrimAllStep(cells);
    hide *;
    Associate(before, [Trim(Browser, cells[0])], TrimAll(cells[1..]));
  }

  lemma TrimAllStep(cells: seq<string>)
    requires cells != []
    ensures TrimAll(cells) == [Trim(Browser, cells[0])] + TrimAll(cells[1..])
  {
    hide Trim;
  }

  lemma Associate(a: seq<string>, b: seq<string>, c: seq<string>)
    ensures a + (b + c) == a + b + c
  {
  }

  // ----- the export of one lead -----

  lemma {:induction false} UnixBareText(cells: seq<string>)
    requires cells != []
    ensures UnixLines(BareText(cells)) == BareText(UnixAll(cells))
  {
    BareTextStep(cells);
    BareTextStep(UnixAll(cells));
    UnixBare(cells[0]);
    if |cells| > 1 {
      UnixBareText(cells[1..]);
      UnixPlain([';']);
      assert UnixAll(cells)[1..] == UnixAll(cells[1..]);
      StartsWithBare(cells[1..]);
      assert Bare(cells[0])[|Bare(cells[0])| - 1] == QUOTE && QUOTE != '\r';
      hide UnixLines, BareText, Bare;
      UnixAppend(Bare(cells[0]), [';'] + BareText(cells[1..]));
      UnixAppend([';'], BareText(cells[1..]));
    } else {
      assert Bare(cells[0]) + [] == Bare(cells[0]) && Bare(UnixLines(cells[0])) + [] == Bare(UnixLines(cells[0]));
    }
  }

  lemma UnixBare(s: string)
    ensures UnixLines(Bare(s)) == Bare(UnixLines(s))
  {
    UnixPlain([QUOTE]);
    assert QUOTE != '\r' && QUOTE != '\n';
    hide UnixLines;
    UnixAppend([QUOTE] + s, [QUOTE]);
    UnixAppend([QUOTE], s);
  }

  lemma UnixQuotes(s: string)
    ensures QUOTE in UnixLines(s) <==> QUOTE in s
    ensures SurvivesLast(UnixLines(s)) <==> SurvivesLast(s)
  {
    UnixQuoteCount(s);
    CountAbsent(s, QUOTE);
    CountAbsent(UnixLines(s), QUOTE);
    SurvivesCount(s);
    SurvivesCount(UnixLines(s));
    if s != [] {
      var u, x := s[..|s| - 1], s[|s| - 1];
      assert s == u + [x];
      UnixLastQuote(u, x);
    }
  }

  lemma SurvivesCount(s: string)
    ensures SurvivesLast(s) <==> Count(s, QUOTE) == 0 || (s[|s| - 1] == QUOTE && Count(s, QUOTE) == 1)
  {
    CountAbsent(s, QUOTE);
    if s != [] {
      var u := s[..|s| - 1];
      assert s == u + [s[|s| - 1]];
      CountAppend(u, [s[|s| - 1]], QUOTE);
      CountAbsent(u, QUOTE);
      assert [s[|s| - 1]][1..] == [];
    }
  }

  lemma {:induction false} UnixQuoteCount(s: string)
    ensures Count(UnixLines(s), QUOTE) == Count(s, QUOTE)
  {
    CrToLfCount(CrLfToLf(s));
    CrLfToLfCount(s);
  }

  lemma {:induction false} CrToLfCount(s: string)
    ensures Count(CrToLf(s), QUOTE) == Count(s, QUOTE)
  {
    if s != [] { CrToLfCount(s[1..]); }
  }

  lemma {:induction false} CrLfToLfCount(s: string)
    ensures Count(CrLfToLf(s), QUOTE) == Count(s, QUOTE)
    decreases |s|
  {
    if s == [] {
    } else if s[0] == '\r' && |s| > 1 && s[1] == '\n' {
      CrLfToLfCount(s[2..]);
      assert s[1..][1..] == s[2..];
    } else {
      CrLfToLfCount(s[1..]);
    }
  }

  /** A text ends with a quote before newlines are normalised exactly when it does afterwards. */
  lemma UnixLastQuote(u: string, x: char)
    ensures var n := UnixLines(u + [x]); n != [] && (n[|n| - 1] == QUOTE <==> x == QUOTE)
  {
    if x == '\n' && u != [] && u[|u| - 1] == '\r' {
      var v := u[..|u| - 1];
      assert u + [x] == v + ['\r', '\n'];
      UnixCrLf();
      hide UnixLines;
      UnixAppend(v, ['\r', '\n']);
    } else {
      EscapeOne(x);
      UnixOne(x);
      hide UnixLines;
      UnixAppend(u, [x]);
    }
  }

  lemma UnixOne(x: char)
    ensures UnixLines([x]) == [if x == '\r' then '\n' else x]
  {
    assert [x][1..] == [] && CrLfToLf([x]) == [x];
    assert CrToLf([x]) == [if x == '\r' then '\n' else x] + CrToLf([]);
  }

  lemma {:induction false} UnixSurvive(cells: seq<string>)
    requires cells != []
    ensures Survive(UnixAll(cells)) <==> Survive(cells)
  {
    UnixQuotes(cells[0]);
    hide UnixLines, SurvivesLast;
    if |cells| > 1 {
      UnixSurvive(cells[1..]);
      assert UnixAll(cells)[1..] == UnixAll(cells[1..]);
    }
  }

  /** Behind a header line of its own, a text is read as on its own. */
  lemma HeadedRead(line: string, header: seq<string>, t: string)
    requires Sealed(line, '\n') && RowOf(line, ';') == header && NonEmptyRow(header)
    ensures GridWith(line + ("\n" + t), ';') == [header] + ReadsAfter([], t)
  {
    var lines := Pieces(t, '\n', false);
    SealedLine(line, t);
    hide Sealed, Pieces, RowOf, NonEmptyRow;
    var rows := RowsOf(lines, ';');
    assert RowsOf([line] + lines, ';') == [header] + rows;
    KeepRowsAppend([header], rows);
    assert KeepRows([header]) == [header] by { assert [header][1..] == []; }
    assert [] + rows[0] == rows[0];
  }

  lemma SealedLine(line: string, t: string)
    requires Sealed(line, '\n')
    ensures Pieces(line + ("\n" + t), '\n', false) == [line] + Pieces(t, '\n', false)
  {
    PiecesAppend(line, "\n" + t, '\n', false);
    assert ("\n" + t)[1..] == t;
    var rest := Pieces(t, '\n', false);
    assert Pieces("\n" + t, '\n', false) == [[]] + rest && ([[]] + rest)[1..] == rest && line + [] == line;
  }

  lemma SameTail(head: Grid, a: Grid, b: Grid)
    ensures head + a == head + b <==> a == b
  {
    assert (head + a)[|head|..] == a && (head + b)[|head|..] == b;
  }
}
