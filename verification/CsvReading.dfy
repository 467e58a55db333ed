/**
 * What holds of everything the reader returns, and the headed records built from its rows
 * (frontend/src/components/UploadEnrichModal.tsx).
 */
module CsvReading {
  import opened Text
  import opened CsvParser

  // ----- texts without quotes -----

  function TrimAll(cells: seq<string>): (r: seq<string>)
    ensures |r| == |cells|
    ensures forall i :: 0 <= i < |r| ==> r[i] == Trim(Browser, cells[i])
  {
    if cells == [] then [] else [Trim(Browser, cells[0])] + TrimAll(cells[1..])
  }

  function SplitRows(lines: seq<string>, d: char): Grid {
    if lines == [] then [] else [TrimAll(Split(lines[0], d))] + SplitRows(lines[1..], d)
  }

  /** Normalise newlines, split on LF, split on the delimiter, trim, drop blank rows. */
  function SimpleGrid(text: string): Grid {
    KeepRows(SplitRows(Split(Normalised(text), '\n'), DelimiterOf(text)))
  }

  lemma {:induction false} DecodePlain(s: string)
    requires QUOTE !in s
    ensures Decode(s, false) == s
  {
    if s != [] { DecodePlain(s[1..]); }
  }

  lemma {:induction false} PlainPieces(s: string, c: char)
    requires QUOTE !in s
    ensures Pieces(s, c, false) == Split(s, c)
    ensures forall p :: p in Split(s, c) ==> QUOTE !in p
  {
    if s != [] { PlainPieces(s[1..], c); }
  }

  lemma {:induction false} PlainRows(lines: seq<string>, d: char)
    requires forall l :: l in lines ==> QUOTE !in l
    ensures RowsOf(lines, d) == SplitRows(lines, d)
  {
    if lines != [] {
      var pieces := Split(lines[0], d);
      PlainPieces(lines[0], d);
      forall i | 0 <= i < |pieces| ensures Cells(pieces)[i] == TrimAll(pieces)[i] {
        DecodePlain(pieces[i]);
      }
      assert Cells(pieces) == TrimAll(pieces);
      PlainRows(lines[1..], d);
    }
  }

  lemma {:induction false} UnixLinesKeeps(s: string)
    ensures '\r' !in UnixLines(s)
    ensures forall c :: c in UnixLines(s) ==> c in s || c == '\n'
  {
    CrToLfKeeps(CrLfToLf(s));
    CrLfToLfKeeps(s);
  }

  lemma {:induction false} CrToLfKeeps(s: string)
    ensures '\r' !in CrToLf(s)
    ensures forall c :: c in CrToLf(s) ==> c in s || c == '\n'
  {
    if s != [] { CrToLfKeeps(s[1..]); }
  }

  lemma {:induction false} CrLfToLfKeeps(s: string)
    ensures forall c :: c in CrLfToLf(s) ==> c in s
    decreases |s|
  {
    if s == [] {
    } else if s[0] == '\r' && |s| > 1 && s[1] == '\n' {
      CrLfToLfKeeps(s[2..]);
    } else {
      CrLfToLfKeeps(s[1..]);
    }
  }

  /** On a text without double quotes the character loop computes the simple form. */
  lemma NoQuotesSimpleForm(text: string)
    requires QUOTE !in text
    ensures ParsedGrid(text) == SimpleGrid(text)
  {
    var t := Normalised(text);
    UnixLinesKeeps(StripBom(text));
    assert QUOTE !in t;
    PlainPieces(t, '\n');
    PlainRows(Split(t, '\n'), DelimiterOf(text));
  }

  // ----- every text -----

  lemma {:induction false} PiecesKeep(s: string, c: char, quoted: bool)
    ensures forall p, x :: p in Pieces(s, c, quoted) && x in p ==> x in s
  {
    if s != [] { PiecesKeep(s[1..], c, if s[0] == c && !quoted then false else (s[0] == QUOTE) != quoted); }
  }

  lemma {:induction false} DecodeKeeps(s: string, quoted: bool)
    ensures forall x :: x in Decode(s, quoted) ==> x in s
    decreases |s|
  {
    if s == [] {
    } else if s[0] != QUOTE {
      DecodeKeeps(s[1..], quoted);
    } else if quoted && |s| > 1 && s[1] == QUOTE {
      DecodeKeeps(s[2..], quoted);
    } else {
      DecodeKeeps(s[1..], !quoted);
    }
  }

  lemma {:induction false} KeepRowsMembers(rows: Grid)
    ensures forall r :: r in KeepRows(rows) <==> r in rows && NonEmptyRow(r)
  {
    if rows != [] { KeepRowsMembers(rows[1..]); }
  }

  lemma {:induction false} KeepRowsAppend(a: Grid, b: Grid)
    ensures KeepRows(a + b) == KeepRows(a) + KeepRows(b)
  {
    if a == [] {
      assert a + b == b;
    } else {
      assert (a + b)[1..] == a[1..] + b;
      KeepRowsAppend(a[1..], b);
    }
  }

  /** Blank-row dropping keeps every row exactly when every row has a visible cell. */
  lemma {:induction false} KeepRowsAll(rows: Grid)
    ensures |KeepRows(rows)| <= |rows|
    ensures |KeepRows(rows)| == |rows| <==> forall r :: r in rows ==> NonEmptyRow(r)
    ensures (forall r :: r in rows ==> NonEmptyRow(r)) ==> KeepRows(rows) == rows
  {
    if rows != [] {
      KeepRowsAll(rows[1..]);
      hide NonEmptyRow;
      assert rows == [rows[0]] + rows[1..];
      assert forall r :: r in rows <==> r == rows[0] || r in rows[1..];
    }
  }

  lemma CellsAreClean(line: string, d: char)
    requires '\r' !in line
    ensures forall cell :: cell in RowOf(line, d) ==> Trimmed(Browser, cell) && '\r' !in cell
  {
    var pieces := Pieces(line, d, false);
    PiecesKeep(line, d, false);
    forall cell | cell in Cells(pieces) ensures Trimmed(Browser, cell) && '\r' !in cell {
      var j :| 0 <= j < |pieces| && cell == Trim(Browser, Decode(pieces[j], false));
      assert pieces[j] in pieces;
      hide Pieces, Trim;
      DecodeKeeps(pieces[j], false);
      TrimTrimmed(Browser, Decode(pieces[j], false));
    }
  }

  ghost predicate CleanCells(row: seq<string>) {
    forall cell :: cell in row ==> Trimmed(Browser, cell) && '\r' !in cell
  }

  /** On any text at all, every stored cell is trimmed and free of CR and every stored row has a cell. */
  lemma StoredRowsAreClean(text: string)
    ensures forall row :: row in ParsedGrid(text) ==> NonEmptyRow(row) && CleanCells(row)
  {
    var t, d := Normalised(text), DelimiterOf(text);
    var lines := Pieces(t, '\n', false);
    UnixLinesKeeps(StripBom(text));
    PiecesKeep(t, '\n', false);
    KeepRowsMembers(RowsOf(lines, d));
    assert ParsedGrid(text) == KeepRows(RowsOf(lines, d));
    hide KeepRows, RowOf, NonEmptyRow, ParsedGrid, Normalised, Pieces;
    forall row | row in RowsOf(lines, d) ensures CleanCells(row) {
      var k :| 0 <= k < |lines| && row == RowOf(lines[k], d);
      assert lines[k] in lines;
      CellsAreClean(lines[k], d);
    }
  }

  // ----- records -----

  datatype Table = Table(headers: seq<string>, records: seq<map<string, string>>)

  const TOO_SHORT := "O CSV precisa conter cabe\U{E7}alho e ao menos uma linha de dados."

  function ValueAt(values: seq<string>, i: nat): string { if i < |values| then values[i] else "" }

  /** Entries are entered left to right, so among equal headers the last one wins. */
  function RecordOf(headers: seq<string>, values: seq<string>, n: nat): map<string, string>
    requires n <= |headers|
  {
    if n == 0 then map[] else RecordOf(headers, values, n - 1)[headers[n - 1] := ValueAt(values, n - 1)]
  }

  function RecordsOf(headers: seq<string>, rows: Grid): (r: seq<map<string, string>>)
    ensures |r| == |rows|
    ensures forall i :: 0 <= i < |r| ==> r[i] == RecordOf(headers, rows[i], |headers|)
  {
    if rows == [] then [] else [RecordOf(headers, rows[0], |headers|)] + RecordsOf(headers, rows[1..])
  }

  function NormaliseAll(cells: seq<string>, normalise: string -> string): (r: seq<string>)
    ensures |r| == |cells|
    ensures forall i :: 0 <= i < |r| ==> r[i] == normalise(cells[i])
  {
    if cells == [] then [] else [normalise(cells[0])] + NormaliseAll(cells[1..], normalise)
  }

  function TableOf(rows: Grid, normalise: string -> string): Result<Table> {
    if |rows| < 2 then Err(TOO_SHORT)
    else
      var headers := NormaliseAll(rows[0], normalise);
      Ok(Table(headers, RecordsOf(headers, rows[1..])))
  }

  method ParseDelimited(text: string, normalise: string -> string) returns (r: Result<Table>)
    ensures r == TableOf(ParsedGrid(text), normalise)
  {
    var rows := ParseRows(text);
    r := TableOf(rows, normalise);
  }

  /** A record has exactly the headers as keys. */
  lemma {:induction false} RecordKeys(headers: seq<string>, values: seq<string>, n: nat)
    requires n <= |headers|
    ensures forall h :: h in RecordOf(headers, values, n) <==> h in headers[..n]
  {
    if n > 0 {
      RecordKeys(headers, values, n - 1);
      assert headers[..n] == headers[..n - 1] + [headers[n - 1]];
    }
  }

  /** Under a header the record holds the value of the header's last column. */
  lemma {:induction false} RecordValue(headers: seq<string>, values: seq<string>, n: nat, i: nat)
    requires i < n <= |headers|
    requires forall j :: i < j < n ==> headers[j] != headers[i]
    ensures headers[i] in RecordOf(headers, values, n)
    ensures RecordOf(headers, values, n)[headers[i]] == ValueAt(values, i)
  {
    if i < n - 1 {
      RecordValue(headers, values, n - 1, i);
    }
  }

  ghost predicate DistinctHeaders(headers: seq<string>) {
    forall i, j :: 0 <= i < j < |headers| ==> headers[i] != headers[j]
  }

  /** With distinct headers, record k holds under header j the cell at row k + 1, column j. */
  lemma TableCell(rows: Grid, normalise: string -> string, k: nat, j: nat)
    requires k + 1 < |rows| && j < |rows[0]| && DistinctHeaders(NormaliseAll(rows[0], normalise))
    ensures var t := TableOf(rows, normalise);
      && t.Ok? && t.value.headers == NormaliseAll(rows[0], normalise) && |t.value.records| == |rows| - 1
      && t.value.headers[j] in t.value.records[k]
      && t.value.records[k][t.value.headers[j]] == ValueAt(rows[k + 1], j)
  {
    var headers := NormaliseAll(rows[0], normalise);
    assert rows[1..][k] == rows[k + 1];
    hide NormaliseAll, RecordOf;
    RecordValue(headers, rows[k + 1], |headers|, j);
  }
}
