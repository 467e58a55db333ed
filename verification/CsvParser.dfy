/**
 * The browser's delimited-text reader (frontend/src/components/UploadEnrichModal.tsx).
 *
 * The reader is one character loop over five variables. It is proved equal, on every text, to a
 * declarative reading that has no loop state: a line feed or a delimiter separates exactly when an
 * even number of double quotes precedes it, and each piece is then unquoted and trimmed.
 */
module CsvParser {
  import opened Text

  type Grid = seq<seq<string>>

  datatype Result<+T> = Ok(value: T) | Err(message: string)

  const QUOTE: char := '"'

  // ----- normalisation of the text and choice of the delimiter -----

  function StripBom(text: string): string {
    if text != [] && text[0] == BOM then text[1..] else text
  }

  function CrLfToLf(s: string): string {
    if s == [] then []
    else if s[0] == '\r' && |s| > 1 && s[1] == '\n' then ['\n'] + CrLfToLf(s[2..])
    else [s[0]] + CrLfToLf(s[1..])
  }

  function CrToLf(s: string): string {
    if s == [] then [] else [if s[0] == '\r' then '\n' else s[0]] + CrToLf(s[1..])
  }

  function UnixLines(s: string): string { CrToLf(CrLfToLf(s)) }

  function Normalised(text: string): string { UnixLines(StripBom(text)) }

  function FirstLine(t: string): string {
    if t == [] || t[0] == '\n' then [] else [t[0]] + FirstLine(t[1..])
  }

  /** Stable descending sort of `,` `;` TAB by number of occurrences, first element. */
  function DetectDelimiter(line: string): (d: char)
    ensures d == ',' || d == ';' || d == '\t'
    ensures Count(line, d) >= Count(line, ',')
    ensures Count(line, d) >= Count(line, ';')
    ensures Count(line, d) >= Count(line, '\t')
    ensures d == ';' ==> Count(line, ';') > Count(line, ',')
    ensures d == '\t' ==> Count(line, '\t') > Count(line, ',') && Count(line, '\t') > Count(line, ';')
  {
    if Count(line, ',') >= Count(line, ';') && Count(line, ',') >= Count(line, '\t') then ','
    else if Count(line, ';') >= Count(line, '\t') then ';'
    else '\t'
  }

  function DelimiterOf(text: string): char { DetectDelimiter(FirstLine(Normalised(text))) }

  // ----- the declarative reading -----

  /** `s` cut at each `c` that stands outside quotes; `quoted` is the state before `s`. */
  function Pieces(s: string, c: char, quoted: bool): (r: seq<string>)
    ensures r != []
  {
    if s == [] then [[]]
    else if s[0] == c && !quoted then [[]] + Pieces(s[1..], c, quoted)
    else
      var rest := Pieces(s[1..], c, (s[0] == QUOTE) != quoted);
      [[s[0]] + rest[0]] + rest[1..]
  }

  /** The text a piece stands for: quotes vanish, a doubled quote inside quotes is one quote. */
  function Decode(s: string, quoted: bool): string {
    if s == [] then []
    else if s[0] != QUOTE then [s[0]] + Decode(s[1..], quoted)
    else if quoted && |s| > 1 && s[1] == QUOTE then [QUOTE] + Decode(s[2..], quoted)
    else Decode(s[1..], !quoted)
  }

  function Cells(pieces: seq<string>): (r: seq<string>)
    ensures |r| == |pieces|
    ensures forall i :: 0 <= i < |r| ==> r[i] == Trim(Browser, Decode(pieces[i], false))
  {
    if pieces == [] then [] else [Trim(Browser, Decode(pieces[0], false))] + Cells(pieces[1..])
  }

  predicate NonEmptyRow(row: seq<string>) { exists i :: 0 <= i < |row| && row[i] != [] }

  function Keep(row: seq<string>): Grid { if NonEmptyRow(row) then [row] else [] }

  function KeepRows(rows: Grid): Grid {
    if rows == [] then [] else Keep(rows[0]) + KeepRows(rows[1..])
  }

  function RowOf(line: string, d: char): seq<string> { Cells(Pieces(line, d, false)) }

  function RowsOf(lines: seq<string>, d: char): (rows: Grid)
    ensures |rows| == |lines|
    ensures forall i :: 0 <= i < |rows| ==> rows[i] == RowOf(lines[i], d)
  {
    if lines == [] then [] else [RowOf(lines[0], d)] + RowsOf(lines[1..], d)
  }

  function GridWith(t: string, d: char): Grid {
    KeepRows(RowsOf(Pieces(t, '\n', false), d))
  }

  function ParsedGrid(text: string): Grid { GridWith(Normalised(text), DelimiterOf(text)) }

  // ----- the character loop -----

  /** What the loop still has to produce from `rest`, given its unfinished row, cell and quote state. */
  ghost function Remaining(row: seq<string>, field: string, quoted: bool, rest: string, d: char): Grid {
    var lines := Pieces(rest, '\n', quoted);
    var cells := Pieces(lines[0], d, quoted);
    Keep(row + [Trim(Browser, field + Decode(cells[0], quoted))] + Cells(cells[1..]))
    + KeepRows(RowsOf(lines[1..], d))
  }

  lemma RemainingAtStart(t: string, d: char)
    ensures Remaining([], [], false, t, d) == GridWith(t, d)
  {
    var lines := Pieces(t, '\n', false);
    var cells := Pieces(lines[0], d, false);
    assert [] + Decode(cells[0], false) == Decode(cells[0], false);
    assert [] + [Trim(Browser, Decode(cells[0], false))] + Cells(cells[1..]) == RowOf(lines[0], d);
    assert RowsOf(lines, d)[1..] == RowsOf(lines[1..], d);
  }

  lemma RemainingAtEnd(row: seq<string>, field: string, quoted: bool, d: char)
    ensures Remaining(row, field, quoted, [], d) == Keep(row + [Trim(Browser, field)])
  {
    assert Pieces([], '\n', quoted) == [[]] && Pieces([], d, quoted) == [[]];
    assert field + [] == field;
    assert row + [Trim(Browser, field)] + [] == row + [Trim(Browser, field)];
  }

  lemma OrdinaryStep(row: seq<string>, field: string, quoted: bool, rest: string, d: char)
    requires rest != [] && rest[0] != QUOTE && (quoted || (rest[0] != d && rest[0] != '\n'))
    ensures Remaining(row, field, quoted, rest, d) == Remaining(row, field + [rest[0]], quoted, rest[1..], d)
  {
    var lines := Pieces(rest[1..], '\n', quoted);
    var cells := Pieces(lines[0], d, quoted);
    assert Pieces(rest, '\n', quoted)[0] == [rest[0]] + lines[0];
    assert ([rest[0]] + lines[0])[1..] == lines[0];
    assert Pieces([rest[0]] + lines[0], d, quoted)[0] == [rest[0]] + cells[0];
    assert ([rest[0]] + cells[0])[1..] == cells[0];
    assert field + ([rest[0]] + Decode(cells[0], quoted)) == field + [rest[0]] + Decode(cells[0], quoted);
  }

  lemma ToggleStep(row: seq<string>, field: string, quoted: bool, rest: string, d: char)
    requires d != QUOTE
    requires rest != [] && rest[0] == QUOTE && !(quoted && |rest| > 1 && rest[1] == QUOTE)
    ensures Remaining(row, field, quoted, rest, d) == Remaining(row, field, !quoted, rest[1..], d)
  {
    var lines := Pieces(rest[1..], '\n', !quoted);
    var cells := Pieces(lines[0], d, !quoted);
    assert Pieces(rest, '\n', quoted)[0] == [QUOTE] + lines[0];
    assert ([QUOTE] + lines[0])[1..] == lines[0];
    assert Pieces([QUOTE] + lines[0], d, quoted)[0] == [QUOTE] + cells[0];
    assert ([QUOTE] + cells[0])[1..] == cells[0];
  }

  lemma DoubledStep(row: seq<string>, field: string, rest: string, d: char)
    requires d != QUOTE && |rest| > 1 && rest[0] == QUOTE && rest[1] == QUOTE
    ensures Remaining(row, field, true, rest, d) == Remaining(row, field + [QUOTE], true, rest[2..], d)
  {
    var lines := Pieces(rest[2..], '\n', true);
    var cells := Pieces(lines[0], d, true);
    assert rest[1..][1..] == rest[2..];
    assert Pieces(rest[1..], '\n', false) == [[QUOTE] + lines[0]] + lines[1..];
    assert Pieces(rest, '\n', true) == [[QUOTE] + ([QUOTE] + lines[0])] + lines[1..];
    var line := [QUOTE] + ([QUOTE] + lines[0]);
    assert line[1..] == [QUOTE] + lines[0] && line[1..][1..] == lines[0];
    assert Pieces(line[1..], d, false) == [[QUOTE] + cells[0]] + cells[1..];
    assert Pieces(line, d, true) == [[QUOTE] + ([QUOTE] + cells[0])] + cells[1..];
    assert ([QUOTE] + ([QUOTE] + cells[0]))[2..] == cells[0];
    assert field + ([QUOTE] + Decode(cells[0], true)) == field + [QUOTE] + Decode(cells[0], true);
  }

  lemma DelimiterStep(row: seq<string>, field: string, rest: string, d: char)
    requires d != QUOTE && d != '\n' && rest != [] && rest[0] == d
    ensures Remaining(row, field, false, rest, d) == Remaining(row + [Trim(Browser, field)], [], false, rest[1..], d)
  {
    var lines := Pieces(rest[1..], '\n', false);
    var cells := Pieces(lines[0], d, false);
    assert Pieces(rest, '\n', false) == [[d] + lines[0]] + lines[1..];
    assert ([d] + lines[0])[1..] == lines[0];
    assert Pieces([d] + lines[0], d, false) == [[]] + cells;
    assert field + [] == field && [] + Decode(cells[0], false) == Decode(cells[0], false);
    assert row + [Trim(Browser, field)] + Cells(cells)
      == row + [Trim(Browser, field)] + [Trim(Browser, Decode(cells[0], false))] + Cells(cells[1..]);
  }

  lemma NewlineStep(row: seq<string>, field: string, rest: string, d: char)
    requires d != QUOTE && d != '\n' && rest != [] && rest[0] == '\n'
    ensures Remaining(row, field, false, rest, d)
         == Keep(row + [Trim(Browser, field)]) + Remaining([], [], false, rest[1..], d)
  {
    var lines := Pieces(rest[1..], '\n', false);
    assert Pieces(rest, '\n', false) == [[]] + lines;
    assert Pieces([], d, false) == [[]];
    assert field + [] == field;
    assert row + [Trim(Browser, field)] + [] == row + [Trim(Browser, field)];
    RemainingAtStart(rest[1..], d);
  }

  /** The rows finished so far and what the loop still has to produce make up the goal. */
  ghost predicate Owes(rows: Grid, row: seq<string>, field: string, quoted: bool, rest: string, d: char, goal: Grid) {
    rows + Remaining(row, field, quoted, rest, d) == goal
  }

  /** What each branch of the loop body does to the loop's variables keeps the promise. */
  lemma BranchesKeep(rows: Grid, row: seq<string>, field: string, quoted: bool, t: string, index: nat, d: char,
      goal: Grid)
    requires index < |t| && (d == ',' || d == ';' || d == '\t') && Owes(rows, row, field, quoted, t[index..], d, goal)
    ensures if t[index] == QUOTE && quoted && index + 1 < |t| && t[index + 1] == QUOTE then
              Owes(rows, row, field + [QUOTE], quoted, t[index + 2..], d, goal)
            else if t[index] == QUOTE then Owes(rows, row, field, !quoted, t[index + 1..], d, goal)
            else if t[index] == d && !quoted then
              Owes(rows, row + [Trim(Browser, field)], [], quoted, t[index + 1..], d, goal)
            else if t[index] == '\n' && !quoted then
              Owes(rows + Keep(row + [Trim(Browser, field)]), [], [], quoted, t[index + 1..], d, goal)
            else Owes(rows, row, field + [t[index]], quoted, t[index + 1..], d, goal)
  {
    hide Remaining, Keep, Trim;
    var rest := t[index..];
    assert rest[0] == t[index] && rest[1..] == t[index + 1..];
    if t[index] == QUOTE && quoted && index + 1 < |t| && t[index + 1] == QUOTE {
      assert rest[2..] == t[index + 2..];
      DoubledStep(row, field, rest, d);
    } else if t[index] == QUOTE {
      ToggleStep(row, field, quoted, rest, d);
    } else if t[index] == d && !quoted {
      DelimiterStep(row, field, rest, d);
    } else if t[index] == '\n' && !quoted {
      NewlineStep(row, field, rest, d);
    } else {
      OrdinaryStep(row, field, quoted, rest, d);
    }
  }

  lemma KeepCases(rows: Grid, row: seq<string>)
    ensures rows + Keep(row) == if NonEmptyRow(row) then rows + [row] else rows
  {
  }

  lemma OwesAll(text: string)
    ensures var t := Normalised(text); Owes([], [], [], false, t, DetectDelimiter(FirstLine(t)), ParsedGrid(text))
  {
    RemainingAtStart(Normalised(text), DelimiterOf(text));
  }

  lemma OwesNothing(rows: Grid, row: seq<string>, field: string, quoted: bool, d: char, goal: Grid)
    requires Owes(rows, row, field, quoted, [], d, goal)
    ensures rows + Keep(row + [Trim(Browser, field)]) == goal
  {
    RemainingAtEnd(row, field, quoted, d);
  }

  /** The character loop of `parseDelimited`: its rows are those of the declarative reading. */
  method ParseRows(text: string) returns (rows: Grid)
    ensures rows == ParsedGrid(text)
  {
    hide *;
    var t := Normalised(text);
    var d := DetectDelimiter(FirstLine(t));
    rows := [];
    var row: seq<string>, field: string, quoted := [], [], false;
    var index := 0;
    OwesAll(text);
    assert t[0..] == t;
    while index < |t|
      invariant 0 <= index <= |t|
      invariant Owes(rows, row, field, quoted, t[index..], d, ParsedGrid(text))
    {
      BranchesKeep(rows, row, field, quoted, t, index, d, ParsedGrid(text));
      var character := t[index];
      if character == QUOTE && quoted && index + 1 < |t| && t[index + 1] == QUOTE {
        field := field + [QUOTE];
        index := index + 1;
      } else if character == QUOTE {
        quoted := !quoted;
      } else if character == d && !quoted {
        row := row + [Trim(Browser, field)];
        field := [];
      } else if character == '\n' && !quoted {
        row := row + [Trim(Browser, field)];
        KeepCases(rows, row);
        if NonEmptyRow(row) { rows := rows + [row]; }
        row, field := [], [];
      } else {
        field := field + [character];
      }
      index := index + 1;
    }
    assert t[index..] == [];
    OwesNothing(rows, row, field, quoted, d, ParsedGrid(text));
    row := row + [Trim(Browser, field)];
    KeepCases(rows, row);
    if NonEmptyRow(row) { rows := rows + [row]; }
  }
}
