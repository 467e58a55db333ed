/**
 * The lead export (frontend/src/components/ExportModal.tsx) read back by the import reader: `;`
 * between cells, LF between rows, an unquoted header, optional columns, and no doubling of quotes.
 */
module LeadExport {
  import opened Text
  import opened CsvParser
  import opened CsvReading
  import opened CsvPrinters

  /** `intentScore` is the decimal text of the number. */
  datatype Lead = Lead(
    name: string, title: string, seniority: string, company: string, domain: string, location: string,
    email: string, status: string, phone: string, technologies: seq<string>,
    intentScore: string, intentTopic: string)

  datatype Options = Options(phone: bool, tech: bool, intent: bool)

  const BASE_HEADERS: seq<string> :=
    ["Nome", "Cargo", "Senioridade", "Empresa", "Dom\U{ED}nio", "Localiza\U{E7}\U{E3}o",
     "E-mail Corporativo", "Status E-mail"]

  function HeaderRow(options: Options): seq<string> {
    BASE_HEADERS
    + (if options.phone then ["Telefone/WhatsApp"] else [])
    + (if options.tech then ["Tecnologias"] else [])
    + (if options.intent then ["Score de Inten\U{E7}\U{E3}o", "T\U{F3}pico de Inten\U{E7}\U{E3}o"] else [])
  }

  function LeadCells(lead: Lead, options: Options): seq<string> {
    [lead.name, lead.title, lead.seniority, lead.company, lead.domain, lead.location, lead.email, lead.status]
    + (if options.phone then [lead.phone] else [])
    + (if options.tech then [Join(lead.technologies, ", ")] else [])
    + (if options.intent then [lead.intentScore + "%", lead.intentTopic] else [])
  }

  function LeadGrid(leads: seq<Lead>, options: Options): (r: Grid)
    ensures |r| == |leads|
    ensures forall i :: 0 <= i < |r| ==> r[i] == LeadCells(leads[i], options)
  {
    if leads == [] then [] else [LeadCells(leads[0], options)] + LeadGrid(leads[1..], options)
  }

  function BareAll(cells: seq<string>): (r: seq<string>)
    ensures |r| == |cells|
    ensures forall i :: 0 <= i < |r| ==> r[i] == Bare(cells[i])
  {
    if cells == [] then [] else [Bare(cells[0])] + BareAll(cells[1..])
  }

  function BareRows(grid: Grid): (r: seq<string>)
    ensures |r| == |grid|
    ensures forall i :: 0 <= i < |r| ==> r[i] == Join(BareAll(grid[i]), ";")
  {
    if grid == [] then [] else [Join(BareAll(grid[0]), ";")] + BareRows(grid[1..])
  }

  function ExportText(leads: seq<Lead>, options: Options): string {
    [BOM] + Join([Join(HeaderRow(options), ";")] + BareRows(LeadGrid(leads, options)), "\n")
  }

  /** The file is built by pushing optional columns onto the header and onto each row. */
  method HandleExport(leads: seq<Lead>, options: Options) returns (csv: string)
    ensures csv == ExportText(leads, options)
  {
    var headers := BASE_HEADERS;
    if options.phone { headers := headers + ["Telefone/WhatsApp"]; }
    if options.tech { headers := headers + ["Tecnologias"]; }
    if options.intent {
      headers := headers + ["Score de Inten\U{E7}\U{E3}o", "T\U{F3}pico de Inten\U{E7}\U{E3}o"];
    }
    assert headers == HeaderRow(options);
    var rows: seq<string> := [];
    for i := 0 to |leads|
      invariant |rows| == i
      invariant forall j :: 0 <= j < i ==> rows[j] == Join(BareAll(LeadCells(leads[j], options)), ";")
    {
      var lead := leads[i];
      var row := [lead.name, lead.title, lead.seniority, lead.company, lead.domain, lead.location,
                  lead.email, lead.status];
      if options.phone { row := row + [lead.phone]; }
      if options.tech { row := row + [Join(lead.technologies, ", ")]; }
      if options.intent { row := row + [lead.intentScore + "%", lead.intentTopic]; }
      assert row == LeadCells(lead, options);
      rows := rows + [Join(BareAll(row), ";")];
    }
    assert rows == BareRows(LeadGrid(leads, options));
    csv := [BOM] + Join([Join(headers, ";")] + rows, "\n");
  }

  // ----- bare quoting -----

  lemma {:induction false} DecodeShrinks(s: string, quoted: bool)
    ensures |Decode(s, quoted)| <= |s|
    ensures QUOTE in s ==> |Decode(s, quoted)| < |s|
    decreases |s|
  {
    if s == [] {
    } else if s[0] != QUOTE {
      DecodeShrinks(s[1..], quoted);
    } else if quoted && |s| > 1 && s[1] == QUOTE {
      DecodeShrinks(s[2..], quoted);
    } else {
      DecodeShrinks(s[1..], !quoted);
    }
  }

  lemma {:induction false} DecodeOpenCell(s: string)
    ensures Decode(s + [QUOTE], true) == s && !Inside(s + [QUOTE], true) <==> QUOTE !in s
  {
    var printed := s + [QUOTE];
    if s == [] {
      assert printed == [QUOTE] && printed[1..] == [];
    } else if s[0] != QUOTE {
      assert printed[1..] == s[1..] + [QUOTE] && s == [s[0]] + s[1..];
      DecodeOpenCell(s[1..]);
    } else if |s| > 1 && s[1] == QUOTE {
      assert printed[2..][|s| - 2] == QUOTE;
      DecodeShrinks(printed[2..], true);
    } else if |s| > 1 {
      assert printed[1..][|s| - 1] == QUOTE;
      DecodeShrinks(printed[1..], false);
      assert |Decode(printed, true)| < |s|;
    } else {
      assert printed == [QUOTE, QUOTE] && printed[1..] == [QUOTE] && printed[2..] == [];
      assert Inside(printed, true) == Inside([QUOTE], false) && [QUOTE][1..] == [] && Inside([], true);
    }
  }

  /**
   * A bare cell reads back as its text and leaves the reader outside quotes if and only if the text
   * holds no double quote; exactly then it is also what RFC 4180 quoting prints.
   */
  lemma BareCellSurvives(s: string)
    ensures Decode(Bare(s), false) == s && !Inside(Bare(s), false) <==> QUOTE !in s
    ensures Bare(s) == Quoted(s) <==> QUOTE !in s
  {
    assert Bare(s) == [QUOTE] + (s + [QUOTE]) && Bare(s)[1..] == s + [QUOTE];
    DecodeOpenCell(s);
    EscapeLength(s);
    if QUOTE !in s { EscapePlain(s); }
  }

  lemma {:induction false} EscapeLength(s: string)
    ensures |Escape(s)| == |s| + Count(s, QUOTE)
    ensures Count(s, QUOTE) == 0 <==> QUOTE !in s
  {
    CountAbsent(s, QUOTE);
    if s != [] { EscapeLength(s[1..]); }
  }

  predicate QuoteFree(grid: Grid) {
    forall i, j :: 0 <= i < |grid| && 0 <= j < |grid[i]| ==> QUOTE !in grid[i][j]
  }

  lemma BareIsQuoted(grid: Grid)
    requires QuoteFree(grid)
    ensures BareRows(grid) == PrintRows(grid, ';')
  {
    forall i | 0 <= i < |grid| ensures BareRows(grid)[i] == PrintRows(grid, ';')[i] {
      forall j | 0 <= j < |grid[i]| ensures BareAll(grid[i])[j] == QuotedAll(grid[i])[j] {
        BareCellSurvives(grid[i][j]);
      }
      assert BareAll(grid[i]) == QuotedAll(grid[i]);
    }
  }

  // ----- the header line -----

  predicate PlainName(h: string) {
    && h != [] && Trimmed(Browser, h)
    && forall i :: 0 <= i < |h| ==>
         h[i] != ',' && h[i] != ';' && h[i] != '\t' && h[i] != QUOTE && h[i] != '\r' && h[i] != '\n'
  }

  lemma PlainBase()
    ensures |BASE_HEADERS| == 8 && forall h :: h in BASE_HEADERS ==> PlainName(h)
  {
    assert forall i :: 0 <= i < 8 ==> PlainName(BASE_HEADERS[i]);
  }

  lemma PlainOptional()
    ensures PlainName("Telefone/WhatsApp") && PlainName("Tecnologias")
    ensures PlainName("Score de Inten\U{E7}\U{E3}o") && PlainName("T\U{F3}pico de Inten\U{E7}\U{E3}o")
  {
  }

  lemma PlainHeaders(options: Options)
    ensures |HeaderRow(options)| >= 8 && forall h :: h in HeaderRow(options) ==> PlainName(h)
  {
    PlainBase();
    PlainOptional();
    hide PlainName, BASE_HEADERS;
  }

  lemma {:induction false} JoinChars(parts: seq<string>, separator: string, c: char)
    requires c !in separator && forall p :: p in parts ==> c !in p
    ensures c !in Join(parts, separator)
  {
    if |parts| > 1 { JoinChars(parts[1..], separator, c); }
  }

  lemma HeaderLine(options: Options)
    ensures var line := Join(HeaderRow(options), ";");
            && DetectDelimiter(line) == ';' && RowOf(line, ';') == HeaderRow(options)
            && line != [] && '\n' !in line && '\r' !in line && Sealed(line, '\n')
  {
    PlainHeaders(options);
    var headers := HeaderRow(options);
    var line := Join(headers, ";");
    hide HeaderRow;
    JoinChars(headers, ";", '\n'); JoinChars(headers, ";", '\r'); JoinChars(headers, ";", QUOTE);
    CountJoin(headers, ";", ','); CountJoin(headers, ";", ';'); CountJoin(headers, ";", '\t');
    assert ";"[1..] == "" && Count(";", ';') == 1 && Count(";", ',') == 0 && Count(";", '\t') == 0;
    assert line != [] by { CountAbsent(line, ';'); }
    SealedPlain(line, '\n');
    HeaderCells(options);
    hide *;
  }

  lemma HeaderCells(options: Options)
    ensures RowOf(Join(HeaderRow(options), ";"), ';') == HeaderRow(options)
  {
    PlainHeaders(options);
    var headers := HeaderRow(options);
    hide HeaderRow;
    forall h | h in headers ensures Sealed(h, ';') { SealedPlain(h, ';'); }
    PiecesJoin(headers, ';');
    forall i | 0 <= i < |headers| ensures Cells(headers)[i] == headers[i] {
      assert headers[i] in headers && PlainName(headers[i]);
      DecodePlain(headers[i]);
      TrimFixed(Browser, headers[i]);
    }
  }

  // ----- the round trip -----

  lemma {:induction false} UnixLfRows(line: string, grid: Grid)
    requires line != [] && '\r' !in line && forall i :: 0 <= i < |grid| ==> grid[i] != []
    ensures UnixLines(Join([line] + PrintRows(grid, ';'), "\n")) == Join([line] + PrintRows(UnixGrid(grid), ';'), "\n")
  {
    UnixPlain(line);
    var rows, unix := PrintRows(grid, ';'), PrintRows(UnixGrid(grid), ';');
    assert ([line] + rows)[1..] == rows && ([line] + unix)[1..] == unix;
    hide PrintRow, UnixLines;
    JoinStep([line] + rows, "\n");
    JoinStep([line] + unix, "\n");
    if grid != [] {
      UnixTail(grid);
      UnixPlain("\n");
      UnixAppend(line, "\n" + Join(rows, "\n"));
      UnixAppend("\n", Join(rows, "\n"));
    }
  }

  lemma {:induction false} UnixTail(grid: Grid)
    requires grid != [] && forall i :: 0 <= i < |grid| ==> grid[i] != []
    ensures UnixLines(Join(PrintRows(grid, ';'), "\n")) == Join(PrintRows(UnixGrid(grid), ';'), "\n")
  {
    assert QUOTE != '\r';
    hide *;
    PrintRowsStep(grid, ';', "\n");
    PrintRowsStep(UnixGrid(grid), ';', "\n");
    UnixRow(grid[0], ';');
    PrintRowEnds(grid[0], ';');
    if |grid| > 1 {
      assert UnixGrid(grid)[1..] == UnixGrid(grid[1..]);
      UnixTail(grid[1..]);
      var rest := Join(PrintRows(grid[1..], ';'), "\n");
      UnixPlain("\n");
      UnixAppend(PrintRow(grid[0], ';'), "\n" + rest);
      UnixAppend("\n", rest);
    }
  }

  lemma ReadLines(line: string, grid: Grid)
    requires Sealed(line, '\n')
    ensures Pieces(Join([line] + PrintRows(grid, ';'), "\n"), '\n', false) == [line] + PrintRows(grid, ';')
  {
    var lines := [line] + PrintRows(grid, ';');
    hide Sealed, PrintRow;
    forall l | l in lines ensures Sealed(l, '\n') {
      if l != line {
        var i :| 0 <= i < |grid| && l == PrintRow(grid[i], ';');
        SealedRow(grid[i], ';', '\n');
      }
    }
    PiecesJoin(lines, '\n');
  }

  lemma ReadRows(grid: Grid)
    requires forall i :: 0 <= i < |grid| ==> grid[i] != []
    ensures RowsOf(PrintRows(UnixGrid(grid), ';'), ';') == Tidy(grid)
  {
    hide PrintRow, RowOf;
    forall i | 0 <= i < |grid| ensures RowsOf(PrintRows(UnixGrid(grid), ';'), ';')[i] == Tidy(grid)[i] {
      ReadPrintedRow(UnixGrid(grid)[i], ';');
    }
  }

  lemma ExportNormalised(leads: seq<Lead>, options: Options)
    requires QuoteFree(LeadGrid(leads, options))
    ensures Normalised(ExportText(leads, options))
         == Join([Join(HeaderRow(options), ";")] + PrintRows(UnixGrid(LeadGrid(leads, options)), ';'), "\n")
  {
    var grid, line := LeadGrid(leads, options), Join(HeaderRow(options), ";");
    HeaderLine(options);
    BareIsQuoted(grid);
    assert forall i :: 0 <= i < |grid| ==> grid[i] != [];
    var printed := Join([line] + PrintRows(grid, ';'), "\n");
    assert ExportText(leads, options) == [BOM] + printed && ([BOM] + printed)[1..] == printed;
    hide HeaderRow, LeadCells, LeadGrid, UnixLines, PrintRow, ExportText;
    UnixLfRows(line, grid);
  }

  lemma FirstOfLines(line: string, rest: seq<string>)
    requires '\n' !in line
    ensures FirstLine(Join([line] + rest, "\n")) == line
  {
    JoinStep([line] + rest, "\n");
    assert ([line] + rest)[1..] == rest;
    FirstLinePrefix(line, if rest == [] then "" else "\n" + Join(rest, "\n"));
    assert line + "" == line;
  }

  lemma ReadHeadedGrid(line: string, header: seq<string>, grid: Grid)
    requires Sealed(line, '\n') && RowOf(line, ';') == header && NonEmptyRow(header)
    requires forall i :: 0 <= i < |grid| ==> grid[i] != []
    ensures GridWith(Join([line] + PrintRows(UnixGrid(grid), ';'), "\n"), ';') == [header] + KeepRows(Tidy(grid))
  {
    var unix := PrintRows(UnixGrid(grid), ';');
    ReadLines(line, UnixGrid(grid));
    ReadRows(grid);
    hide RowOf, PrintRow, Tidy, UnixGrid;
    assert RowsOf([line] + unix, ';') == [header] + RowsOf(unix, ';');
    KeepRowsAppend([header], RowsOf(unix, ';'));
    assert KeepRows([header]) == [header];
  }

  /**
   * For every list of leads whose text holds no double quote, and any choice of columns, the reader
   * detects `;` and returns the header and every lead's cells, newline-normalised and trimmed.
   */
  lemma ExportRoundTrip(leads: seq<Lead>, options: Options)
    requires QuoteFree(LeadGrid(leads, options))
    ensures DelimiterOf(ExportText(leads, options)) == ';'
    ensures ParsedGrid(ExportText(leads, options))
         == [HeaderRow(options)] + KeepRows(Tidy(LeadGrid(leads, options)))
  {
    var grid, line := LeadGrid(leads, options), Join(HeaderRow(options), ";");
    HeaderLine(options);
    PlainHeaders(options);
    ExportNormalised(leads, options);
    assert HeaderRow(options)[0] in HeaderRow(options);
    assert forall i :: 0 <= i < |grid| ==> grid[i] != [];
    hide HeaderRow, LeadGrid, Sealed, PrintRows, RowOf, ExportText, GridWith, Normalised;
    FirstOfLines(line, PrintRows(UnixGrid(grid), ';'));
    ReadHeadedGrid(line, HeaderRow(options), grid);
  }

  ghost predicate AllVisible(rows: Grid) { forall i :: 0 <= i < |rows| ==> NonEmptyRow(rows[i]) }

  lemma HeadedCount(header: seq<string>, rows: Grid, normalise: string -> string)
    requires rows != []
    ensures (var t := TableOf([header] + KeepRows(rows), normalise); t.Ok? && |t.value.records| == |rows|)
       <==> AllVisible(rows)
  {
    KeepRowsAll(rows);
    assert AllVisible(rows) <==> forall row :: row in rows ==> NonEmptyRow(row);
    hide KeepRows, NonEmptyRow, AllVisible;
    assert ([header] + KeepRows(rows))[1..] == KeepRows(rows);
  }

  /**
   * One record per lead, if and only if every lead has a visible cell among the chosen columns; with
   * the intent columns every lead has one.
   */
  lemma OneRecordPerLead(leads: seq<Lead>, options: Options, normalise: string -> string)
    requires leads != [] && QuoteFree(LeadGrid(leads, options))
    ensures (var t := TableOf(ParsedGrid(ExportText(leads, options)), normalise);
             t.Ok? && |t.value.records| == |leads|)
       <==> AllVisible(Tidy(LeadGrid(leads, options)))
    ensures options.intent ==> AllVisible(Tidy(LeadGrid(leads, options)))
  {
    if options.intent {
      forall i | 0 <= i < |leads| ensures NonEmptyRow(Tidy(LeadGrid(leads, options))[i]) {
        ScoreVisible(leads[i], options);
      }
    }
    hide *;
    ExportRoundTrip(leads, options);
    HeadedCount(HeaderRow(options), Tidy(LeadGrid(leads, options)), normalise);
  }

  const BLANK_LEAD := Lead("", "", "", "", "", "", "", "", "", [], "", "")

  lemma BlankCells()
    ensures forall cell :: cell in LeadCells(BLANK_LEAD, Options(true, true, false)) ==> cell == ""
  {
    assert Join([], ", ") == "";
  }

  lemma EmptyTidy(cells: seq<string>)
    requires forall cell :: cell in cells ==> cell == ""
    ensures !NonEmptyRow(TrimAll(UnixAll(cells)))
  {
    UnixPlain("");
    TrimFixed(Browser, "");
    hide UnixLines, Trim;
    assert forall i :: 0 <= i < |cells| ==> cells[i] in cells;
  }

  /** Exported alone and without the intent columns, a lead that is blank there is gone: an error. */
  lemma BlankLeadLost(normalise: string -> string)
    ensures TableOf(ParsedGrid(ExportText([BLANK_LEAD], Options(true, true, false))), normalise) == Err(TOO_SHORT)
  {
    var options := Options(true, true, false);
    var cells := LeadCells(BLANK_LEAD, options);
    var grid := LeadGrid([BLANK_LEAD], options);
    BlankCells();
    EmptyTidy(cells);
    assert grid == [cells];
    hide LeadCells, LeadGrid, NonEmptyRow;
    assert Tidy(grid) == [TrimAll(UnixAll(cells))] && Tidy(grid)[1..] == [] && KeepRows([]) == [];
    assert KeepRows(Tidy(grid)) == [];
    assert QuoteFree(grid) by { assert forall j :: 0 <= j < |cells| ==> cells[j] in cells; }
    hide HeaderRow, ExportText, ParsedGrid, DelimiterOf, Tidy, QuoteFree, KeepRows;
    ExportRoundTrip([BLANK_LEAD], options);
  }

  lemma ScoreVisible(lead: Lead, options: Options)
    requires options.intent
    ensures NonEmptyRow(TrimAll(UnixAll(LeadCells(lead, options))))
  {
    var cells := LeadCells(lead, options);
    var k := |cells| - 2;
    assert cells[k] == lead.intentScore + "%";
    UnixAppend(lead.intentScore, "%");
    UnixPlain("%");
    TrimVisible(Browser, UnixLines(cells[k]), '%');
    assert TrimAll(UnixAll(cells))[k] != [];
  }
}
