/**
 * The lead export read back as records (frontend/src/components/ExportModal.tsx with
 * frontend/src/components/UploadEnrichModal.tsx): which attribute of a lead stands under which header.
 */
module LeadRecords {
  import opened Text
  import opened CsvParser
  import opened CsvReading
  import opened CsvPrinters
  import opened LeadExport
  import opened ExportRows

  /** The columns of the export with what they show of a lead. */
  function Columns(lead: Lead, options: Options): seq<(string, string)> {
    [("Nome", lead.name), ("Cargo", lead.title), ("Senioridade", lead.seniority), ("Empresa", lead.company),
     ("Dom\U{ED}nio", lead.domain), ("Localiza\U{E7}\U{E3}o", lead.location), ("E-mail Corporativo", lead.email),
     ("Status E-mail", lead.status)]
    + (if options.phone then [("Telefone/WhatsApp", lead.phone)] else [])
    + (if options.tech then [("Tecnologias", Join(lead.technologies, ", "))] else [])
    + (if options.intent then
         [("Score de Inten\U{E7}\U{E3}o", lead.intentScore + "%"),
          ("T\U{F3}pico de Inten\U{E7}\U{E3}o", lead.intentTopic)]
       else [])
  }

  function Headers(columns: seq<(string, string)>): (r: seq<string>)
    ensures |r| == |columns|
    ensures forall j :: 0 <= j < |r| ==> r[j] == columns[j].0
  {
    if columns == [] then [] else [columns[0].0] + Headers(columns[1..])
  }

  function Shown(columns: seq<(string, string)>): (r: seq<string>)
    ensures |r| == |columns|
    ensures forall j :: 0 <= j < |r| ==> r[j] == columns[j].1
  {
    if columns == [] then [] else [columns[0].1] + Shown(columns[1..])
  }

  lemma HeadersAre(lead: Lead, options: Options)
    ensures Headers(Columns(lead, options)) == HeaderRow(options)
  {
    hide Join;
    var columns := Columns(lead, options);
    assert |columns| == |HeaderRow(options)|;
    forall j | 0 <= j < |columns| ensures columns[j].0 == HeaderRow(options)[j] {}
  }

  lemma CellsAre(lead: Lead, options: Options)
    ensures Shown(Columns(lead, options)) == LeadCells(lead, options)
  {
    hide Join;
    var columns := Columns(lead, options);
    assert |columns| == |LeadCells(lead, options)|;
    forall j | 0 <= j < |columns| ensures columns[j].1 == LeadCells(lead, options)[j] {}
  }

  /**
   * Under each header the record read for a lead holds what that column shows of the lead, tidied: for
   * every list of leads that is read back, any choice of columns, and headers that stay distinct.
   */
  lemma LeadRecord(leads: seq<Lead>, options: Options, normalise: string -> string, k: nat, j: nat)
    requires AllVisible(Tidy(LeadGrid(leads, options))) && AllSurvive(LeadGrid(leads, options))
    requires DistinctHeaders(NormaliseAll(HeaderRow(options), normalise))
    requires k < |leads| && j < |Columns(leads[k], options)|
    ensures var t := TableOf(ParsedGrid(ExportText(leads, options)), normalise);
      var column := Columns(leads[k], options)[j];
      && t.Ok? && |t.value.records| == |leads| && normalise(column.0) in t.value.records[k]
      && t.value.records[k][normalise(column.0)] == Trim(Browser, UnixLines(column.1))
  {
    hide *;
    var header, tidy := HeaderRow(options), Tidy(LeadGrid(leads, options));
    LeadsReadBack(leads, options);
    TidyLead(leads, options, k, j);
    HeadedCell(header, tidy, normalise, k, j);
  }

  lemma HeadedCell(header: seq<string>, tidy: Grid, normalise: string -> string, k: nat, j: nat)
    requires k < |tidy| && j < |header| && DistinctHeaders(NormaliseAll(header, normalise))
    ensures var t := TableOf([header] + tidy, normalise);
      && t.Ok? && |t.value.records| == |tidy| && normalise(header[j]) in t.value.records[k]
      && t.value.records[k][normalise(header[j])] == ValueAt(tidy[k], j)
  {
    hide *;
    var rows := [header] + tidy;
    assert rows[0] == header && rows[k + 1] == tidy[k];
    TableCell(rows, normalise, k, j);
    assert NormaliseAll(header, normalise)[j] == normalise(header[j]);
  }

  lemma TidyLead(leads: seq<Lead>, options: Options, k: nat, j: nat)
    requires k < |leads| && j < |Columns(leads[k], options)|
    ensures var row := Tidy(LeadGrid(leads, options))[k];
      j < |row| == |HeaderRow(options)| && ValueAt(row, j) == Trim(Browser, UnixLines(Columns(leads[k], options)[j].1))
    ensures HeaderRow(options)[j] == Columns(leads[k], options)[j].0
  {
    HeadersAre(leads[k], options);
    CellsAre(leads[k], options);
    hide Trim, UnixLines, Columns, LeadCells, HeaderRow;
  }

  // ----- the file -----

  /**
   * The exported file is a byte-order mark, the header names behind one another, and for each lead a line
   * feed and the quoted cells of its columns.
   */
  lemma LeadFileGrows(leads: seq<Lead>, lead: Lead, options: Options)
    ensures ExportText([], options) == [BOM] + Join(Headers(Columns(lead, options)), ";")
    ensures ExportText(leads + [lead], options)
         == ExportText(leads, options) + ("\n" + Join(BareAll(Shown(Columns(lead, options))), ";"))
  {
    HeadersAre(lead, options);
    CellsAre(lead, options);
    var header, cells := HeaderRow(options), LeadCells(lead, options);
    assert LeadGrid(leads + [lead], options) == LeadGrid(leads, options) + [cells] by { hide LeadCells; }
    FileGrows(header, LeadGrid(leads, options), cells);
    hide *;
    LeadFileIs([], options);
    LeadFileIs(leads, options);
    LeadFileIs(leads + [lead], options);
    assert LeadGrid([], options) == [];
  }

  function FileOf(header: seq<string>, grid: Grid): string {
    [BOM] + Join([Join(header, ";")] + BareRows(grid), "\n")
  }

  lemma LeadFileIs(leads: seq<Lead>, options: Options)
    ensures ExportText(leads, options) == FileOf(HeaderRow(options), LeadGrid(leads, options))
  {
  }

  lemma FileGrows(header: seq<string>, grid: Grid, cells: seq<string>)
    ensures FileOf(header, []) == [BOM] + Join(header, ";")
    ensures FileOf(header, grid + [cells]) == FileOf(header, grid) + ("\n" + Join(BareAll(cells), ";"))
  {
    hide *;
    var first, line, rows := Join(header, ";"), Join(BareAll(cells), ";"), BareRows(grid);
    FileIs(header, []);
    FileIs(header, grid);
    FileIs(header, grid + [cells]);
    OneJoined(first, "\n");
    assert BareRows(grid + [cells]) == rows + [line];
    assert BareRows([]) == [] && [first] + [] == [first] && [first] + (rows + [line]) == ([first] + rows) + [line];
    JoinSnoc([first] + rows, line, "\n");
    Regrouped([BOM], Join([first] + rows, "\n"), "\n" + line);
  }

  lemma Regrouped(a: string, b: string, c: string)
    ensures a + (b + c) == (a + b) + c
  {
  }

  lemma FileIs(header: seq<string>, grid: Grid)
    ensures FileOf(header, grid) == [BOM] + Join([Join(header, ";")] + BareRows(grid), "\n")
  {
    hide Join;
  }
}
