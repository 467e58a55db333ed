/**
 * The import upload (`uploadImportRecords` and `csvCell`, frontend/src/api.ts) from records to text,
 * and back to records through the reader.
 */
module ImportUpload {
  import opened Text
  import opened CsvParser
  import opened CsvReading
  import opened CsvPrinters
  import opened UploadDelimiter
  import opened HeaderForms

  datatype CellValue = Missing | Scalar(text: string) | List(items: seq<string>)

  /** A record's own keys and values, in key order. */
  type Record = seq<(string, CellValue)>

  function CellText(value: CellValue): string {
    match value
    case Missing => ""
    case Scalar(text) => text
    case List(items) => Join(items, "; ")
  }

  /** `record[header]` */
  function Lookup(record: Record, header: string): CellValue {
    if record == [] then Missing
    else if record[|record| - 1].0 == header then record[|record| - 1].1
    else Lookup(record[..|record| - 1], header)
  }

  function KeysOf(record: Record): seq<string> {
    if record == [] then [] else [record[0].0] + KeysOf(record[1..])
  }

  function AllKeys(records: seq<Record>): seq<string> {
    if records == [] then [] else KeysOf(records[0]) + AllKeys(records[1..])
  }

  /** `[...new Set(keys)]`: each key once, at its first place. */
  function Distinct(keys: seq<string>): (r: seq<string>)
    ensures forall k :: k in r <==> k in keys
    ensures forall i, j :: 0 <= i < j < |r| ==> r[i] != r[j]
  {
    if keys == [] then []
    else
      var before, last := Distinct(keys[..|keys| - 1]), keys[|keys| - 1];
      assert forall k :: k in keys <==> k in keys[..|keys| - 1] || k == last;
      if last in before then before else before + [last]
  }

  /** Each header stands at its key's first place, and headers come in the order of those places. */
  lemma {:induction false} FirstPlaces(keys: seq<string>) returns (at: seq<nat>)
    ensures |at| == |Distinct(keys)|
    ensures forall i, j :: 0 <= i < j < |at| ==> at[i] < at[j]
    ensures forall i :: 0 <= i < |at| ==>
      at[i] < |keys| && keys[at[i]] == Distinct(keys)[i] && keys[at[i]] !in keys[..at[i]]
  {
    at := [];
    if keys != [] {
      var n := |keys| - 1;
      at := FirstPlaces(keys[..n]);
      assert forall i :: 0 <= i < |at| ==> keys[..n][..at[i]] == keys[..at[i]];
      if keys[n] !in keys[..n] { at := at + [n]; }
    }
  }

  function HeadersOf(records: seq<Record>): seq<string> { Distinct(AllKeys(records)) }

  function RowCells(record: Record, headers: seq<string>): (r: seq<string>)
    ensures |r| == |headers|
    ensures forall i :: 0 <= i < |r| ==> r[i] == CellText(Lookup(record, headers[i]))
  {
    if headers == [] then [] else [CellText(Lookup(record, headers[0]))] + RowCells(record, headers[1..])
  }

  function RecordRows(records: seq<Record>, headers: seq<string>): (r: Grid)
    ensures |r| == |records|
    ensures forall i :: 0 <= i < |r| ==> r[i] == RowCells(records[i], headers)
  {
    if records == [] then [] else [RowCells(records[0], headers)] + RecordRows(records[1..], headers)
  }

  function ImportGrid(records: seq<Record>): Grid {
    [HeadersOf(records)] + RecordRows(records, HeadersOf(records))
  }

  function UploadImportRecords(records: seq<Record>): Result<string> {
    if records == [] then Err("O arquivo n\U{E3}o cont\U{E9}m registros.")
    else if HeadersOf(records) == [] then Err("O arquivo n\U{E3}o cont\U{E9}m cabe\U{E7}alhos utiliz\U{E1}veis.")
    else Ok(UploadText(ImportGrid(records)))
  }

  /** Every key of every record is a column. */
  lemma {:induction false} EveryKeyIsAColumn(records: seq<Record>, k: nat, i: nat)
    requires k < |records| && i < |records[k]|
    ensures records[k][i].0 in HeadersOf(records)
  {
    KeyListed(records[k], i);
    RecordListed(records, k, records[k][i].0);
  }

  lemma {:induction false} KeyListed(record: Record, i: nat)
    requires i < |record|
    ensures record[i].0 in KeysOf(record)
  {
    if i > 0 { KeyListed(record[1..], i - 1); }
  }

  lemma {:induction false} RecordListed(records: seq<Record>, k: nat, key: string)
    requires k < |records| && key in KeysOf(records[k])
    ensures key in AllKeys(records)
  {
    if k > 0 { RecordListed(records[1..], k - 1, key); }
  }

  lemma {:induction false} KeyOfRecord(record: Record, key: string) returns (i: nat)
    requires key in KeysOf(record)
    ensures i < |record| && record[i].0 == key
  {
    if record[0].0 == key {
      i := 0;
    } else {
      var j := KeyOfRecord(record[1..], key);
      i := j + 1;
    }
  }

  /** Every column is a key of some record. */
  lemma {:induction false} EveryColumnIsAKey(records: seq<Record>, key: string) returns (k: nat, i: nat)
    requires key in AllKeys(records)
    ensures k < |records| && i < |records[k]| && records[k][i].0 == key
  {
    if key in KeysOf(records[0]) {
      i := KeyOfRecord(records[0], key);
      k := 0;
    } else {
      var j;
      j, i := EveryColumnIsAKey(records[1..], key);
      k := j + 1;
    }
  }

  /** What is printed of a value: nothing, its text, or its items with semicolon and blank between them. */
  lemma CellTexts(text: string, items: seq<string>)
    ensures CellText(Missing) == "" && CellText(Scalar(text)) == text
    ensures CellText(List([])) == "" && CellText(List([text])) == text
    ensures items != [] ==> CellText(List([text] + items)) == text + ("; " + CellText(List(items)))
  {
    assert ([text] + items)[1..] == items && ([text] + items)[0] == text;
    if items != [] { JoinStep([text] + items, "; "); }
  }

  /** A record is asked for a key of its own and gives its value; for any other key it gives nothing. */
  lemma {:induction false} LookupFinds(record: Record, header: string)
    requires forall i, j :: 0 <= i < j < |record| ==> record[i].0 != record[j].0
    ensures forall i :: 0 <= i < |record| && record[i].0 == header ==> Lookup(record, header) == record[i].1
    ensures (forall i :: 0 <= i < |record| ==> record[i].0 != header) ==> Lookup(record, header) == Missing
  {
    if record != [] {
      var n := |record| - 1;
      assert forall i :: 0 <= i < n ==> record[..n][i] == record[i];
      LookupFinds(record[..n], header);
    }
  }

  ghost predicate SomeKey(records: seq<Record>) { exists k :: 0 <= k < |records| && records[k] != [] }

  /** An upload is refused if and only if it has no record, or its records have no key at all. */
  lemma UploadAccepted(records: seq<Record>)
    ensures UploadImportRecords(records).Ok? <==> SomeKey(records)
  {
    if SomeKey(records) {
      var k :| 0 <= k < |records| && records[k] != [];
      EveryKeyIsAColumn(records, k, 0);
    }
    if HeadersOf(records) != [] {
      assert HeadersOf(records)[0] in HeadersOf(records);
      var k, i := EveryColumnIsAKey(records, HeadersOf(records)[0]);
      assert records[k] != [];
    }
    hide UploadText, ImportGrid, Distinct;
  }

  // ----- reading an upload back -----

  ghost predicate AllRowsVisible(grid: Grid) { forall row :: row in grid ==> NonEmptyRow(row) }

  /**
   * The text of an accepted upload parses to its tidied grid less blank rows if and only if there is
   * one column or comma wins in the headers; and to the whole tidied grid if and only if, moreover,
   * every row has a visible cell.
   */
  lemma UploadReadBack(records: seq<Record>)
    requires UploadImportRecords(records).Ok?
    ensures var headers, read := HeadersOf(records), ParsedGrid(UploadImportRecords(records).value);
      var tidy := Tidy(ImportGrid(records));
      && (read == KeepRows(tidy) <==> |headers| == 1 || CommaWins(headers))
      && (read == tidy <==> (|headers| == 1 || CommaWins(headers)) && AllRowsVisible(tidy))
  {
    var grid := ImportGrid(records);
    StoredRowsAreClean(UploadText(grid));
    hide ParsedGrid, UploadText, HeadersOf, Tidy, NonEmptyRow, CommaWins, CleanCells;
    ImportRoundTrip(grid, |HeadersOf(records)|);
    KeepRowsAll(Tidy(grid));
  }

  predicate PlainKey(key: string) {
    ',' !in key && ';' !in key && '\t' !in key && '\r' !in key && '\n' !in key
  }

  /** No key of any record holds a delimiter or a newline. */
  predicate PlainKeys(records: seq<Record>) {
    forall k, i :: 0 <= k < |records| && 0 <= i < |records[k]| ==> PlainKey(records[k][i].0)
  }

  /** With plain keys an upload is always read back. */
  lemma PlainKeysReadBack(records: seq<Record>)
    requires UploadImportRecords(records).Ok? && PlainKeys(records)
    ensures ParsedGrid(UploadImportRecords(records).value) == KeepRows(Tidy(ImportGrid(records)))
    ensures CommaWins(HeadersOf(records))
  {
    var headers := HeadersOf(records);
    forall h | h in headers ensures PlainKey(h) { var k, i := EveryColumnIsAKey(records, h); }
    assert PlainHeader(headers) by {
      forall i | 0 <= i < |headers| ensures PlainKey(headers[i]) { assert headers[i] in headers; }
    }
    PlainHeaderWins(headers);
    hide *;
    UploadReadBack(records);
  }

  /** Such are the keys of a table that the reader made with the browser's header form. */
  lemma NormalKeyPlain(header: string)
    ensures PlainKey(BrowserHeader(header))
  {
    WordsAndBars(header);
    hide BrowserHeader;
  }

  lemma WordsAndBars(header: string)
    ensures forall c :: c in BrowserHeader(header) ==> 'a' <= c <= 'z' || '0' <= c <= '9' || c == '_'
  {
    var y := Collapse(Lower(Trim(Browser, header)), false);
    assert BrowserHeader(header) == StripOnce(y);
    hide StripOnce, Lower, Trim, BrowserHeader, Strip, Collapse, SingleRuns;
    CollapseShape(Lower(Trim(Browser, header)), false);
    StripOnceIsStrip(y);
    assert forall c :: c in y ==> IsWord(c) || c == '_';
  }

  /** An upload that is not read back: one record with the keys ";;" and "a". */
  lemma UploadMisread()
    ensures var records := [[(";;", Scalar("x")), ("a", Scalar("y"))]];
      && UploadImportRecords(records).Ok?
      && ParsedGrid(UploadImportRecords(records).value) != KeepRows(Tidy(ImportGrid(records)))
  {
    var record: Record := [(";;", Scalar("x")), ("a", Scalar("y"))];
    var records := [record];
    assert record[1..][1..] == [] && KeysOf(record) == [";;", "a"];
    assert records[1..] == [] && AllKeys(records) == [";;", "a"];
    assert [";;", "a"][..1] == [";;"] && [";;"][..0] == [];
    assert Distinct([";;"]) == [";;"] && HeadersOf(records) == [";;", "a"];
    assert !CommaWins([";;", "a"]) by { SemicolonsWin(); }
    hide *;
    UploadReadBack(records);
  }

  lemma SemicolonsWin()
    ensures !CommaWins([";;", "a"])
  {
    UnixPlain(";;");
    UnixPlain("a");
    var headers := [";;", "a"];
    assert headers[1..] == ["a"] && ["a"][1..] == [];
    assert UnixAll(headers) == headers by { hide UnixLines; }
    assert FirstLineCells(headers) == headers;
    assert ";;"[1..] == ";" && ";"[1..] == "" && "a"[1..] == "";
    assert Occurrences(headers, ';') == 2 && Occurrences(headers, ',') == 0;
  }

  lemma TidyGrid(records: seq<Record>, k: nat)
    requires k < |records|
    ensures var tidy := Tidy(ImportGrid(records));
      && |tidy| == |records| + 1 && tidy[0] == TrimAll(UnixAll(HeadersOf(records))) && |tidy[0]| == |HeadersOf(records)|
      && tidy[k + 1] == TrimAll(UnixAll(RowCells(records[k], HeadersOf(records))))
  {
    hide HeadersOf, TrimAll, UnixAll, RowCells;
    assert ImportGrid(records)[k + 1] == RowCells(records[k], HeadersOf(records));
  }

  lemma TidyCell(records: seq<Record>, k: nat, j: nat)
    requires k < |records| && j < |HeadersOf(records)|
    ensures ValueAt(TrimAll(UnixAll(RowCells(records[k], HeadersOf(records)))), j)
         == Trim(Browser, UnixLines(CellText(Lookup(records[k], HeadersOf(records)[j]))))
  {
    hide HeadersOf, Trim, UnixLines, CellText, Lookup;
  }

  /**
   * What is uploaded is read back as the same records: with comma winning in the headers (or one
   * column), a visible cell in every row and column names that stay distinct under the header normal
   * form, record k of the reader holds under each header the tidied text of record k of the upload.
   */
  lemma RecordsReadBack(records: seq<Record>, normalise: string -> string, k: nat, j: nat)
    requires UploadImportRecords(records).Ok? && k < |records| && j < |HeadersOf(records)|
    requires |HeadersOf(records)| == 1 || CommaWins(HeadersOf(records))
    requires AllRowsVisible(Tidy(ImportGrid(records)))
    requires DistinctHeaders(NormaliseAll(TrimAll(UnixAll(HeadersOf(records))), normalise))
    ensures var t := TableOf(ParsedGrid(UploadImportRecords(records).value), normalise);
      && t.Ok? && t.value.headers == NormaliseAll(TrimAll(UnixAll(HeadersOf(records))), normalise)
      && |t.value.records| == |records|
      && t.value.headers[j] in t.value.records[k]
      && t.value.records[k][t.value.headers[j]]
         == Trim(Browser, UnixLines(CellText(Lookup(records[k], HeadersOf(records)[j]))))
  {
    var tidy := Tidy(ImportGrid(records));
    UploadReadBack(records);
    TidyGrid(records, k);
    hide *;
    TableCell(tidy, normalise, k, j);
    TidyCell(records, k, j);
  }
}
