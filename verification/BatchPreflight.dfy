/**
 * The preflight of a pasted list of CNPJs (frontend/src/pages/Enrichment.tsx): one loop with a map of
 * what was seen, two result lists and a counter, proved against first occurrences.
 */
module BatchPreflight {
  import opened Text
  import opened CheckDigits

  datatype InvalidItem = InvalidItem(raw: string, digits: string, digitCount: nat, reason: Reason)

  // ----- the entries of a text -----

  predicate Separates(c: char) { c == '\n' || c == ',' || c == ';' }

  function SplitEntries(text: string): (r: seq<string>)
    ensures r != []
  {
    if text == [] then [[]]
    else if Separates(text[0]) then [[]] + SplitEntries(text[1..])
    else var rest := SplitEntries(text[1..]); [[text[0]] + rest[0]] + rest[1..]
  }

  function TrimmedNonEmpty(pieces: seq<string>): (r: seq<string>)
    ensures forall e :: e in r ==> e != []
  {
    if pieces == [] then []
    else (if Trim(Browser, pieces[0]) != [] then [Trim(Browser, pieces[0])] else []) + TrimmedNonEmpty(pieces[1..])
  }

  /** `split(/[\n,;]+/)`, trimmed, empty pieces dropped. */
  function RawList(text: string): seq<string> { TrimmedNonEmpty(SplitEntries(text)) }

  // ----- first occurrences -----

  predicate SeenBefore(list: seq<string>, digits: string) {
    exists j :: 0 <= j < |list| && Canonical(list[j]) == digits
  }

  /** The entries, in order, whose canonical form is not empty and did not occur before. */
  function FirstOccurrences(list: seq<string>): seq<string> {
    if list == [] then []
    else
      var before, last := list[..|list| - 1], list[|list| - 1];
      FirstOccurrences(before) + if Canonical(last) == [] || SeenBefore(before, Canonical(last)) then [] else [last]
  }

  function Accepted(entries: seq<string>): seq<string> {
    if entries == [] then []
    else Accepted(entries[..|entries| - 1])
         + if PreflightCnpj(entries[|entries| - 1]).valid then [entries[|entries| - 1]] else []
  }

  function InvalidReport(raw: string): InvalidItem {
    var verdict := PreflightCnpj(raw);
    InvalidItem(raw, verdict.digits, |verdict.digits|, verdict.reason)
  }

  function Rejected(entries: seq<string>): seq<InvalidItem> {
    if entries == [] then []
    else Rejected(entries[..|entries| - 1])
         + if PreflightCnpj(entries[|entries| - 1]).valid then [] else [InvalidReport(entries[|entries| - 1])]
  }

  function StrippedToNothing(list: seq<string>): nat {
    if list == [] then 0
    else StrippedToNothing(list[..|list| - 1]) + if Canonical(list[|list| - 1]) == [] then 1 else 0
  }

  /**
   * The loop: valid and invalid are the first occurrences, sorted by verdict and in order; and every
   * entry read is valid, invalid, a duplicate, or strips to nothing.
   */
  method Preflight(text: string) returns (valid: seq<string>, invalid: seq<InvalidItem>, duplicates: nat)
    ensures var list := RawList(text);
      && valid == Accepted(FirstOccurrences(list))
      && invalid == Rejected(FirstOccurrences(list))
      && |valid| + |invalid| + duplicates + StrippedToNothing(list) == |list|
  {
    hide *;
    var list := RawList(text);
    var seen: map<string, string> := map[];
    valid, invalid, duplicates := [], [], 0;
    EmptyList(list);
    for i := 0 to |list|
      invariant HasRead(list, i, seen, valid, invalid, duplicates)
    {
      var raw := list[i];
      var verdict := PreflightCnpj(raw);
      if |verdict.digits| == 0 {
        ReadBlank(list, i, seen, valid, invalid, duplicates);
        continue;
      }
      if verdict.digits in seen {
        ReadDuplicate(list, i, seen, valid, invalid, duplicates);
        duplicates := duplicates + 1;
        continue;
      }
      ghost var before := seen;
      seen := seen[verdict.digits := raw];
      if verdict.valid {
        ReadValid(list, i, before, valid, invalid, duplicates);
        valid := valid + [raw];
      } else {
        ReadInvalid(list, i, before, valid, invalid, duplicates);
        invalid := invalid + [InvalidItem(raw, verdict.digits, |verdict.digits|, verdict.reason)];
      }
    }
    ReadAll(list, seen, valid, invalid, duplicates);
  }

  /** What the loop has computed after reading the first `n` entries. */
  ghost predicate HasRead(list: seq<string>, n: nat, seen: map<string, string>, valid: seq<string>,
                          invalid: seq<InvalidItem>, duplicates: nat)
    requires n <= |list|
  {
    && valid == Accepted(FirstOccurrences(list[..n]))
    && invalid == Rejected(FirstOccurrences(list[..n]))
    && |valid| + |invalid| + duplicates + StrippedToNothing(list[..n]) == n
    && Remembers(seen, list[..n])
  }

  lemma EmptyList(list: seq<string>)
    ensures HasRead(list, 0, map[], [], [], 0)
  {
  }

  lemma ReadAll(list: seq<string>, seen: map<string, string>, valid: seq<string>, invalid: seq<InvalidItem>,
                duplicates: nat)
    requires HasRead(list, |list|, seen, valid, invalid, duplicates)
    ensures valid == Accepted(FirstOccurrences(list)) && invalid == Rejected(FirstOccurrences(list))
    ensures |valid| + |invalid| + duplicates + StrippedToNothing(list) == |list|
  {
    assert list[..|list|] == list;
  }

  lemma ReadBlank(list: seq<string>, i: nat, seen: map<string, string>, valid: seq<string>,
                  invalid: seq<InvalidItem>, duplicates: nat)
    requires i < |list| && HasRead(list, i, seen, valid, invalid, duplicates)
    requires var digits := PreflightCnpj(list[i]).digits; |digits| == 0
    ensures HasRead(list, i + 1, seen, valid, invalid, duplicates)
  {
    CnpjVerdict(list[i]);
    LoopStep(list, i);
    RemembersStep(seen, list, i);
    hide PreflightCnpj, Canonical, SeenBefore, FirstOccurrences, Accepted, Rejected, StrippedToNothing;
    hide InvalidReport, Remembers;
  }

  lemma ReadDuplicate(list: seq<string>, i: nat, seen: map<string, string>, valid: seq<string>,
                      invalid: seq<InvalidItem>, duplicates: nat)
    requires i < |list| && HasRead(list, i, seen, valid, invalid, duplicates)
    requires var digits := PreflightCnpj(list[i]).digits; |digits| > 0 && digits in seen
    ensures HasRead(list, i + 1, seen, valid, invalid, duplicates + 1)
  {
    CnpjVerdict(list[i]);
    LoopStep(list, i);
    RemembersStep(seen, list, i);
    hide PreflightCnpj, Canonical, SeenBefore, FirstOccurrences, Accepted, Rejected, StrippedToNothing;
    hide InvalidReport, Remembers;
  }

  lemma ReadValid(list: seq<string>, i: nat, seen: map<string, string>, valid: seq<string>,
                  invalid: seq<InvalidItem>, duplicates: nat)
    requires i < |list| && HasRead(list, i, seen, valid, invalid, duplicates)
    requires var v := PreflightCnpj(list[i]); |v.digits| > 0 && v.digits !in seen && v.valid
    ensures var later := seen[PreflightCnpj(list[i]).digits := list[i]];
      HasRead(list, i + 1, later, valid + [list[i]], invalid, duplicates)
  {
    CnpjVerdict(list[i]);
    LoopStep(list, i);
    RemembersStep(seen, list, i);
    hide PreflightCnpj, Canonical, SeenBefore, FirstOccurrences, Accepted, Rejected, StrippedToNothing;
    hide InvalidReport, Remembers;
  }

  lemma ReadInvalid(list: seq<string>, i: nat, seen: map<string, string>, valid: seq<string>,
                    invalid: seq<InvalidItem>, duplicates: nat)
    requires i < |list| && HasRead(list, i, seen, valid, invalid, duplicates)
    requires var v := PreflightCnpj(list[i]); |v.digits| > 0 && v.digits !in seen && !v.valid
    ensures var v := PreflightCnpj(list[i]);
      var later := seen[v.digits := list[i]];
      HasRead(list, i + 1, later, valid, invalid + [InvalidItem(list[i], v.digits, |v.digits|, v.reason)], duplicates)
  {
    CnpjVerdict(list[i]);
    LoopStep(list, i);
    RemembersStep(seen, list, i);
    hide PreflightCnpj, Canonical, SeenBefore, FirstOccurrences, Accepted, Rejected, StrippedToNothing;
    hide InvalidReport, Remembers;
  }

  /** The map's keys are the non-empty canonical forms met so far. */
  ghost predicate Remembers(seen: map<string, string>, list: seq<string>) {
    forall digits :: digits in seen <==> digits != [] && SeenBefore(list, digits)
  }

  lemma RemembersStep(seen: map<string, string>, list: seq<string>, i: nat)
    requires i < |list| && Remembers(seen, list[..i])
    ensures Canonical(list[i]) == [] ==> Remembers(seen, list[..i + 1])
    ensures Canonical(list[i]) in seen ==> Remembers(seen, list[..i + 1])
    ensures Canonical(list[i]) != [] ==> Remembers(seen[Canonical(list[i]) := list[i]], list[..i + 1])
    ensures Canonical(list[i]) in seen <==> Canonical(list[i]) != [] && SeenBefore(list[..i], Canonical(list[i]))
  {
    SeenStep(list, i);
    hide Canonical, SeenBefore;
  }

  /** What one more entry does to each of the specification's lists and counts. */
  lemma LoopStep(list: seq<string>, i: nat)
    requires i < |list|
    ensures var before, after := FirstOccurrences(list[..i]), FirstOccurrences(list[..i + 1]);
      if Canonical(list[i]) == [] || SeenBefore(list[..i], Canonical(list[i])) then
        after == before
      else
        && after == before + [list[i]]
        && Accepted(after) == (if PreflightCnpj(list[i]).valid then Accepted(before) + [list[i]] else Accepted(before))
        && Rejected(after) == (if PreflightCnpj(list[i]).valid then Rejected(before)
                              else Rejected(before) + [InvalidReport(list[i])])
    ensures var v := PreflightCnpj(list[i]);
      InvalidReport(list[i]) == InvalidItem(list[i], v.digits, |v.digits|, v.reason)
    ensures StrippedToNothing(list[..i + 1]) == StrippedToNothing(list[..i]) + if Canonical(list[i]) == [] then 1 else 0
  {
    hide Canonical, PreflightCnpj, SeenBefore;
    assert list[..i + 1][..i] == list[..i] && list[..i + 1][i] == list[i];
    var first := FirstOccurrences(list[..i]);
    assert first + [] == first;
    assert (first + [list[i]])[..|first|] == first;
    assert Accepted(first) + [] == Accepted(first) && Rejected(first) + [] == Rejected(first);
  }

  lemma SeenStep(list: seq<string>, i: nat)
    requires i < |list|
    ensures forall digits ::
      SeenBefore(list[..i + 1], digits) <==> SeenBefore(list[..i], digits) || Canonical(list[i]) == digits
  {
    hide Canonical;
    var whole := list[..i + 1];
    assert forall j :: 0 <= j < i ==> whole[j] == list[..i][j];
    assert whole[i] == list[i];
  }

  // ----- what is uploaded -----

  function Rows(valid: seq<string>): (r: seq<string>)
    ensures |r| == |valid|
    ensures forall i :: 0 <= i < |r| ==> r[i] == Canonical(valid[i])
  {
    if valid == [] then [] else Rows(valid[..|valid| - 1]) + [Canonical(valid[|valid| - 1])]
  }

  ghost predicate DistinctForms(entries: seq<string>) {
    forall i, j :: 0 <= i < j < |entries| ==> Canonical(entries[i]) != Canonical(entries[j])
  }

  ghost predicate SameForms(first: seq<string>, list: seq<string>) {
    forall digits :: SeenBefore(first, digits) <==> digits != [] && SeenBefore(list, digits)
  }

  lemma SeenAppend(list: seq<string>, raw: string)
    ensures forall digits :: SeenBefore(list + [raw], digits) <==> SeenBefore(list, digits) || Canonical(raw) == digits
  {
    assert (list + [raw])[..|list|] == list && (list + [raw])[..|list| + 1] == list + [raw];
    SeenStep(list + [raw], |list|);
  }

  lemma FormsStep(first: seq<string>, list: seq<string>, raw: string)
    requires SameForms(first, list)
    ensures Canonical(raw) == [] || SeenBefore(list, Canonical(raw)) ==> SameForms(first, list + [raw])
    ensures Canonical(raw) != [] ==> SameForms(first + [raw], list + [raw])
  {
    SeenAppend(list, raw);
    SeenAppend(first, raw);
    hide Canonical, SeenBefore;
  }

  /** Every non-empty form of the list, and no other, is the form of a first occurrence. */
  lemma {:induction false} FirstOccurrencesForms(list: seq<string>)
    ensures SameForms(FirstOccurrences(list), list)
  {
    if list != [] {
      var n := |list| - 1;
      hide Canonical, SeenBefore, SameForms;
      FirstOccurrencesForms(list[..n]);
      FormsStep(FirstOccurrences(list[..n]), list[..n], list[n]);
      assert list[..n] + [list[n]] == list;
      assert FirstOccurrences(list[..n]) + [] == FirstOccurrences(list[..n]);
    }
  }

  /** First occurrences have distinct canonical forms. */
  lemma {:induction false} FirstOccurrencesDistinct(list: seq<string>)
    ensures DistinctForms(FirstOccurrences(list))
  {
    hide Canonical;
    if list != [] {
      var n := |list| - 1;
      var before, first := list[..n], FirstOccurrences(list[..n]);
      FirstOccurrencesDistinct(before);
      FirstOccurrencesForms(before);
      forall i | 0 <= i < |first| && !SeenBefore(before, Canonical(list[n]))
        ensures Canonical(first[i]) != Canonical(list[n])
      {
        assert SeenBefore(first, Canonical(first[i]));
      }
    }
  }

  lemma {:induction false} AcceptedMembers(entries: seq<string>)
    ensures forall e :: e in Accepted(entries) <==> e in entries && PreflightCnpj(e).valid
    ensures DistinctForms(entries) ==> DistinctForms(Accepted(entries))
  {
    hide PreflightCnpj, Canonical;
    if entries != [] {
      var n := |entries| - 1;
      AcceptedMembers(entries[..n]);
      assert entries == entries[..n] + [entries[n]];
      if DistinctForms(entries) {
        assert DistinctForms(entries[..n]);
        var kept := Accepted(entries[..n]);
        forall i | 0 <= i < |kept| ensures Canonical(kept[i]) != Canonical(entries[n]) {
          assert kept[i] in entries[..n];
          var j :| 0 <= j < n && entries[..n][j] == kept[i];
          assert entries[j] == kept[i];
        }
      }
    }
  }

  ghost predicate NoRepeats(rows: seq<string>) { forall i, j :: 0 <= i < j < |rows| ==> rows[i] != rows[j] }

  ghost predicate AllAcceptedCnpj(rows: seq<string>) { forall i :: 0 <= i < |rows| ==> AcceptedCnpj(rows[i]) }

  /** The uploaded rows are pairwise distinct and all pass the check. */
  lemma UploadedRows(text: string)
    ensures var rows := Rows(Accepted(FirstOccurrences(RawList(text)))); NoRepeats(rows) && AllAcceptedCnpj(rows)
  {
    var entries := FirstOccurrences(RawList(text));
    var valid := Accepted(entries);
    FirstOccurrencesDistinct(RawList(text));
    AcceptedMembers(entries);
    forall i | 0 <= i < |valid| ensures AcceptedCnpj(Rows(valid)[i]) {
      assert valid[i] in valid;
      CnpjVerdict(valid[i]);
    }
    hide Canonical, AcceptedCnpj;
  }

  // ----- uploading what was uploaded -----

  ghost predicate OwnForms(rows: seq<string>) {
    (forall i :: 0 <= i < |rows| ==> Canonical(rows[i]) == rows[i] && rows[i] != []) && NoRepeats(rows)
  }

  lemma OwnFormsStep(rows: seq<string>)
    requires rows != [] && OwnForms(rows)
    ensures var n := |rows| - 1;
      && OwnForms(rows[..n]) && rows == rows[..n] + [rows[n]]
      && Canonical(rows[n]) != [] && !SeenBefore(rows[..n], Canonical(rows[n]))
  {
    hide Canonical;
    assert forall j :: 0 <= j < |rows| - 1 ==> rows[..|rows| - 1][j] == rows[j];
  }

  lemma {:induction false} AllFirst(rows: seq<string>)
    requires OwnForms(rows)
    ensures FirstOccurrences(rows) == rows
  {
    if rows != [] {
      OwnFormsStep(rows);
      hide Canonical, SeenBefore, OwnForms;
      AllFirst(rows[..|rows| - 1]);
    }
  }

  lemma {:induction false} AllAccepted(rows: seq<string>)
    requires forall i :: 0 <= i < |rows| ==> PreflightCnpj(rows[i]).valid
    ensures Accepted(rows) == rows && Rejected(rows) == []
  {
    hide PreflightCnpj;
    if rows != [] {
      var n := |rows| - 1;
      AllAccepted(rows[..n]);
      assert rows == rows[..n] + [rows[n]];
    }
  }

  lemma AcceptedRow(row: string)
    requires AcceptedCnpj(row) && Canonical(row) == row
    ensures PreflightCnpj(row).valid
  {
    CnpjVerdict(row);
  }

  /** Preflighting the uploaded rows again keeps each of them, and finds no error and no duplicate. */
  lemma PreflightIdempotent(text: string)
    ensures var rows := Rows(Accepted(FirstOccurrences(RawList(text))));
      && Accepted(FirstOccurrences(rows)) == rows && Rejected(FirstOccurrences(rows)) == []
      && Rows(rows) == rows && StrippedToNothing(rows) == 0
  {
    var valid := Accepted(FirstOccurrences(RawList(text)));
    var rows := Rows(valid);
    UploadedRows(text);
    hide Canonical, PreflightCnpj, AcceptedCnpj, Rows, Accepted, FirstOccurrences, RawList, StrippedToNothing, Rejected;
    forall i | 0 <= i < |rows| ensures Canonical(rows[i]) == rows[i] && rows[i] != [] && PreflightCnpj(rows[i]).valid {
      CanonicalIdempotent(valid[i]);
      AcceptedRow(rows[i]);
      AcceptedLength(rows[i]);
    }
    AllFirst(rows);
    AllAccepted(rows);
    NothingStripped(rows);
  }

  lemma AcceptedLength(row: string)
    requires AcceptedCnpj(row)
    ensures |row| == 14
  {
  }

  lemma {:induction false} NothingStripped(rows: seq<string>)
    requires forall i :: 0 <= i < |rows| ==> Canonical(rows[i]) != []
    ensures StrippedToNothing(rows) == 0
  {
    hide Canonical;
    if rows != [] { NothingStripped(rows[..|rows| - 1]); }
  }

  // ----- the entries and the lists, piece by piece -----

  lemma {:induction false} EntriesAppend(a: string, c: char, b: string)
    requires c == '\n' || c == ',' || c == ';'
    ensures SplitEntries(a + ([c] + b)) == SplitEntries(a) + SplitEntries(b)
  {
    if a == [] {
      assert a + ([c] + b) == [c] + b && ([c] + b)[1..] == b;
    } else {
      hide SplitEntries;
      var t := a[1..] + ([c] + b);
      assert a == [a[0]] + a[1..] && a + ([c] + b) == [a[0]] + t;
      EntriesAppend(a[1..], c, b);
      EntriesStep(a[0], t);
      EntriesStep(a[0], a[1..]);
      var x, y := SplitEntries(a[1..]), SplitEntries(b);
      assert (x + y)[0] == x[0] && (x + y)[1..] == x[1..] + y;
    }
  }

  lemma EntriesStep(x: char, t: string)
    ensures var rest := SplitEntries(t);
      SplitEntries([x] + t) == if Separates(x) then [[]] + rest else [[x] + rest[0]] + rest[1..]
  {
    assert ([x] + t)[1..] == t;
  }

  function OneTrimmed(piece: string): seq<string> {
    if Trim(Browser, piece) != [] then [Trim(Browser, piece)] else []
  }

  lemma TrimmedStep(pieces: seq<string>)
    ensures TrimmedNonEmpty(pieces) == if pieces == [] then [] else OneTrimmed(pieces[0]) + TrimmedNonEmpty(pieces[1..])
  {
    hide Trim;
  }

  lemma {:induction false} TrimmedAppend(a: seq<string>, b: seq<string>)
    ensures TrimmedNonEmpty(a + b) == TrimmedNonEmpty(a) + TrimmedNonEmpty(b)
  {
    hide *;
    TrimmedStep(a);
    if a == [] {
      assert a + b == b && [] + TrimmedNonEmpty(b) == TrimmedNonEmpty(b);
    } else {
      assert (a + b)[1..] == a[1..] + b && (a + b)[0] == a[0];
      TrimmedAppend(a[1..], b);
      TrimmedStep(a + b);
      SequencesAssociate(OneTrimmed(a[0]), TrimmedNonEmpty(a[1..]), TrimmedNonEmpty(b));
    }
  }

  lemma SequencesAssociate(a: seq<string>, b: seq<string>, c: seq<string>)
    ensures a + (b + c) == (a + b) + c
  {
  }

  /** A comma, a semicolon or a line feed between two texts separates their entries. */
  lemma EntriesOfParts(a: string, c: char, b: string)
    requires c == '\n' || c == ',' || c == ';'
    ensures RawList(a + ([c] + b)) == RawList(a) + RawList(b)
  {
    EntriesAppend(a, c, b);
    TrimmedAppend(SplitEntries(a), SplitEntries(b));
  }

  predicate OneEntry(e: string) { ',' !in e && ';' !in e && '\n' !in e }

  lemma {:induction false} WholeEntry(e: string)
    requires OneEntry(e)
    ensures SplitEntries(e) == [e]
  {
    if e != [] {
      WholeEntry(e[1..]);
      assert e == [e[0]] + e[1..];
    }
  }

  /** A text without any of the three is one entry, trimmed, or none when it is blank. */
  lemma EntryOfText(e: string)
    requires OneEntry(e)
    ensures RawList(e) == if Trim(Browser, e) == "" then [] else [Trim(Browser, e)]
  {
    WholeEntry(e);
    TrimmedStep([e]);
    TrimmedStep([]);
    hide Trim, TrimmedNonEmpty;
    assert [e][1..] == [] && OneTrimmed(e) + [] == OneTrimmed(e);
  }

  /** Entries joined by one of the three are read back. */
  lemma {:induction false} EntriesReadBack(entries: seq<string>, c: char)
    requires c == '\n' || c == ',' || c == ';'
    requires forall e :: e in entries ==> OneEntry(e) && Trimmed(Browser, e) && e != ""
    ensures RawList(Join(entries, [c])) == entries
  {
    if entries == [] {
      EntryOfText("");
      TrimFixed(Browser, "");
    } else {
      EntryOfText(entries[0]);
      TrimFixed(Browser, entries[0]);
      hide RawList, Trim;
      if |entries| > 1 {
        EntriesReadBack(entries[1..], c);
        EntriesOfParts(entries[0], c, Join(entries[1..], [c]));
        assert entries[0] + [c] + Join(entries[1..], [c]) == entries[0] + ([c] + Join(entries[1..], [c]));
      }
      assert entries == [entries[0]] + entries[1..];
    }
  }

  /** Each rejected entry is reported with its canonical form, its length and its reason. */
  ghost predicate ReportsEntry(item: InvalidItem, raw: string) {
    && item.raw == raw && !PreflightCnpj(raw).valid
    && item.digits == Canonical(raw) && item.digitCount == |Canonical(raw)|
    && item.reason == PreflightCnpj(raw).reason
  }

  /** `at` lists, in order, the places of the rejected entries, and the items report them. */
  ghost predicate ReportsPlaces(entries: seq<string>, items: seq<InvalidItem>, at: seq<nat>) {
    && |at| == |items|
    && (forall j, k :: 0 <= j < k < |at| ==> at[j] < at[k])
    && (forall k :: 0 <= k < |at| ==> at[k] < |entries| && ReportsEntry(items[k], entries[at[k]]))
  }

  lemma ReportsSnoc(entries: seq<string>, items: seq<InvalidItem>, at: seq<nat>, item: InvalidItem)
    requires entries != [] && ReportsPlaces(entries[..|entries| - 1], items, at)
    ensures ReportsPlaces(entries, items, at)
    ensures ReportsEntry(item, entries[|entries| - 1]) ==> ReportsPlaces(entries, items + [item], at + [|entries| - 1])
  {
    hide ReportsEntry;
    assert forall i :: 0 <= i < |entries| - 1 ==> entries[..|entries| - 1][i] == entries[i];
  }

  /** Accepted and rejected entries are all entries; the rejected are reported, in their order. */
  lemma {:induction false} RejectedPlaces(entries: seq<string>) returns (at: seq<nat>)
    ensures |Accepted(entries)| + |Rejected(entries)| == |entries| && ReportsPlaces(entries, Rejected(entries), at)
  {
    at := [];
    if entries != [] {
      var n := |entries| - 1;
      at := RejectedPlaces(entries[..n]);
      CnpjVerdict(entries[n]);
      var item, before := InvalidReport(entries[n]), Rejected(entries[..n]);
      assert PreflightCnpj(entries[n]).valid || ReportsEntry(item, entries[n]) by { hide PreflightCnpj, Canonical; }
      assert before + [] == before;
      hide PreflightCnpj, Canonical, ReportsPlaces, ReportsEntry, InvalidReport;
      ReportsSnoc(entries, before, at, item);
      if !PreflightCnpj(entries[n]).valid { at := at + [n]; }
    }
  }

  /** The entries with a canonical form and those that strip to nothing are all entries. */
  lemma {:induction false} StrippedExact(list: seq<string>)
    ensures StrippedToNothing(list) == |set i | 0 <= i < |list| && Canonical(list[i]) == ""|
  {
    hide Canonical;
    var places := set i | 0 <= i < |list| && Canonical(list[i]) == "";
    if list == [] {
      assert places == {};
    } else {
      var n := |list| - 1;
      var before := set i | 0 <= i < |list[..n]| && Canonical(list[..n][i]) == "";
      StrippedExact(list[..n]);
      forall i ensures i in before <==> 0 <= i < n && Canonical(list[i]) == "" {}
      if Canonical(list[n]) == "" {
        assert places == before + {n};
      } else {
        assert places == before;
      }
    }
  }

  // ----- which entries are kept -----

  /** `picked` are the entries at the places `at`, in their order. */
  ghost predicate PickedAt(list: seq<string>, picked: seq<string>, at: seq<nat>) {
    && |at| == |picked|
    && (forall j, k :: 0 <= j < k < |at| ==> at[j] < at[k])
    && (forall k :: 0 <= k < |at| ==> at[k] < |list| && picked[k] == list[at[k]])
  }

  lemma PickedSnoc(list: seq<string>, picked: seq<string>, at: seq<nat>)
    requires list != [] && PickedAt(list[..|list| - 1], picked, at)
    ensures PickedAt(list, picked, at) && PickedAt(list, picked + [list[|list| - 1]], at + [|list| - 1])
    ensures |list| - 1 !in at
  {
    assert forall i :: 0 <= i < |list| - 1 ==> list[..|list| - 1][i] == list[i];
  }

  /** The entry has a canonical form, and no entry before it has the same. */
  ghost predicate IsFirst(list: seq<string>, i: int)
    requires 0 <= i < |list|
  {
    Canonical(list[i]) != "" && forall j :: 0 <= j < i ==> Canonical(list[j]) != Canonical(list[i])
  }

  lemma FirstBefore(list: seq<string>, i: int)
    requires 0 <= i < |list| - 1
    ensures IsFirst(list[..|list| - 1], i) <==> IsFirst(list, i)
  {
    hide Canonical;
    assert forall j :: 0 <= j < |list| - 1 ==> list[..|list| - 1][j] == list[j];
  }

  lemma FirstLast(list: seq<string>)
    requires list != []
    ensures var n := |list| - 1;
      IsFirst(list, n) <==> !(Canonical(list[n]) == [] || SeenBefore(list[..n], Canonical(list[n])))
  {
    hide Canonical;
    var n := |list| - 1;
    if j :| 0 <= j < n && Canonical(list[j]) == Canonical(list[n]) { assert list[..n][j] == list[j]; }
  }

  /** The first occurrences are the entries at the places where a canonical form comes first. */
  lemma {:induction false} FirstOccurrencesPlaces(list: seq<string>) returns (at: seq<nat>)
    ensures PickedAt(list, FirstOccurrences(list), at)
    ensures forall i :: 0 <= i < |list| ==> (i in at <==> IsFirst(list, i))
  {
    at := [];
    if list != [] {
      var n := |list| - 1;
      hide FirstOccurrences, IsFirst, PickedAt, Canonical, SeenBefore;
      var before := FirstOccurrencesPlaces(list[..n]);
      PickedSnoc(list, FirstOccurrences(list[..n]), before);
      NextOccurrence(list);
      FirstAmong(list, before);
      if IsFirst(list, n) { at := before + [n]; } else { at := before; }
    }
  }

  lemma FirstAmong(list: seq<string>, before: seq<nat>)
    requires list != [] && |list| - 1 !in before
    requires var n := |list| - 1; forall i :: 0 <= i < n ==> (i in before <==> IsFirst(list[..n], i))
    ensures var n := |list| - 1;
      forall i :: 0 <= i <= n ==>
        (IsFirst(list, i) <==> i in if IsFirst(list, n) then before + [n] else before)
  {
    hide IsFirst;
    var n := |list| - 1;
    forall i | 0 <= i < n ensures IsFirst(list, i) <==> i in before { FirstBefore(list, i); }
  }

  lemma NextOccurrence(list: seq<string>)
    requires list != []
    ensures var n := |list| - 1;
      FirstOccurrences(list) == if IsFirst(list, n) then FirstOccurrences(list[..n]) + [list[n]]
                                else FirstOccurrences(list[..n])
  {
    FirstLast(list);
    hide IsFirst, Canonical, SeenBefore;
    var before := FirstOccurrences(list[..|list| - 1]);
    assert before + [] == before;
  }

  /** The accepted entries are those whose canonical form is an acceptable CNPJ, in their order. */
  lemma {:induction false} AcceptedPlaces(entries: seq<string>) returns (at: seq<nat>)
    ensures PickedAt(entries, Accepted(entries), at)
    ensures forall i :: 0 <= i < |entries| ==> (i in at <==> AcceptedCnpj(Canonical(entries[i])))
  {
    at := [];
    hide PreflightCnpj, Canonical, AcceptedCnpj;
    if entries != [] {
      var n := |entries| - 1;
      assert Accepted(entries[..n]) + [] == Accepted(entries[..n]);
      assert Accepted(entries)
        == if PreflightCnpj(entries[n]).valid then Accepted(entries[..n]) + [entries[n]] else Accepted(entries[..n]);
      hide Accepted, PickedAt;
      var before := AcceptedPlaces(entries[..n]);
      PickedSnoc(entries, Accepted(entries[..n]), before);
      CnpjVerdict(entries[n]);
      at := if PreflightCnpj(entries[n]).valid then before + [n] else before;
      assert forall i :: 0 <= i < n ==> entries[..n][i] == entries[i];
    }
  }
}
