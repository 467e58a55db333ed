/** Column order does not matter to hygiene, and hygiene of its own output: when it is a fixed point. */
module HygieneProperties {
  import opened Text
  import opened HeaderForms
  import opened Hygiene

  // ----- column order -----

  ghost predicate SameColumns(a: Row, b: Row) { forall field :: Under(a, field) == Under(b, field) }

  lemma {:induction false} OrderFields(a: Row, b: Row, n: Normalizers, k: nat)
    requires SameColumns(a, b) && k <= |FIELDS|
    ensures AllFields(a, n, k) == AllFields(b, n, k)
  {
    hide FieldStep;
    if k > 0 { OrderFields(a, b, n, k - 1); }
  }

  /** `b` holds the columns of `a` in another order: column i of `a` goes to place `to[i]`. */
  ghost predicate Reorders(a: Row, b: Row, to: seq<nat>, from: seq<nat>) {
    && |a| == |b| == |to| == |from|
    && (forall i :: 0 <= i < |a| ==> to[i] < |b| && from[to[i]] == i && b[to[i]] == a[i])
    && (forall j :: 0 <= j < |b| ==> from[j] < |a| && to[from[j]] == j)
  }

  /** Columns of one field keep their order among themselves. */
  ghost predicate KeepsFieldOrder(a: Row, to: seq<nat>)
    requires |to| == |a|
  {
    forall i, j :: 0 <= i < j < |a| && FieldOf(a[i]).Some? && FieldOf(a[i]) == FieldOf(a[j]) ==> to[i] < to[j]
  }

  lemma {:induction false} UnderNone(row: Row, field: string)
    requires forall i :: 0 <= i < |row| ==> FieldOf(row[i]) != Some(field)
    ensures Under(row, field) == []
  {
    hide FieldOf, Trim;
    if row != [] { UnderNone(row[1..], field); }
  }

  /** The permutation without the last column of `a`, which stands at place k of `b`. */
  function ToWithout(to: seq<nat>, k: nat): (r: seq<nat>)
    requires to != [] && forall i :: 0 <= i < |to| - 1 ==> to[i] != k
    ensures |r| == |to| - 1
    ensures forall i :: 0 <= i < |r| ==> r[i] == if to[i] > k then to[i] - 1 else to[i]
  {
    seq(|to| - 1, i requires 0 <= i < |to| - 1 => if to[i] > k then to[i] - 1 else to[i])
  }

  lemma ReordersWithout(a: Row, b: Row, to: seq<nat>, from: seq<nat>)
    requires a != [] && Reorders(a, b, to, from)
    ensures var n := |a| - 1;
      var k := to[n];
      Reorders(a[..n], b[..k] + b[k + 1..], ToWithout(to, k), from[..k] + from[k + 1..])
  {
    var n := |a| - 1;
    var k := to[n];
    OthersElsewhere(a, b, to, from);
    var b', to', from' := b[..k] + b[k + 1..], ToWithout(to, k), from[..k] + from[k + 1..];
    forall i | 0 <= i < n ensures to'[i] < n && from'[to'[i]] == i && b'[to'[i]] == a[i] {
      ThereWithout(a, b, to, from, i);
    }
    forall j | 0 <= j < n ensures from'[j] < n && to'[from'[j]] == j {
      BackWithout(a, b, to, from, j);
    }
    hide ToWithout;
  }

  lemma OthersElsewhere(a: Row, b: Row, to: seq<nat>, from: seq<nat>)
    requires a != [] && Reorders(a, b, to, from)
    ensures forall j :: 0 <= j < |a| - 1 ==> to[j] != to[|a| - 1]
  {
    forall j | 0 <= j < |a| - 1 ensures to[j] != to[|a| - 1] {
      assert from[to[j]] == j && from[to[|a| - 1]] == |a| - 1;
    }
  }

  lemma ThereWithout(a: Row, b: Row, to: seq<nat>, from: seq<nat>, i: nat)
    requires Reorders(a, b, to, from) && i < |a| - 1
    ensures var n := |a| - 1;
      var k := to[n];
      && (forall j :: 0 <= j < n ==> to[j] != k)
      && var m := ToWithout(to, k)[i];
         m < n && (from[..k] + from[k + 1..])[m] == i && (b[..k] + b[k + 1..])[m] == a[i]
  {
    var n := |a| - 1;
    var k := to[n];
    OthersElsewhere(a, b, to, from);
    assert from[to[i]] == i && to[i] != k;
  }

  lemma BackWithout(a: Row, b: Row, to: seq<nat>, from: seq<nat>, j: nat)
    requires Reorders(a, b, to, from) && j < |a| - 1
    ensures var n := |a| - 1;
      var k := to[n];
      && (forall i :: 0 <= i < n ==> to[i] != k)
      && var i := (from[..k] + from[k + 1..])[j]; i < n && ToWithout(to, k)[i] == j
  {
    var n := |a| - 1;
    var k := to[n];
    OthersElsewhere(a, b, to, from);
    var m := if j < k then j else j + 1;
    assert (from[..k] + from[k + 1..])[j] == from[m] && to[from[m]] == m;
  }

  function UnderOne(column: (string, string), field: string): seq<string> {
    if FieldOf(column) == Some(field) then [Trim(Server, column.1)] else []
  }

  lemma UnderAt(b: Row, k: nat, field: string)
    requires k < |b|
    ensures Under(b, field) == Under(b[..k], field) + UnderOne(b[k], field) + Under(b[k + 1..], field)
    ensures Under(b[..k] + b[k + 1..], field) == Under(b[..k], field) + Under(b[k + 1..], field)
  {
    hide FieldOf, Trim;
    UnderNext(b, k, field);
    hide Under, UnderOne;
    UnderAppend(b[..k + 1], b[k + 1..], field);
    UnderAppend(b[..k], b[k + 1..], field);
    assert b == b[..k + 1] + b[k + 1..];
  }

  /** Behind the place of the last column of `a`, no column of `b` is of its field. */
  lemma LaterOthers(a: Row, b: Row, to: seq<nat>, from: seq<nat>, field: string)
    requires a != [] && Reorders(a, b, to, from) && KeepsFieldOrder(a, to)
    ensures to[|a| - 1] < |b| && b[to[|a| - 1]] == a[|a| - 1]
    ensures UnderOne(a[|a| - 1], field) == [] || Under(b[to[|a| - 1] + 1..], field) == []
  {
    hide FieldOf, Trim, Under;
    var k := to[|a| - 1];
    if FieldOf(a[|a| - 1]) == Some(field) {
      forall m | k < m < |b| ensures FieldOf(b[m]) != Some(field) { assert to[from[m]] == m && from[m] != |a| - 1; }
      UnderNone(b[k + 1..], field);
    }
  }

  lemma UnderWithout(a: Row, b: Row, to: seq<nat>, from: seq<nat>, field: string)
    requires a != [] && Reorders(a, b, to, from) && KeepsFieldOrder(a, to)
    ensures to[|a| - 1] < |b|
    ensures var n := |a| - 1;
      var k := to[n];
      && Under(a, field) == Under(a[..n], field) + UnderOne(a[n], field)
      && Under(b, field) == Under(b[..k] + b[k + 1..], field) + UnderOne(a[n], field)
  {
    hide *;
    OneEach(a, b, to, from);
    LaterOthers(a, b, to, from, field);
    var n := |a| - 1;
    var k := to[n];
    UnderAt(b, k, field);
    UnderAt(a, n, field);
    NothingUnder(field);
    assert a[n + 1..] == [];
    Moved(Under(b[..k], field), UnderOne(a[n], field), Under(b[k + 1..], field));
    Moved(Under(a[..n], field), UnderOne(a[n], field), []);
  }

  lemma OneEach(a: Row, b: Row, to: seq<nat>, from: seq<nat>)
    requires Reorders(a, b, to, from)
    ensures |a| == |b| == |to| == |from|
  {
  }

  lemma Moved(before: seq<string>, one: seq<string>, after: seq<string>)
    requires one == [] || after == []
    ensures before + one + after == (before + after) + one
  {
  }

  lemma NothingUnder(field: string)
    ensures Under([], field) == []
  {
  }

  lemma {:induction false} UnderReordered(a: Row, b: Row, to: seq<nat>, from: seq<nat>, field: string)
    requires Reorders(a, b, to, from) && KeepsFieldOrder(a, to)
    ensures Under(a, field) == Under(b, field)
  {
    if a != [] {
      var n := |a| - 1;
      var k := to[n];
      ReordersWithout(a, b, to, from);
      UnderWithout(a, b, to, from, field);
      OrderWithout(a, b, to, from);
      hide Under, Reorders, KeepsFieldOrder, FieldOf, Trim;
      UnderReordered(a[..n], b[..k] + b[k + 1..], ToWithout(to, k), from[..k] + from[k + 1..], field);
    }
  }

  lemma OrderWithout(a: Row, b: Row, to: seq<nat>, from: seq<nat>)
    requires a != [] && Reorders(a, b, to, from) && KeepsFieldOrder(a, to)
    ensures forall i :: 0 <= i < |to| - 1 ==> to[i] != to[|a| - 1]
    ensures KeepsFieldOrder(a[..|a| - 1], ToWithout(to, to[|a| - 1]))
  {
    hide FieldOf;
    var n := |a| - 1;
    forall i | 0 <= i < n ensures to[i] != to[n] { assert from[to[i]] == i && from[to[n]] == n; }
    var to' := ToWithout(to, to[n]);
    forall i, j | 0 <= i < j < n && FieldOf(a[i]).Some? && FieldOf(a[i]) == FieldOf(a[j]) ensures to'[i] < to'[j] {
      assert to[i] < to[j];
    }
  }

  /** Reordering columns, except those of one field among themselves, never changes the result. */
  lemma ColumnOrder(a: Row, b: Row, to: seq<nat>, from: seq<nat>, n: Normalizers)
    requires Reorders(a, b, to, from) && KeepsFieldOrder(a, to)
    ensures HygieneOf(a, n) == HygieneOf(b, n)
  {
    hide FieldOf, Under, FIELDS;
    forall field ensures Under(a, field) == Under(b, field) { UnderReordered(a, b, to, from, field); }
    OrderFields(a, b, n, |FIELDS|);
  }

  function Swap(n: nat, k: nat): (to: seq<nat>)
    requires k + 1 < n
    ensures |to| == n
    ensures forall i :: 0 <= i < n ==> to[i] == if i == k then k + 1 else if i == k + 1 then k else i
  {
    seq(n, i requires 0 <= i < n => if i == k then k + 1 else if i == k + 1 then k else i)
  }

  /** So swapping two neighbouring columns that are not of one field changes nothing. */
  lemma SwapColumns(before: Row, x: (string, string), y: (string, string), after: Row, n: Normalizers)
    requires FieldOf(x) != FieldOf(y) || FieldOf(x).None?
    ensures HygieneOf(before + [x, y] + after, n) == HygieneOf(before + [y, x] + after, n)
  {
    hide FieldOf, HygieneOf;
    var a, b, k := before + [x, y] + after, before + [y, x] + after, |before|;
    var to := Swap(|a|, k);
    assert a[k] == x && a[k + 1] == y && b[k] == y && b[k + 1] == x;
    assert forall i :: 0 <= i < |a| && i != k && i != k + 1 ==> a[i] == b[i];
    ColumnOrder(a, b, to, to, n);
  }

  // ----- what a result holds -----

  ghost predicate FromRow(row: Row, n: Normalizers, normalized: map<string, string>, k: nat)
    requires k <= |FIELDS|
  {
    forall f :: f in normalized ==>
      f in FIELDS[..k] && normalized[f] != "" && Normalizer(n, f, Values(row, f)) == Ok(normalized[f])
  }

  /** Every normalised field is the normaliser's result on the row's first column of that field. */
  lemma {:induction false} NormalizedMeaning(row: Row, n: Normalizers, k: nat)
    requires k <= |FIELDS|
    ensures FromRow(row, n, AllFields(row, n, k).normalized, k)
  {
    if k == 0 {
      NothingMeant(row, n);
    } else {
      AllFieldsStep(row, n, k);
      hide FIELDS, FieldStep, FromRow, AllFields;
      NormalizedMeaning(row, n, k - 1);
      StepMeaning(row, n, AllFields(row, n, k - 1), k - 1);
    }
  }

  lemma NothingMeant(row: Row, n: Normalizers)
    ensures FromRow(row, n, AllFields(row, n, 0).normalized, 0)
  {
    hide FIELDS, Normalizer, Values;
  }

  lemma AllFieldsStep(row: Row, n: Normalizers, k: nat)
    requires 0 < k <= |FIELDS|
    ensures AllFields(row, n, k) == FieldStep(AllFields(row, n, k - 1), n, FIELDS[k - 1], Values(row, FIELDS[k - 1]))
  {
    hide FIELDS, FieldStep, Values;
  }

  lemma StepMeaning(row: Row, n: Normalizers, acc: Acc, k: nat)
    requires k < |FIELDS| && FromRow(row, n, acc.normalized, k)
    ensures FromRow(row, n, FieldStep(acc, n, FIELDS[k], Values(row, FIELDS[k])).normalized, k + 1)
  {
    hide Normalizer, Values, RuleName, FIELDS;
    assert FIELDS[..k + 1] == FIELDS[..k] + [FIELDS[k]];
  }

  // ----- the output as a row -----

  function OutputFrom(normalized: map<string, string>, names: seq<string>): Row {
    if names == [] then []
    else OutputFrom(normalized, names[..|names| - 1]) + Column(normalized, names[|names| - 1])
  }

  function Column(normalized: map<string, string>, name: string): Row {
    if name in normalized then [(name, normalized[name])] else []
  }

  /** The normalised fields as columns, in the order in which the dictionary was filled. */
  function OutputRow(normalized: map<string, string>): Row { OutputFrom(normalized, FIELDS) }

  /** The fields whose own name is one of their aliases; `domain` and `trade_name` are not. */
  predicate SelfNamed(field: string) {
    field == "cnpj" || field == "email" || field == "phone" || field == "legal_name"
  }

  lemma FieldNames(field: string, value: string)
    requires field in FIELDS
    ensures FieldOf((field, value)) == if SelfNamed(field) then Some(field) else None
  {
    FieldsNormal();
    FieldAliases();
    hide AliasOf, Normal;
    NormalFixed(field);
  }

  lemma FieldsNormal()
    ensures forall f :: f in FIELDS ==> Normal(f)
  {
    assert forall i :: 0 <= i < |FIELDS| ==> Normal(FIELDS[i]);
  }

  lemma FieldAliases()
    ensures AliasOf("cnpj") == Some("cnpj") && AliasOf("email") == Some("email") && AliasOf("phone") == Some("phone")
    ensures AliasOf("legal_name") == Some("legal_name") && AliasOf("domain") == None && AliasOf("trade_name") == None
  {
  }

  lemma UnderColumn(normalized: map<string, string>, name: string, field: string)
    requires name in FIELDS
    ensures Under(Column(normalized, name), field)
         == if field == name && SelfNamed(field) && field in normalized then [Trim(Server, normalized[field])] else []
  {
    if name in normalized {
      FieldNames(name, normalized[name]);
      hide FieldOf, Trim, SelfNamed;
      var column := Column(normalized, name);
      assert column[1..] == [];
    }
  }

  /** What stands under a field, if it is one of these names. */
  ghost function Standing(normalized: map<string, string>, names: set<string>, field: string): seq<string> {
    if field in names && SelfNamed(field) && field in normalized then [Trim(Server, normalized[field])] else []
  }

  ghost predicate StandsAlone(normalized: map<string, string>, name: string, field: string) {
    Under(Column(normalized, name), field) == Standing(normalized, {name}, field)
  }

  function NameSet(names: seq<string>): set<string> {
    if names == [] then {} else NameSet(names[..|names| - 1]) + {names[|names| - 1]}
  }

  ghost predicate Separate(normalized: map<string, string>, names: seq<string>, field: string) {
    names == [] || (
      && names[|names| - 1] !in NameSet(names[..|names| - 1])
      && StandsAlone(normalized, names[|names| - 1], field)
      && Separate(normalized, names[..|names| - 1], field))
  }

  lemma {:induction false} UnderNames(normalized: map<string, string>, names: seq<string>, field: string)
    requires Separate(normalized, names, field)
    ensures Under(OutputFrom(normalized, names), field) == Standing(normalized, NameSet(names), field)
  {
    if names != [] {
      hide Under, Trim, SelfNamed, Column;
      var n := |names| - 1;
      UnderNames(normalized, names[..n], field);
      UnderAppend(OutputFrom(normalized, names[..n]), Column(normalized, names[n]), field);
    }
  }

  lemma {:induction false} FieldsSeparate(normalized: map<string, string>, field: string, k: nat)
    requires k <= |FIELDS|
    ensures Separate(normalized, FIELDS[..k], field)
    ensures forall f :: f in NameSet(FIELDS[..k]) <==> f in FIELDS[..k]
  {
    if k > 0 {
      FieldsDistinct();
      UnderColumn(normalized, FIELDS[k - 1], field);
      hide FIELDS, SelfNamed, Under, Column, Trim;
      FieldsSeparate(normalized, field, k - 1);
      assert FIELDS[..k][..k - 1] == FIELDS[..k - 1] && FIELDS[..k][k - 1] == FIELDS[k - 1];
    }
  }

  lemma UnderOutput(normalized: map<string, string>, field: string)
    ensures Under(OutputRow(normalized), field)
         == if field in FIELDS && SelfNamed(field) && field in normalized then [Trim(Server, normalized[field])] else []
  {
    FieldsSeparate(normalized, field, |FIELDS|);
    assert FIELDS[..|FIELDS|] == FIELDS;
    hide FIELDS, Under, Column, OutputFrom, Trim, SelfNamed, NameSet, Separate;
    UnderNames(normalized, FIELDS, field);
  }

  lemma FieldsDistinct()
    ensures forall i, j :: 0 <= i < j < |FIELDS| ==> FIELDS[i] != FIELDS[j]
  {
  }

  // ----- running hygiene on its own output -----

  ghost predicate SettledNormalizers(n: Normalizers) {
    Settles(n.cnpj) && Settles(n.email) && Settles(n.phone)
  }

  function Kept(normalized: map<string, string>, k: nat): map<string, string>
    requires k <= |FIELDS|
  {
    map f | f in normalized && f in FIELDS[..k] && SelfNamed(f) :: normalized[f]
  }

  lemma SelfNamedSettle(n: Normalizers, field: string, original: string, text: string)
    requires SettledNormalizers(n) && SelfNamed(field) && Normalizer(n, field, original) == Ok(text) && text != ""
    ensures Trim(Server, text) == text && Normalizer(n, field, text) == Ok(text)
  {
    if field == "legal_name" { NameSettles(original); }
    hide NormalizeName;
    TrimFixed(Server, text);
  }

  lemma RerunValue(row: Row, n: Normalizers, field: string)
    requires SettledNormalizers(n) && field in FIELDS
    ensures var once := AllFields(row, n, |FIELDS|).normalized;
      Values(OutputRow(once), field) == (if SelfNamed(field) && field in once then once[field] else "")
      && (SelfNamed(field) && field in once ==>
            once[field] != "" && Normalizer(n, field, once[field]) == Ok(once[field]))
  {
    var once := AllFields(row, n, |FIELDS|).normalized;
    NormalizedMeaning(row, n, |FIELDS|);
    UnderOutput(once, field);
    assert FIELDS[..|FIELDS|] == FIELDS;
    if SelfNamed(field) && field in once {
      hide Under, Normalizer, SelfNamed, AllFields;
      SelfNamedSettle(n, field, Values(row, field), once[field]);
    }
  }

  lemma KeptStep(once: map<string, string>, k: nat)
    requires k < |FIELDS|
    ensures var field := FIELDS[k];
      Kept(once, k + 1)
      == if SelfNamed(field) && field in once then Kept(once, k)[field := once[field]] else Kept(once, k)
  {
    hide SelfNamed;
    assert FIELDS[..k + 1] == FIELDS[..k] + [FIELDS[k]];
  }

  lemma {:induction false} RerunFields(row: Row, n: Normalizers, k: nat)
    requires SettledNormalizers(n) && k <= |FIELDS|
    ensures var once := AllFields(row, n, |FIELDS|).normalized;
      AllFields(OutputRow(once), n, k) == Acc(Kept(once, k), [], [])
  {
    var once := AllFields(row, n, |FIELDS|).normalized;
    if k == 0 {
      assert Kept(once, 0) == map[];
    } else {
      var field := FIELDS[k - 1];
      RerunFields(row, n, k - 1);
      RerunValue(row, n, field);
      KeptStep(once, k - 1);
      var again := OutputRow(once);
      assert AllFields(again, n, k) == FieldStep(AllFields(again, n, k - 1), n, field, Values(again, field));
      hide Values, OutputRow, Normalizer, SelfNamed, Kept, AllFields;
    }
  }

  lemma IdentityChoice(normalized: map<string, string>)
    requires forall f :: f in normalized ==> f in FIELDS && normalized[f] != ""
    ensures var kept := Kept(normalized, |FIELDS|);
      var first, second := IdentityFrom(normalized, 0), IdentityFrom(kept, 0);
      first.Some? ==> (second == first <==> first.value.0 != "domain")
  {
    var kept := Kept(normalized, |FIELDS|);
    assert FIELDS[..|FIELDS|] == FIELDS;
    assert forall f :: f in kept <==> f in normalized && SelfNamed(f);
    assert IDENTITY_FIELDS == ["cnpj", "email", "phone", "domain", "legal_name"];
    IdentityUnfolded(normalized);
    IdentityUnfolded(kept);
  }

  lemma IdentityUnfolded(m: map<string, string>)
    requires forall f :: f in m ==> m[f] != ""
    ensures IdentityFrom(m, 0)
         == if "cnpj" in m then Some(("cnpj", m["cnpj"])) else if "email" in m then Some(("email", m["email"]))
            else if "phone" in m then Some(("phone", m["phone"]))
            else if "domain" in m then Some(("domain", m["domain"]))
            else if "legal_name" in m then Some(("legal_name", m["legal_name"])) else None
  {
    assert IdentityFrom(m, 5) == None;
    assert IdentityFrom(m, 4) == if "legal_name" in m then Some(("legal_name", m["legal_name"])) else None;
    assert IdentityFrom(m, 3) == if "domain" in m then Some(("domain", m["domain"])) else IdentityFrom(m, 4);
    assert IdentityFrom(m, 2) == if "phone" in m then Some(("phone", m["phone"])) else IdentityFrom(m, 3);
    assert IdentityFrom(m, 1) == if "email" in m then Some(("email", m["email"])) else IdentityFrom(m, 2);
  }

  lemma KeptFields(once: map<string, string>)
    requires forall f :: f in once ==> f in FIELDS
    ensures forall f :: f in Kept(once, |FIELDS|) <==> f in once && f != "domain" && f != "trade_name"
    ensures forall f :: f in Kept(once, |FIELDS|) ==> Kept(once, |FIELDS|)[f] == once[f]
  {
    assert FIELDS[..|FIELDS|] == FIELDS;
    forall f | f in FIELDS ensures SelfNamed(f) <==> f != "domain" && f != "trade_name" {
      var i :| 0 <= i < 6 && FIELDS[i] == f;
    }
  }

  /**
   * With normalisers whose results are their own fixed points, hygiene of the output of a row with an
   * identifier keeps every field except `domain` and `trade_name` (neither is an alias of itself) and
   * applies no rule; and it reports UNCHANGED, no issues and the same identity, hence the same
   * fingerprint, if and only if the identifier of the row was not its domain.
   */
  lemma HygieneAgain(row: Row, n: Normalizers)
    requires SettledNormalizers(n) && HygieneOf(row, n).identity.Some?
    ensures var once := HygieneOf(row, n);
      var again := HygieneOf(OutputRow(once.normalized), n);
      && (forall f :: f in again.normalized <==> f in once.normalized && f != "domain" && f != "trade_name")
      && (forall f :: f in again.normalized ==> again.normalized[f] == once.normalized[f])
      && again.rules == []
      && (again.state == UNCHANGED && again.issues == [] && again.identity == once.identity
          <==> once.identity.value.0 != "domain")
  {
    var acc := AllFields(row, n, |FIELDS|);
    var once := acc.normalized;
    NormalizedMeaning(row, n, |FIELDS|);
    assert FIELDS[..|FIELDS|] == FIELDS;
    RerunFields(row, n, |FIELDS|);
    IdentityChoice(once);
    KeptFields(once);
    hide AllFields, OutputRow, IdentityFrom, Kept, SettledNormalizers;
  }

  /** One column, headed "site". */
  const DOMAIN_ROW: Row := [("site", "x.com")]

  lemma SiteAlias()
    ensures AliasOf("site") == Some("domain")
  {
  }

  lemma SiteNormal()
    ensures Normal("site")
  {
  }

  lemma SiteIsDomain(value: string)
    ensures FieldOf(("site", value)) == Some("domain")
  {
    hide AliasOf, Normal, ServerHeader;
    SiteAlias();
    SiteNormal();
    NormalFixed("site");
  }

  lemma DomainColumn(field: string)
    ensures Values(DOMAIN_ROW, field) == if field == "domain" then "x.com" else ""
  {
    SiteIsDomain("x.com");
    TrimFixed(Server, "x.com");
    assert DOMAIN_ROW[1..] == [] && DOMAIN_ROW[0] == ("site", "x.com");
    hide FieldOf, Trim;
    assert Under([], field) == [];
  }

  lemma DomainIsSecond(k: nat)
    requires k < |FIELDS|
    ensures FIELDS[k] == "domain" <==> k == 1
  {
    FieldsDistinct();
    assert FIELDS[1] == "domain";
    hide FIELDS;
  }

  lemma DomainStep(n: Normalizers, acc: Acc, field: string)
    requires n.domain("x.com") == Ok("x.com")
    ensures FieldStep(acc, n, field, Values(DOMAIN_ROW, field))
         == if field == "domain" then acc.(normalized := acc.normalized[field := "x.com"]) else acc
  {
    DomainColumn(field);
    hide Values;
  }

  lemma {:induction false} DomainFields(n: Normalizers, k: nat)
    requires n.domain("x.com") == Ok("x.com") && k <= |FIELDS|
    ensures AllFields(DOMAIN_ROW, n, k) == Acc(if k >= 2 then map["domain" := "x.com"] else map[], [], [])
  {
    if k > 0 {
      AllFieldsStep(DOMAIN_ROW, n, k);
      hide AllFields, FIELDS, FieldStep, Values;
      DomainFields(n, k - 1);
      DomainIsSecond(k - 1);
      DomainStep(n, AllFields(DOMAIN_ROW, n, k - 1), FIELDS[k - 1]);
    }
  }

  /** A row that the first run identifies by its domain has no identifier in the second. */
  lemma DomainForgotten(n: Normalizers)
    requires SettledNormalizers(n) && n.domain("x.com") == Ok("x.com")
    ensures var once := HygieneOf(DOMAIN_ROW, n);
      var again := HygieneOf(OutputRow(once.normalized), n);
      && once.state == UNCHANGED && once.identity == Some(("domain", "x.com"))
      && again.state == INVALID && again.identity == None && again.issues == [MISSING]
  {
    DomainFields(n, |FIELDS|);
    RerunFields(DOMAIN_ROW, n, |FIELDS|);
    hide AllFields, OutputRow, IdentityFrom, Kept, SettledNormalizers, FIELDS;
    OnlyDomain();
  }

  lemma OnlyDomain()
    ensures var once := map["domain" := "x.com"];
      && IdentityFrom(once, 0) == Some(("domain", "x.com"))
      && Kept(once, |FIELDS|) == map[] && IdentityFrom(map[], 0) == None
  {
    var once := map["domain" := "x.com"];
    assert Kept(once, |FIELDS|) == map[];
    hide IdentityFrom, Kept, FIELDS;
    IdentityUnfolded(once);
    IdentityUnfolded(map[]);
  }

  /** The repository's own CNPJ, telephone and name normalisers meet the assumption. */
  lemma OwnNormalizersSettle(email: string -> NormalizerResult, domain: string -> NormalizerResult)
    requires Settles(email)
    ensures SettledNormalizers(Normalizers(NormalizeCnpj, domain, email, NormalizePhone))
  {
    CnpjSettles();
    PhoneSettles();
  }
}
