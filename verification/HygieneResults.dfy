/**
 * What one run of row hygiene reports (src/leadstream/batches/hygiene.py), field by field and in words of
 * its own: what is normalised, which rules and issues are named, which identity is chosen, which state.
 */
module HygieneResults {
  import opened Text
  import opened HeaderForms
  import opened CheckDigits
  import opened Hygiene
  import opened HygieneProperties

  // ----- headers and normalisers, spelled out -----

  const ALIASES: seq<(string, string)> :=
    [("cnpj", "cnpj"), ("documento", "cnpj"),
     ("razao_social", "legal_name"), ("nome_empresa", "legal_name"), ("empresa", "legal_name"),
     ("legal_name", "legal_name"),
     ("nome_fantasia", "trade_name"),
     ("dominio", "domain"), ("site", "domain"), ("website", "domain"),
     ("email", "email"), ("e_mail", "email"),
     ("telefone", "phone"), ("celular", "phone"), ("whatsapp", "phone"), ("phone", "phone")]

  predicate Aliased(entry: (string, string)) { AliasOf(entry.0) == Some(entry.1) }

  /** The sixteen aliases, and no other. */
  lemma AliasTable(header: string)
    ensures forall i :: 0 <= i < |ALIASES| ==> Aliased(ALIASES[i])
    ensures AliasOf(header).Some? ==> exists i :: 0 <= i < |ALIASES| && ALIASES[i].0 == header
  {
    AliasesHold();
    if AliasOf(header).Some? { var i := AliasPlace(header); }
  }

  lemma AliasesHold()
    ensures forall i :: 0 <= i < |ALIASES| ==> Aliased(ALIASES[i])
  {
  }

  lemma AliasPlace(header: string) returns (i: nat)
    requires AliasOf(header).Some?
    ensures i < |ALIASES| && ALIASES[i].0 == header
  {
    match header
    case "cnpj" => i := 0;
    case "documento" => i := 1;
    case "razao_social" => i := 2;
    case "nome_empresa" => i := 3;
    case "empresa" => i := 4;
    case "legal_name" => i := 5;
    case "nome_fantasia" => i := 6;
    case "dominio" => i := 7;
    case "site" => i := 8;
    case "website" => i := 9;
    case "email" => i := 10;
    case "e_mail" => i := 11;
    case "telefone" => i := 12;
    case "celular" => i := 13;
    case "whatsapp" => i := 14;
    case "phone" => i := 15;
    case _ =>
  }

  /** What the field's normaliser answers for the row's first value of the field. */
  function Answer(row: Row, n: Normalizers, field: string): NormalizerResult {
    var value := Values(row, field);
    if field == "cnpj" then n.cnpj(value)
    else if field == "domain" then n.domain(value)
    else if field == "email" then n.email(value)
    else if field == "phone" then n.phone(value)
    else Ok(NormalizeName(value))
  }

  predicate Present(row: Row, field: string) { Values(row, field) != "" }

  /** The field is normalised, to a text that is not empty. */
  predicate Yields(row: Row, n: Normalizers, field: string) {
    Present(row, field) && Answer(row, n, field).Ok? && Answer(row, n, field).text != ""
  }

  /** It is normalised to another text than the row's first value of the field. */
  predicate Changes(row: Row, n: Normalizers, field: string) {
    Yields(row, n, field) && Answer(row, n, field).text != Values(row, field)
  }

  /** Its value is there, and its normaliser raises or returns nothing. */
  predicate Fails(row: Row, n: Normalizers, field: string) { Present(row, field) && !Yields(row, n, field) }

  function RuleIf(row: Row, n: Normalizers, field: string, capitals: string): seq<string> {
    if Changes(row, n, field) then ["NORMALIZE_" + capitals] else []
  }

  function IssueIf(row: Row, n: Normalizers, field: string): seq<Issue> {
    if !Fails(row, n, field) then []
    else match Answer(row, n, field)
      case Raised(message) => [Issue(field, "INVALID", message)]
      case Ok(_) => [Issue(field, "EMPTY", "Valor vazio.")]
  }

  predicate StandsUnder(row: Row, i: int, field: string) { 0 <= i < |row| && FieldOf(row[i]) == Some(field) }

  /** The value of a field is that of the first column with a header of the field, trimmed; else empty. */
  lemma {:induction false} ValuesFirst(row: Row, field: string) returns (i: int)
    ensures Under(row, field) == [] <==> forall j :: !StandsUnder(row, j, field)
    ensures Under(row, field) == [] ==> Values(row, field) == ""
    ensures Under(row, field) != [] ==>
      StandsUnder(row, i, field) && Values(row, field) == Trim(Server, row[i].1)
      && forall j :: StandsUnder(row, j, field) ==> i <= j
  {
    hide FieldOf, Trim;
    i := 0;
    if row != [] {
      var k := ValuesFirst(row[1..], field);
      assert forall j :: StandsUnder(row, j, field) && j > 0 ==> StandsUnder(row[1..], j - 1, field);
      assert forall j :: StandsUnder(row[1..], j, field) ==> StandsUnder(row, j + 1, field);
      if FieldOf(row[0]) == Some(field) { assert StandsUnder(row, 0, field); } else { i := k + 1; }
    }
  }

  // ----- one field -----

  lemma AnswerIs(row: Row, n: Normalizers, field: string)
    ensures Answer(row, n, field) == Normalizer(n, field, Values(row, field))
  {
    hide Values, NormalizeName;
  }

  lemma RuleText(field: string, capitals: string)
    requires Capitals(field, capitals)
    ensures RuleName(field) == "NORMALIZE_" + capitals
  {
    UpperText(field, capitals);
  }

  lemma FirstNames()
    ensures Capitals("cnpj", "CNPJ") && Capitals("domain", "DOMAIN") && Capitals("email", "EMAIL")
  {
  }

  lemma LastNames()
    ensures Capitals("phone", "PHONE") && Capitals("legal_name", "LEGAL_NAME") && Capitals("trade_name", "TRADE_NAME")
  {
  }

  predicate Capitals(s: string, t: string) {
    |s| == |t| && forall i :: 0 <= i < |s| ==> UpperChar(s[i], t[i])
  }

  predicate UpperChar(c: char, d: char) {
    if 'a' <= c <= 'z' then d as int == c as int - 32 else d == c
  }

  lemma {:induction false} UpperText(s: string, t: string)
    requires Capitals(s, t)
    ensures Upper(s) == t
  {
    if s != [] { UpperText(s[1..], t[1..]); }
  }

  lemma FieldFacts(row: Row, n: Normalizers, acc: Acc, field: string)
    ensures var next := FieldStep(acc, n, field, Values(row, field));
      && next.rules == acc.rules + (if Changes(row, n, field) then [RuleName(field)] else [])
      && next.issues == acc.issues + IssueIf(row, n, field)
      && next.normalized
         == if Yields(row, n, field) then acc.normalized[field := Answer(row, n, field).text] else acc.normalized
  {
    AnswerIs(row, n, field);
    hide Values, Normalizer, Answer, RuleName;
  }

  // ----- all fields -----

  /** The row's fields so far, in the order in which they are normalised. */
  ghost predicate ReportedTo(row: Row, n: Normalizers, acc: Acc, fields: seq<string>, rules: seq<string>,
                             issues: seq<Issue>) {
    && acc.rules == rules && acc.issues == issues
    && (forall f :: f in acc.normalized <==> f in fields && Yields(row, n, f))
    && (forall f :: f in acc.normalized ==> acc.normalized[f] == Answer(row, n, f).text)
  }

  lemma ReportOne(row: Row, n: Normalizers, k: nat, field: string, capitals: string, fields: seq<string>,
                  rules: seq<string>, issues: seq<Issue>)
    requires k < |FIELDS| && FIELDS[k] == field && Capitals(field, capitals)
    requires ReportedTo(row, n, AllFields(row, n, k), fields, rules, issues)
    ensures ReportedTo(row, n, AllFields(row, n, k + 1), fields + [field],
                       rules + RuleIf(row, n, field, capitals), issues + IssueIf(row, n, field))
  {
    RuleText(field, capitals);
    AllFieldsStep(row, n, k + 1);
    FieldFacts(row, n, AllFields(row, n, k), field);
    hide FIELDS, AllFields, FieldStep, Values, Answer, Yields, Changes, IssueIf, RuleName;
  }

  /** The rules named, in order. */
  function AllRules(row: Row, n: Normalizers): seq<string> {
    RuleIf(row, n, "cnpj", "CNPJ") + RuleIf(row, n, "domain", "DOMAIN")
    + RuleIf(row, n, "email", "EMAIL") + RuleIf(row, n, "phone", "PHONE")
    + RuleIf(row, n, "legal_name", "LEGAL_NAME") + RuleIf(row, n, "trade_name", "TRADE_NAME")
  }

  /** The issues of fields, in order. */
  function AllIssues(row: Row, n: Normalizers): seq<Issue> {
    IssueIf(row, n, "cnpj") + IssueIf(row, n, "domain") + IssueIf(row, n, "email") + IssueIf(row, n, "phone")
    + IssueIf(row, n, "legal_name") + IssueIf(row, n, "trade_name")
  }

  const SIX: seq<string> := ["cnpj", "domain", "email", "phone", "legal_name", "trade_name"]

  lemma FieldsAre()
    ensures FIELDS == SIX
  {
  }

  lemma ReportNone(row: Row, n: Normalizers)
    ensures ReportedTo(row, n, AllFields(row, n, 0), [], [], [])
  {
    hide FIELDS, Answer, Yields;
  }

  lemma ReportAll(row: Row, n: Normalizers)
    ensures ReportedTo(row, n, AllFields(row, n, |FIELDS|), SIX, AllRules(row, n), AllIssues(row, n))
  {
    FieldsAre();
    FirstNames();
    LastNames();
    ReportNone(row, n);
    hide AllFields, ReportedTo, RuleIf, IssueIf, Capitals;
    var r1, i1, f1 := [] + RuleIf(row, n, "cnpj", "CNPJ"), [] + IssueIf(row, n, "cnpj"), [] + ["cnpj"];
    ReportOne(row, n, 0, "cnpj", "CNPJ", [], [], []);
    var r2, i2, f2 := r1 + RuleIf(row, n, "domain", "DOMAIN"), i1 + IssueIf(row, n, "domain"), f1 + ["domain"];
    ReportOne(row, n, 1, "domain", "DOMAIN", f1, r1, i1);
    var r3, i3, f3 := r2 + RuleIf(row, n, "email", "EMAIL"), i2 + IssueIf(row, n, "email"), f2 + ["email"];
    ReportOne(row, n, 2, "email", "EMAIL", f2, r2, i2);
    var r4, i4, f4 := r3 + RuleIf(row, n, "phone", "PHONE"), i3 + IssueIf(row, n, "phone"), f3 + ["phone"];
    ReportOne(row, n, 3, "phone", "PHONE", f3, r3, i3);
    var r5, i5 := r4 + RuleIf(row, n, "legal_name", "LEGAL_NAME"), i4 + IssueIf(row, n, "legal_name");
    var f5 := f4 + ["legal_name"];
    ReportOne(row, n, 4, "legal_name", "LEGAL_NAME", f4, r4, i4);
    ReportOne(row, n, 5, "trade_name", "TRADE_NAME", f5, r5, i5);
    assert [] + RuleIf(row, n, "cnpj", "CNPJ") == RuleIf(row, n, "cnpj", "CNPJ");
    assert [] + IssueIf(row, n, "cnpj") == IssueIf(row, n, "cnpj");
    assert f5 + ["trade_name"] == SIX;
  }

  // ----- the result -----

  /** The identifier of a row: the first of these five that is normalised. */
  function Identity(row: Row, n: Normalizers): Option<(string, string)> {
    if Yields(row, n, "cnpj") then Some(("cnpj", Answer(row, n, "cnpj").text))
    else if Yields(row, n, "email") then Some(("email", Answer(row, n, "email").text))
    else if Yields(row, n, "phone") then Some(("phone", Answer(row, n, "phone").text))
    else if Yields(row, n, "domain") then Some(("domain", Answer(row, n, "domain").text))
    else if Yields(row, n, "legal_name") then Some(("legal_name", Answer(row, n, "legal_name").text))
    else None
  }

  lemma SixFields()
    ensures forall f :: f in SIX <==>
      f == "cnpj" || f == "domain" || f == "email" || f == "phone" || f == "legal_name" || f == "trade_name"
  {
    assert forall f :: f in SIX <==> exists i :: 0 <= i < 6 && SIX[i] == f;
  }

  /** The normalised fields are those that yield a text, with that text. */
  ghost predicate HoldsYields(row: Row, n: Normalizers, normalized: map<string, string>) {
    && (forall f :: f in normalized <==> f in SIX && Yields(row, n, f))
    && (forall f :: f in normalized ==> normalized[f] == Answer(row, n, f).text)
  }

  lemma HoldsField(row: Row, n: Normalizers, normalized: map<string, string>, f: string)
    requires HoldsYields(row, n, normalized) && f in SIX
    ensures f in normalized <==> Yields(row, n, f)
    ensures f in normalized ==> normalized[f] == Answer(row, n, f).text
  {
    hide SIX, Yields, Answer;
  }

  lemma NothingEmpty(row: Row, n: Normalizers, normalized: map<string, string>)
    requires HoldsYields(row, n, normalized)
    ensures forall f :: f in normalized ==> normalized[f] != ""
  {
    hide SIX, Answer;
  }

  lemma InSix()
    ensures "cnpj" in SIX && "email" in SIX && "phone" in SIX && "domain" in SIX && "legal_name" in SIX
  {
    assert SIX[0] == "cnpj" && SIX[2] == "email" && SIX[3] == "phone" && SIX[1] == "domain" && SIX[4] == "legal_name";
  }

  lemma IdentityIs(row: Row, n: Normalizers, normalized: map<string, string>)
    requires HoldsYields(row, n, normalized)
    ensures IdentityFrom(normalized, 0) == Identity(row, n)
  {
    hide HoldsYields, SIX, Yields, Answer, IdentityFrom;
    InSix();
    NothingEmpty(row, n, normalized);
    IdentityUnfolded(normalized);
    HoldsField(row, n, normalized, "cnpj");
    HoldsField(row, n, normalized, "email");
    HoldsField(row, n, normalized, "phone");
    HoldsField(row, n, normalized, "domain");
    HoldsField(row, n, normalized, "legal_name");
  }

  /**
   * One run, for every row and all normalisers. A field is normalised exactly when its first value is not
   * empty and its normaliser returns a text; a rule is named exactly for each that changed, an INVALID or
   * EMPTY issue exactly for each value that its normaliser refused, both in field order; a missing
   * identifier is an issue of its own.
   */
  lemma HygieneReport(row: Row, n: Normalizers)
    ensures var result := HygieneOf(row, n);
      && HoldsYields(row, n, result.normalized)
      && result.rules == AllRules(row, n)
      && result.identity == Identity(row, n)
      && result.issues == AllIssues(row, n)
           + if Identity(row, n).Some? then []
             else [Issue("registro", "MISSING_IDENTIFIER", "Nenhum identificador utiliz\U{E1}vel foi encontrado.")]
  {
    hide *;
    var acc := AllFields(row, n, |FIELDS|);
    ReportAll(row, n);
    ReportedAll(row, n, acc);
    Concluded(row, n);
    IdentityIs(row, n, acc.normalized);
  }

  lemma ReportedAll(row: Row, n: Normalizers, acc: Acc)
    requires ReportedTo(row, n, acc, SIX, AllRules(row, n), AllIssues(row, n))
    ensures acc.rules == AllRules(row, n) && acc.issues == AllIssues(row, n) && HoldsYields(row, n, acc.normalized)
  {
    hide SIX, AllRules, AllIssues, Yields, Answer;
  }

  lemma Concluded(row: Row, n: Normalizers)
    ensures var acc, result := AllFields(row, n, |FIELDS|), HygieneOf(row, n);
      && result.normalized == acc.normalized && result.rules == acc.rules
      && result.identity == IdentityFrom(acc.normalized, 0)
      && result.issues == acc.issues
           + if result.identity.Some? then []
             else [Issue("registro", "MISSING_IDENTIFIER", "Nenhum identificador utiliz\U{E1}vel foi encontrado.")]
  {
    hide AllFields, FIELDS, IdentityFrom;
    var acc := AllFields(row, n, |FIELDS|);
    assert acc.issues + [] == acc.issues;
  }

  ghost predicate SomeFails(row: Row, n: Normalizers) { exists f :: f in SIX && Fails(row, n, f) }

  ghost predicate SomeChanges(row: Row, n: Normalizers) { exists f :: f in SIX && Changes(row, n, f) }

  lemma RulesNamed(row: Row, n: Normalizers)
    ensures AllRules(row, n) != [] <==> SomeChanges(row, n)
  {
    SixFields();
    hide Changes, SIX;
  }

  lemma IssuesNamed(row: Row, n: Normalizers)
    ensures AllIssues(row, n) != [] <==> SomeFails(row, n)
  {
    SixFields();
    hide Fails, SIX;
  }

  /**
   * INVALID if and only if some value is refused or no identifier remains; otherwise CORRECTED if and only
   * if some field's text changed; otherwise UNCHANGED.
   */
  lemma HygieneStateExact(row: Row, n: Normalizers)
    ensures HygieneOf(row, n).state
         == if SomeFails(row, n) || Identity(row, n).None? then INVALID
            else if SomeChanges(row, n) then CORRECTED
            else UNCHANGED
  {
    HygieneReport(row, n);
    RulesNamed(row, n);
    IssuesNamed(row, n);
    StateOf(AllFields(row, n, |FIELDS|));
    hide AllFields, FIELDS, AllRules, AllIssues, Identity, IdentityFrom, Yields, Answer, SIX, SomeFails, SomeChanges;
  }

  lemma StateOf(acc: Acc)
    ensures var result := Conclude(acc);
      && (result.state == INVALID <==> result.issues != [])
      && (result.state == CORRECTED <==> result.issues == [] && result.rules != [])
      && (result.state == UNCHANGED <==> result.issues == [] && result.rules == [])
  {
    hide IdentityFrom;
  }

  // ----- names -----

  /** A text without white space is its own normal form. */
  lemma SolidName(s: string)
    requires s == [] || Solid(s)
    ensures NormalizeName(s) == s
  {
    WordsPrefix(s, [], []);
    assert s + [] == s && [] + s == s;
    assert Words([], s) == if s == [] then [] else [s];
  }

  lemma {:induction false} WordsSplit(a: string, c: char, b: string, word: string)
    requires IsSpace(Server, c)
    ensures Words(a + ([c] + b), word) == Words(a, word) + Words(b, [])
  {
    if a == [] {
      assert a + ([c] + b) == [c] + b && ([c] + b)[1..] == b;
    } else {
      assert (a + ([c] + b))[1..] == a[1..] + ([c] + b) && (a + ([c] + b))[0] == a[0];
      if IsSpace(Server, a[0]) { WordsSplit(a[1..], c, b, []); } else { WordsSplit(a[1..], c, b, word + [a[0]]); }
    }
  }

  lemma {:induction false} JoinAppend(a: seq<string>, b: seq<string>, separator: string)
    requires a != [] && b != []
    ensures Join(a + b, separator) == Join(a, separator) + (separator + Join(b, separator))
  {
    assert (a + b)[1..] == a[1..] + b && (a + b)[0] == a[0];
    if |a| > 1 {
      JoinAppend(a[1..], b, separator);
      assert a[0] + separator + (Join(a[1..], separator) + (separator + Join(b, separator)))
        == (a[0] + separator + Join(a[1..], separator)) + (separator + Join(b, separator));
    } else {
      assert a[1..] + b == b;
      assert a[0] + separator + Join(b, separator) == a[0] + (separator + Join(b, separator));
    }
  }

  /** White space between two parts becomes one blank, and none where a part is blank. */
  lemma NameParts(a: string, c: char, b: string)
    requires IsSpace(Server, c)
    ensures NormalizeName(a + ([c] + b))
         == if NormalizeName(a) == "" then NormalizeName(b)
            else if NormalizeName(b) == "" then NormalizeName(a)
            else NormalizeName(a) + (" " + NormalizeName(b))
  {
    WordsSplit(a, c, b, []);
    WordsSolid(a, []);
    WordsSolid(b, []);
    var x, y := Words(a, []), Words(b, []);
    NoWords(x);
    NoWords(y);
    assert x + [] == x && [] + y == y;
    hide Words, Join;
    if x != [] && y != [] { JoinAppend(x, y, " "); }
  }

  lemma NoWords(words: seq<string>)
    requires forall i :: 0 <= i < |words| ==> Solid(words[i])
    ensures Join(words, " ") == "" <==> words == []
  {
    WordsJoin(words);
    hide Words;
  }

  // ----- telephones -----

  /**
   * When the normal form of a telephone is a given valid national number: its digits are that number with
   * the country code, or without it if the number itself does not start with 55; and in both cases "00"
   * may stand in front.
   */
  lemma PhoneExact(x: string, national: string)
    requires ValidNational(national)
    ensures NormalizePhone(x) == Ok("+55" + national)
       <==> (var digits := OnlyDigits(x);
             || digits == "55" + national || digits == "00" + ("55" + national)
             || (!("55" <= national) && (digits == national || digits == "00" + national)))
  {
    var all := OnlyDigits(x);
    var digits := if "00" <= all then all[2..] else all;
    var rest := if "55" <= digits then digits[2..] else digits;
    assert "00" <= all ==> all == "00" + digits;
    assert "55" <= digits ==> digits == "55" + rest;
    assert ("55" + national)[2..] == national && ("00" + ("55" + national))[2..] == "55" + national;
    assert ("00" + national)[2..] == national && national[..2] != "00" && !("00" <= national);
    hide OnlyDigits, AllSame;
    PlusApart(rest, national);
  }

  lemma PlusApart(a: string, b: string)
    ensures "+55" + a == "+55" + b <==> a == b
  {
    assert ("+55" + a)[3..] == a && ("+55" + b)[3..] == b;
  }

  // ----- an example -----

  const ACME_ROW: Row := [("Empresa", "ACME   Ltda")]

  lemma AcmeHeader()
    ensures FieldOf(("Empresa", "ACME   Ltda")) == Some("legal_name")
  {
    EmpresaText();
    hide ServerHeader, BrowserHeader, SameButCase, Ascii, Normal, AliasOf;
    CaseAlike("Empresa", "empresa");
    NormalFixed("empresa");
    EmpresaAlias();
  }

  lemma EmpresaText()
    ensures SameButCase("Empresa", "empresa") && Ascii("Empresa") && Ascii("empresa") && Normal("empresa")
  {
  }

  lemma EmpresaAlias()
    ensures AliasOf("empresa") == Some("legal_name")
  {
  }

  lemma AcmeName()
    ensures NormalizeName("ACME   Ltda") == "ACME Ltda" && Trimmed(Server, "ACME   Ltda")
  {
    assert Solid("ACME") && Solid("Ltda") && IsSpace(Server, ' ');
    assert "ACME   Ltda" == "ACME" + ([' '] + ("" + ([' '] + ("" + ([' '] + "Ltda")))));
    hide NormalizeName;
    SolidName("");
    SolidName("ACME");
    SolidName("Ltda");
    NameParts("", ' ', "Ltda");
    NameParts("", ' ', "" + ([' '] + "Ltda"));
    NameParts("ACME", ' ', "" + ([' '] + ("" + ([' '] + "Ltda"))));
  }

  lemma AcmeValues(field: string)
    ensures Values(ACME_ROW, field) == if field == "legal_name" then "ACME   Ltda" else ""
  {
    AcmeHeader();
    AcmeName();
    TrimFixed(Server, "ACME   Ltda");
    assert ACME_ROW[1..] == [] && ACME_ROW[0] == ("Empresa", "ACME   Ltda");
    hide FieldOf, Trim, NormalizeName;
    assert Under([], field) == [];
  }

  /** A name with superfluous blanks is CORRECTED, and the rule is named. */
  lemma AcmeCorrected(n: Normalizers)
    ensures var result := HygieneOf(ACME_ROW, n);
      && result.state == CORRECTED && result.rules == ["NORMALIZE_LEGAL_NAME"] && result.issues == []
      && result.normalized == map["legal_name" := "ACME Ltda"] && result.identity == Some(("legal_name", "ACME Ltda"))
  {
    HygieneReport(ACME_ROW, n);
    HygieneStateExact(ACME_ROW, n);
    InSix();
    AcmeFields(n);
    AcmeLists(n);
    hide HygieneOf, Yields, Changes, Fails, SIX, ACME_ROW, Answer, AllRules, AllIssues;
    var normalized := HygieneOf(ACME_ROW, n).normalized;
    assert "legal_name" in normalized && forall f :: f in normalized ==> f == "legal_name";
    assert normalized == map["legal_name" := "ACME Ltda"];
  }

  lemma AcmeRule(n: Normalizers, f: string, capitals: string)
    ensures RuleIf(ACME_ROW, n, f, capitals) == if f == "legal_name" then ["NORMALIZE_" + capitals] else []
    ensures IssueIf(ACME_ROW, n, f) == []
  {
    AcmeField(n, f);
    hide Yields, Changes, Fails, ACME_ROW, Answer;
  }

  lemma AcmeLists(n: Normalizers)
    ensures AllRules(ACME_ROW, n) == ["NORMALIZE_LEGAL_NAME"] && AllIssues(ACME_ROW, n) == []
  {
    AcmeRule(n, "cnpj", "CNPJ");
    AcmeRule(n, "domain", "DOMAIN");
    AcmeRule(n, "email", "EMAIL");
    AcmeRule(n, "phone", "PHONE");
    AcmeRule(n, "legal_name", "LEGAL_NAME");
    AcmeRule(n, "trade_name", "TRADE_NAME");
    hide RuleIf, IssueIf, ACME_ROW;
    OnlyFifth();
  }

  lemma OnlyFifth()
    ensures "NORMALIZE_" + "LEGAL_NAME" == "NORMALIZE_LEGAL_NAME"
    ensures "cnpj" != "legal_name" && "domain" != "legal_name" && "email" != "legal_name" && "phone" != "legal_name"
    ensures "trade_name" != "legal_name"
  {
  }

  lemma AcmeFields(n: Normalizers)
    ensures forall f :: Yields(ACME_ROW, n, f) <==> f == "legal_name"
    ensures forall f :: Changes(ACME_ROW, n, f) <==> f == "legal_name"
    ensures forall f :: !Fails(ACME_ROW, n, f)
    ensures Answer(ACME_ROW, n, "legal_name") == Ok("ACME Ltda")
  {
    forall f
      ensures (Yields(ACME_ROW, n, f) <==> f == "legal_name") && (Changes(ACME_ROW, n, f) <==> f == "legal_name")
      ensures !Fails(ACME_ROW, n, f)
    {
      AcmeField(n, f);
    }
    AcmeField(n, "legal_name");
    hide Yields, Changes, Fails, Answer, ACME_ROW;
  }

  lemma AcmeField(n: Normalizers, f: string)
    ensures Yields(ACME_ROW, n, f) <==> f == "legal_name"
    ensures Changes(ACME_ROW, n, f) <==> f == "legal_name"
    ensures !Fails(ACME_ROW, n, f)
    ensures f == "legal_name" ==> Answer(ACME_ROW, n, f) == Ok("ACME Ltda")
  {
    AcmeValues(f);
    AcmeName();
    assert "ACME Ltda" != "ACME   Ltda" && "legal_name" != "cnpj" && "legal_name" != "email";
    hide Values, NormalizeName, ACME_ROW;
  }
}
