/**
 * Row hygiene (src/leadstream/batches/hygiene.py): headers mapped to canonical fields, six fields
 * normalised, an identity chosen. E-mail and domain normalisers are parameters; names, CNPJ and
 * telephone are those of the repository (src/leadstream/entities/normalization.py).
 */
module Hygiene {
  import opened Text
  import opened HeaderForms
  import opened CheckDigits

  type Row = seq<(string, string)>

  /** A normaliser's result, or the DataValidationError it raises. */
  datatype NormalizerResult = Ok(text: string) | Raised(message: string)

  datatype Issue = Issue(field: string, code: string, message: string)

  datatype HygieneState = INVALID | CORRECTED | UNCHANGED

  /** `identity` is the value whose hash is the fingerprint; without one the fingerprint is empty. */
  datatype HygieneResult = HygieneResult(
    normalized: map<string, string>, state: HygieneState, rules: seq<string>, issues: seq<Issue>,
    identity: Option<(string, string)>)

  datatype Normalizers = Normalizers(cnpj: string -> NormalizerResult, domain: string -> NormalizerResult,
                                     email: string -> NormalizerResult, phone: string -> NormalizerResult)

  const FIELDS: seq<string> := ["cnpj", "domain", "email", "phone", "legal_name", "trade_name"]
  const IDENTITY_FIELDS: seq<string> := ["cnpj", "email", "phone", "domain", "legal_name"]

  function AliasOf(header: string): Option<string> {
    match header
    case "cnpj" => Some("cnpj")
    case "documento" => Some("cnpj")
    case "razao_social" => Some("legal_name")
    case "nome_empresa" => Some("legal_name")
    case "empresa" => Some("legal_name")
    case "legal_name" => Some("legal_name")
    case "nome_fantasia" => Some("trade_name")
    case "dominio" => Some("domain")
    case "site" => Some("domain")
    case "website" => Some("domain")
    case "email" => Some("email")
    case "e_mail" => Some("email")
    case "telefone" => Some("phone")
    case "celular" => Some("phone")
    case "whatsapp" => Some("phone")
    case "phone" => Some("phone")
    case _ => None
  }

  function FieldOf(column: (string, string)): Option<string> { AliasOf(ServerHeader(column.0)) }

  // ----- canonical headers -----

  /** The values standing under one field, in column order. */
  function Under(row: Row, field: string): seq<string> {
    if row == [] then []
    else (if FieldOf(row[0]) == Some(field) then [Trim(Server, row[0].1)] else []) + Under(row[1..], field)
  }

  function Values(row: Row, field: string): string {
    if Under(row, field) == [] then "" else Under(row, field)[0]
  }

  lemma {:induction false} UnderAppend(a: Row, b: Row, field: string)
    ensures Under(a + b, field) == Under(a, field) + Under(b, field)
  {
    hide FieldOf, Trim;
    if a == [] {
      assert a + b == b;
    } else {
      assert (a + b)[1..] == a[1..] + b && (a + b)[0] == a[0];
      UnderAppend(a[1..], b, field);
    }
  }

  lemma UnderNext(row: Row, i: nat, field: string)
    requires i < |row|
    ensures Under(row[..i + 1], field)
         == Under(row[..i], field) + if FieldOf(row[i]) == Some(field) then [Trim(Server, row[i].1)] else []
  {
    hide FieldOf, Trim;
    assert row[..i + 1] == row[..i] + [row[i]];
    UnderAppend(row[..i], [row[i]], field);
    assert [row[i]][1..] == [];
  }

  /** `canonicalize_headers`: the first column of a field wins. */
  method CanonicalizeHeaders(row: Row) returns (result: map<string, string>)
    ensures forall field :: field in result <==> Under(row, field) != []
    ensures forall field :: field in result ==> result[field] == Under(row, field)[0]
  {
    result := map[];
    hide FieldOf, Trim;
    for i := 0 to |row|
      invariant forall field :: field in result <==> Under(row[..i], field) != []
      invariant forall field :: field in result ==> result[field] == Under(row[..i], field)[0]
    {
      forall field
        ensures Under(row[..i + 1], field)
             == Under(row[..i], field) + if FieldOf(row[i]) == Some(field) then [Trim(Server, row[i].1)] else []
      {
        UnderNext(row, i, field);
      }
      var canonical := FieldOf(row[i]);
      if canonical.Some? && canonical.value !in result {
        result := result[canonical.value := Trim(Server, row[i].1)];
      }
    }
    assert row[..|row|] == row;
  }

  // ----- names -----

  /** `value.split()` */
  function Words(s: string, word: string): seq<string> {
    if s == [] then (if word == [] then [] else [word])
    else if IsSpace(Server, s[0]) then (if word == [] then [] else [word]) + Words(s[1..], [])
    else Words(s[1..], word + [s[0]])
  }

  function NormalizeName(value: string): string { Join(Words(value, []), " ") }

  predicate Solid(s: string) { s != [] && forall i :: 0 <= i < |s| ==> !IsSpace(Server, s[i]) }

  lemma {:induction false} WordsSolid(s: string, word: string)
    requires word == [] || Solid(word)
    ensures forall i :: 0 <= i < |Words(s, word)| ==> Solid(Words(s, word)[i])
  {
    if s != [] {
      if IsSpace(Server, s[0]) { WordsSolid(s[1..], []); } else { WordsSolid(s[1..], word + [s[0]]); }
    }
  }

  lemma {:induction false} WordsPrefix(a: string, rest: string, word: string)
    requires forall i :: 0 <= i < |a| ==> !IsSpace(Server, a[i])
    ensures Words(a + rest, word) == Words(rest, word + a)
  {
    if a == [] {
      assert a + rest == rest && word + a == word;
    } else {
      assert (a + rest)[1..] == a[1..] + rest && (a + rest)[0] == a[0];
      WordsPrefix(a[1..], rest, word + [a[0]]);
      assert word + [a[0]] + a[1..] == word + a;
    }
  }

  lemma {:induction false} WordsJoin(words: seq<string>)
    requires forall i :: 0 <= i < |words| ==> Solid(words[i])
    ensures Words(Join(words, " "), []) == words
    ensures Trimmed(Server, Join(words, " "))
        && (words != [] ==> Join(words, " ") != [] && Join(words, " ")[0] == words[0][0])
  {
    if |words| == 1 {
      WordsPrefix(words[0], [], []);
      assert words[0] + [] == words[0] && [] + words[0] == words[0];
    } else if |words| > 1 {
      var rest := Join(words[1..], " ");
      WordsJoin(words[1..]);
      assert words[0] + " " + rest == words[0] + (" " + rest);
      WordsPrefix(words[0], " " + rest, []);
      assert (" " + rest)[1..] == rest && [] + words[0] == words[0];
      assert Join(words, " ")[|Join(words, " ")| - 1] == rest[|rest| - 1];
    }
  }

  /** A normaliser whose results are trimmed and its own fixed points. */
  ghost predicate Settles(normalizer: string -> NormalizerResult) {
    forall x :: normalizer(x).Ok? && normalizer(x).text != "" ==>
      Trimmed(Server, normalizer(x).text) && normalizer(normalizer(x).text) == normalizer(x)
  }

  lemma NameSettles(value: string)
    ensures Trimmed(Server, NormalizeName(value)) && NormalizeName(NormalizeName(value)) == NormalizeName(value)
  {
    WordsSolid(value, []);
    WordsJoin(Words(value, []));
  }

  // ----- CNPJ and telephone -----

  function NormalizeCnpj(value: string): NormalizerResult {
    var digits := ServerCnpj(value);
    if digits.None? then Raised("CNPJ inv\U{E1}lido.") else Ok(digits.value)
  }

  function NormalizePhone(value: string): NormalizerResult {
    var all := OnlyDigits(value);
    var digits := if "00" <= all then all[2..] else all;
    var national := if "55" <= digits then digits[2..] else digits;
    if |national| !in {10, 11} || national[..2] == "00" || national[2] == '0' || AllSame(national)
    then Raised("Telefone brasileiro inv\U{E1}lido.")
    else Ok("+55" + national)
  }

  lemma DigitsTrimmed(s: string)
    requires s != [] && !IsSpace(Server, s[0]) && IsDigit(s[|s| - 1])
    ensures Trimmed(Server, s)
  {
  }

  lemma CnpjSettles()
    ensures Settles(NormalizeCnpj)
  {
    forall x | NormalizeCnpj(x).Ok?
      ensures Trimmed(Server, NormalizeCnpj(x).text) && NormalizeCnpj(NormalizeCnpj(x).text) == NormalizeCnpj(x)
    {
      var d := NormalizeCnpj(x).text;
      assert d == OnlyDigits(x) && |d| == 14 && AllDigits(d);
      OnlyDigitsFixed(d);
      DigitsTrimmed(d);
    }
  }

  lemma PhoneDigits(national: string)
    requires AllDigits(national)
    ensures OnlyDigits("+55" + national) == "55" + national
  {
    assert ("+55" + national)[1..] == "55" + national && AllDigits("55" + national);
    OnlyDigitsFixed("55" + national);
  }

  predicate ValidNational(national: string) {
    && |national| in {10, 11} && national[..2] != "00" && national[2] != '0'
    && !AllSame(national) && AllDigits(national)
  }

  lemma PhoneText(x: string) returns (national: string)
    requires NormalizePhone(x).Ok?
    ensures ValidNational(national) && NormalizePhone(x) == Ok("+55" + national)
  {
    var all := OnlyDigits(x);
    var digits := if "00" <= all then all[2..] else all;
    national := if "55" <= digits then digits[2..] else digits;
  }

  lemma PhoneAgain(national: string)
    requires ValidNational(national)
    ensures NormalizePhone("+55" + national) == Ok("+55" + national) && Trimmed(Server, "+55" + national)
  {
    PhoneDigits(national);
    var digits := "55" + national;
    assert digits[0] == '5' && "55" <= digits && digits[2..] == national;
    var y := "+55" + national;
    assert y[|y| - 1] == national[|national| - 1];
    DigitsTrimmed(y);
  }

  lemma PhoneSettles()
    ensures Settles(NormalizePhone)
  {
    forall x | NormalizePhone(x).Ok?
      ensures Trimmed(Server, NormalizePhone(x).text) && NormalizePhone(NormalizePhone(x).text) == NormalizePhone(x)
    {
      var national := PhoneText(x);
      hide NormalizePhone;
      PhoneAgain(national);
    }
  }

  // ----- one row -----

  function Normalizer(n: Normalizers, field: string, original: string): NormalizerResult {
    match field
    case "cnpj" => n.cnpj(original)
    case "domain" => n.domain(original)
    case "email" => n.email(original)
    case "phone" => n.phone(original)
    case _ => Ok(NormalizeName(original))
  }

  datatype Acc = Acc(normalized: map<string, string>, rules: seq<string>, issues: seq<Issue>)

  function RuleName(field: string): string { "NORMALIZE_" + Upper(field) }

  function FieldStep(acc: Acc, n: Normalizers, field: string, original: string): Acc {
    if original == "" then acc
    else
      match Normalizer(n, field, original)
      case Raised(message) => acc.(issues := acc.issues + [Issue(field, "INVALID", message)])
      case Ok(text) =>
        if text == "" then acc.(issues := acc.issues + [Issue(field, "EMPTY", "Valor vazio.")])
        else acc.(normalized := acc.normalized[field := text],
                  rules := if text != original then acc.rules + [RuleName(field)] else acc.rules)
  }

  function AllFields(row: Row, n: Normalizers, k: nat): Acc
    requires k <= |FIELDS|
  {
    if k == 0 then Acc(map[], [], [])
    else FieldStep(AllFields(row, n, k - 1), n, FIELDS[k - 1], Values(row, FIELDS[k - 1]))
  }

  function IdentityFrom(normalized: map<string, string>, k: nat): Option<(string, string)>
    requires k <= |IDENTITY_FIELDS|
    decreases |IDENTITY_FIELDS| - k
  {
    if k == |IDENTITY_FIELDS| then None
    else if IDENTITY_FIELDS[k] in normalized && normalized[IDENTITY_FIELDS[k]] != "" then
      Some((IDENTITY_FIELDS[k], normalized[IDENTITY_FIELDS[k]]))
    else IdentityFrom(normalized, k + 1)
  }

  const MISSING := Issue("registro", "MISSING_IDENTIFIER", "Nenhum identificador utiliz\U{E1}vel foi encontrado.")

  function Conclude(acc: Acc): HygieneResult {
    var identity := IdentityFrom(acc.normalized, 0);
    var issues := if identity.None? then acc.issues + [MISSING] else acc.issues;
    HygieneResult(acc.normalized,
                  if issues != [] then INVALID else if acc.rules != [] then CORRECTED else UNCHANGED,
                  acc.rules, issues, identity)
  }

  function HygieneOf(row: Row, n: Normalizers): HygieneResult {
    Conclude(AllFields(row, n, |FIELDS|))
  }

  /** `normalize_row`. */
  method NormalizeRow(row: Row, n: Normalizers) returns (result: HygieneResult)
    ensures result == HygieneOf(row, n)
  {
    var values := CanonicalizeHeaders(row);
    var normalized: map<string, string>, rules: seq<string>, issues: seq<Issue> := map[], [], [];
    hide Under, Normalizer, RuleName, IdentityFrom;
    for k := 0 to |FIELDS|
      invariant Acc(normalized, rules, issues) == AllFields(row, n, k)
    {
      var field := FIELDS[k];
      var original := if field in values then values[field] else "";
      if original == "" { continue; }
      match Normalizer(n, field, original)
      case Raised(message) => issues := issues + [Issue(field, "INVALID", message)];
      case Ok(text) =>
        if text == "" {
          issues := issues + [Issue(field, "EMPTY", "Valor vazio.")];
        } else {
          normalized := normalized[field := text];
          if text != original { rules := rules + [RuleName(field)]; }
        }
    }
    var identity := IdentityFrom(normalized, 0);
    if identity.None? { issues := issues + [MISSING]; }
    var state := if issues != [] then INVALID else if rules != [] then CORRECTED else UNCHANGED;
    result := HygieneResult(normalized, state, rules, issues, identity);
  }
}
