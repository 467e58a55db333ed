/**
 * The check digits of CPF and CNPJ (frontend/src/pages/Enrichment.tsx) by position instead of by weight
 * table, the reasons of a rejection, and how canonical and formatted numbers are written.
 */
module CheckDigitSums {
  import opened Text
  import opened CheckDigits

  // ----- sums by position -----

  /** The character at index i counts `top - i` times. */
  function FallingSum(s: string, top: int): int {
    if s == [] then 0 else FallingSum(s[..|s| - 1], top) + Value(s[|s| - 1]) * (top - (|s| - 1))
  }

  /** Counted from the last index, weights run 2 to 9 and start again. */
  function CyclicSum(s: string, last: int): int {
    if s == [] then 0 else CyclicSum(s[..|s| - 1], last) + Value(s[|s| - 1]) * (2 + (last - (|s| - 1)) % 8)
  }

  /** The digit that a sum asks for. */
  function DigitOf(sum: int): int { if sum % 11 < 2 then 0 else 11 - sum % 11 }

  lemma CpfWeights(i: nat)
    ensures i < 9 ==> CPF_WEIGHTS_1[i] == 10 - i
    ensures i < 10 ==> CPF_WEIGHTS_2[i] == 11 - i
  {
  }

  lemma CnpjWeightsCycle(i: nat)
    ensures i < 12 ==> CNPJ_WEIGHTS_1[i] == 2 + (11 - i) % 8
    ensures i < 13 ==> CNPJ_WEIGHTS_2[i] == 2 + (12 - i) % 8
  {
  }

  lemma {:induction false} FirstCpfSum(s: string)
    requires |s| <= 9
    ensures WeightedSum(s, CPF_WEIGHTS_1) == FallingSum(s, 10)
  {
    if s != [] {
      CpfWeights(|s| - 1);
      FirstCpfSum(s[..|s| - 1]);
    }
  }

  lemma {:induction false} SecondCpfSum(s: string)
    requires |s| <= 10
    ensures WeightedSum(s, CPF_WEIGHTS_2) == FallingSum(s, 11)
  {
    if s != [] {
      CpfWeights(|s| - 1);
      SecondCpfSum(s[..|s| - 1]);
    }
  }

  lemma {:induction false} FirstCnpjSum(s: string)
    requires |s| <= 12
    ensures WeightedSum(s, CNPJ_WEIGHTS_1) == CyclicSum(s, 11)
  {
    if s != [] {
      CnpjWeightsCycle(|s| - 1);
      FirstCnpjSum(s[..|s| - 1]);
    }
  }

  lemma {:induction false} SecondCnpjSum(s: string)
    requires |s| <= 13
    ensures WeightedSum(s, CNPJ_WEIGHTS_2) == CyclicSum(s, 12)
  {
    if s != [] {
      CnpjWeightsCycle(|s| - 1);
      SecondCnpjSum(s[..|s| - 1]);
    }
  }

  // ----- acceptance -----

  /** The first check digit of a CPF: digit i of the first nine counts 10 - i. */
  predicate FirstCpfDigit(d: string)
    requires |d| == 11
  {
    Value(d[9]) == DigitOf(FallingSum(d[..9], 10))
  }

  /** The second: digit i of the first ten counts 11 - i, so the first check digit counts 2. */
  predicate SecondCpfDigit(d: string)
    requires |d| == 11
  {
    Value(d[10]) == DigitOf(FallingSum(d[..10], 11))
  }

  /** A text is accepted as a CPF exactly when its digits are eleven, not all equal, and both digits match. */
  lemma CpfAccepted(raw: string)
    ensures var d := OnlyDigits(raw);
      PreflightCpf(raw).valid <==> |d| == 11 && !AllSame(d) && FirstCpfDigit(d) && SecondCpfDigit(d)
  {
    CpfVerdict(raw);
    var d := OnlyDigits(raw);
    if |d| == 11 {
      FirstCpfSum(d[..9]);
      SecondCpfSum(d[..10]);
    }
    hide OnlyDigits, WeightedSum, FallingSum, AllSame, PreflightCpf;
  }

  predicate FirstCnpjDigit(d: string)
    requires |d| == 14
  {
    Value(d[12]) == DigitOf(CyclicSum(d[..12], 11))
  }

  predicate SecondCnpjDigit(d: string)
    requires |d| == 14
  {
    Value(d[13]) == DigitOf(CyclicSum(d[..13], 12))
  }

  /** The same for a CNPJ: fourteen characters, the last two digits, a base that is not one character. */
  lemma CnpjAccepted(raw: string)
    ensures var d := Canonical(raw);
      PreflightCnpj(raw).valid
      <==> |d| == 14 && AllDigits(d[12..]) && !AllSame(d[..12]) && FirstCnpjDigit(d) && SecondCnpjDigit(d)
  {
    CnpjVerdict(raw);
    var d := Canonical(raw);
    CanonicalAlphabet(raw);
    if |d| == 14 {
      FirstCnpjSum(d[..12]);
      SecondCnpjSum(d[..13]);
      assert AllAlphanumeric(d[..12]);
    }
    hide Canonical, WeightedSum, CyclicSum, AllSame, PreflightCnpj, AllAlphanumeric;
  }

  lemma CanonicalAlphabet(raw: string)
    ensures AllAlphanumeric(Canonical(raw))
  {
  }

  /** A valid CPF with two check digits other than 0. */
  lemma CpfExample()
    ensures AcceptedCpf("52998224725")
  {
    var d := EXAMPLE;
    ExampleDigits();
    ExampleSum(10);
    ExampleSum(11);
    FirstCpfSum(d[..9]);
    SecondCpfSum(d[..10]);
    assert d[0] != d[1] && d == "52998224725" && AllDigits(d);
    hide WeightedSum, FallingSum, EXAMPLE;
  }

  lemma FallingNext(s: string, k: nat, top: int)
    requires k < |s|
    ensures FallingSum(s[..k + 1], top) == FallingSum(s[..k], top) + Value(s[k]) * (top - k)
  {
    assert s[..k + 1][..k] == s[..k];
  }

  const EXAMPLE := "52998224725"

  lemma ExampleDigits()
    ensures |EXAMPLE| == 11 && Value(EXAMPLE[0]) == 5 && Value(EXAMPLE[1]) == 2 && Value(EXAMPLE[2]) == 9
    ensures Value(EXAMPLE[3]) == 9 && Value(EXAMPLE[4]) == 8 && Value(EXAMPLE[5]) == 2 && Value(EXAMPLE[6]) == 2
    ensures Value(EXAMPLE[7]) == 4 && Value(EXAMPLE[8]) == 7 && Value(EXAMPLE[9]) == 2 && Value(EXAMPLE[10]) == 5
  {
  }

  lemma NoDigits(d: string, top: int)
    ensures FallingSum(d[..0], top) == 0
  {
  }

  lemma ExampleSum(top: int)
    ensures |EXAMPLE| == 11
    ensures FallingSum(EXAMPLE[..9], top)
         == 5 * top + 2 * (top - 1) + 9 * (top - 2) + 9 * (top - 3) + 8 * (top - 4) + 2 * (top - 5) + 2 * (top - 6)
            + 4 * (top - 7) + 7 * (top - 8)
    ensures FallingSum(EXAMPLE[..10], top) == FallingSum(EXAMPLE[..9], top) + 2 * (top - 9)
  {
    ExampleDigits();
    hide FallingSum, EXAMPLE, Value;
    var d := EXAMPLE;
    NoDigits(d, top);
    FallingNext(d, 0, top); FallingNext(d, 1, top); FallingNext(d, 2, top); FallingNext(d, 3, top);
    FallingNext(d, 4, top); FallingNext(d, 5, top); FallingNext(d, 6, top); FallingNext(d, 7, top);
    FallingNext(d, 8, top); FallingNext(d, 9, top);
  }

  // ----- reasons -----

  lemma CnpjDigitsAre(d: string)
    requires |d| == 14
    ensures Mod11Cnpj(d[..12], CNPJ_WEIGHTS_1) == DigitOf(CyclicSum(d[..12], 11))
    ensures FirstCnpjDigit(d) ==>
      0 <= Value(d[12]) <= 9 && d[..12] + [Digit(Value(d[12]))] == d[..13]
      && Mod11Cnpj(d[..13], CNPJ_WEIGHTS_2) == DigitOf(CyclicSum(d[..13], 12))
    ensures AllDigits(d[12..]) <==> IsDigit(d[12]) && IsDigit(d[13])
  {
    FirstCnpjSum(d[..12]);
    SecondCnpjSum(d[..13]);
    assert d[12..][0] == d[12] && d[12..][1] == d[13];
    assert d[..12] + [d[12]] == d[..13];
    hide WeightedSum, CyclicSum;
  }

  /** Which reason a rejected CNPJ is given: the first of the tests that fails, with what was expected. */
  lemma CnpjReason(raw: string)
    ensures var d := Canonical(raw);
      PreflightCnpj(raw).reason
      == if |d| != 14 then WrongLength(|d|)
         else if !IsDigit(d[12]) || !IsDigit(d[13]) then WrongAlphabet
         else if AllSame(d[..12]) then Repeated
         else if !FirstCnpjDigit(d) then FirstDigit(DigitOf(CyclicSum(d[..12], 11)), d[12])
         else if !SecondCnpjDigit(d) then SecondDigit(DigitOf(CyclicSum(d[..13], 12)), d[13])
         else NoReason
  {
    var d := Canonical(raw);
    if |d| == 14 { CnpjDigitsAre(d); }
    hide Canonical, Mod11Cnpj, CyclicSum, AllSame, DigitOf, AllDigits;
  }

  lemma CpfDigitsAre(d: string)
    requires |d| == 11
    ensures CheckDigit(Residue(d[..9], CPF_WEIGHTS_1)) == DigitOf(FallingSum(d[..9], 10))
    ensures FirstCpfDigit(d) ==>
      0 <= Value(d[9]) <= 9 && d[..9] + [Digit(Value(d[9]))] == d[..10]
      && CheckDigit(Residue(d[..10], CPF_WEIGHTS_2)) == DigitOf(FallingSum(d[..10], 11))
  {
    FirstCpfSum(d[..9]);
    SecondCpfSum(d[..10]);
    assert d[..9] + [d[9]] == d[..10];
    hide WeightedSum, FallingSum;
  }

  /** The same for a CPF. */
  lemma CpfReason(raw: string)
    ensures var d := OnlyDigits(raw);
      PreflightCpf(raw).reason
      == if |d| != 11 then WrongLength(|d|)
         else if AllSame(d) then Repeated
         else if !FirstCpfDigit(d) then FirstDigit(DigitOf(FallingSum(d[..9], 10)), d[9])
         else if !SecondCpfDigit(d) then SecondDigit(DigitOf(FallingSum(d[..10], 11)), d[10])
         else NoReason
  {
    var d := OnlyDigits(raw);
    OnlyDigitsTrim(raw);
    if |d| == 11 { CpfDigitsAre(d); }
    hide OnlyDigits, Trim, Residue, CheckDigit, FallingSum, AllSame, DigitOf;
  }

  // ----- canonical and formatted texts -----

  lemma {:induction false} BlankCanonical(s: string)
    requires Blank(Browser, s)
    ensures KeepAlphanumeric(Upper(s)) == []
  {
    if s != [] { BlankCanonical(s[1..]); }
  }

  lemma CanonicalNoTrim(s: string)
    ensures Canonical(s) == KeepAlphanumeric(Upper(s))
  {
    var i, j := TrimCut(Browser, s);
    hide Trim, Upper, KeepAlphanumeric;
    BlankCanonical(s[..i]);
    BlankCanonical(s[j..]);
    assert s == s[..i] + (s[i..j] + s[j..]);
    CanonicalAppend(s[..i], s[i..j] + s[j..]);
    CanonicalAppend(s[i..j], s[j..]);
  }

  /** A text's canonical form is that of its parts, one behind the other. */
  lemma CanonicalParts(a: string, b: string)
    ensures Canonical(a + b) == Canonical(a) + Canonical(b)
  {
    CanonicalNoTrim(a + b);
    CanonicalNoTrim(a);
    CanonicalNoTrim(b);
    CanonicalAppend(a, b);
  }

  /** Digits and capitals stay, small letters become capitals, anything else goes. */
  lemma CanonicalCharacter(c: char)
    ensures Canonical([c]) == if '0' <= c <= '9' || 'A' <= c <= 'Z' then [c]
                              else if 'a' <= c <= 'z' then [(c as int - 32) as char] else []
  {
    CanonicalNoTrim([c]);
    assert [c][1..] == [];
    var u := if 'a' <= c <= 'z' then ((c as int) - 32) as char else c;
    assert Upper([c]) == [u] && [u][1..] == [];
  }

  /** A number of fourteen characters is written 00.000.000/0000-00, any other text as it is. */
  lemma FormatLayout(d: string)
    ensures |d| != 14 ==> FormatCnpj(d) == d
    ensures |d| == 14 ==>
      var f := FormatCnpj(d);
      && |f| == 18 && f[2] == '.' && f[6] == '.' && f[10] == '/' && f[15] == '-'
      && f[..2] == d[..2] && f[3..6] == d[2..5] && f[7..10] == d[5..8] && f[11..15] == d[8..12] && f[16..] == d[12..]
  {
  }
}
