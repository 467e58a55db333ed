/**
 * Modulo-11 check digits of CPF and of alphanumeric CNPJ (frontend/src/pages/Enrichment.tsx), the
 * exact set of single-character errors and neighbour swaps they let through, and the server's CNPJ
 * rule (src/leadstream/entities/normalization.py) beside the browser's.
 */
module CheckDigits {
  import opened Text

  const CPF_WEIGHTS_1: seq<int> := [10, 9, 8, 7, 6, 5, 4, 3, 2]
  const CPF_WEIGHTS_2: seq<int> := [11, 10, 9, 8, 7, 6, 5, 4, 3, 2]
  const CNPJ_WEIGHTS_1: seq<int> := [5, 4, 3, 2, 9, 8, 7, 6, 5, 4, 3, 2]
  const CNPJ_WEIGHTS_2: seq<int> := [6, 5, 4, 3, 2, 9, 8, 7, 6, 5, 4, 3, 2]

  /** `charCodeAt(0) - 48`, and `Number` on digits. */
  function Value(c: char): int { c as int - 48 }

  function Digit(n: int): char
    requires 0 <= n <= 9
  {
    (n + 48) as char
  }

  function WeightedSum(s: string, weights: seq<int>): int
    requires |s| <= |weights|
  {
    if s == [] then 0
    else WeightedSum(s[..|s| - 1], weights) + Value(s[|s| - 1]) * weights[|s| - 1]
  }

  function Residue(s: string, weights: seq<int>): (r: int)
    requires |s| <= |weights|
    ensures 0 <= r < 11
  {
    WeightedSum(s, weights) % 11
  }

  /** Remainders 0 and 1 both give 0. */
  function CheckDigit(residue: int): (d: int)
    requires 0 <= residue < 11
    ensures 0 <= d <= 9
    ensures d != 0 ==> (residue + d) % 11 == 0
    ensures d == 0 <==> residue < 2
  {
    if residue < 2 then 0 else 11 - residue
  }

  predicate AllDigits(s: string) { forall i :: 0 <= i < |s| ==> IsDigit(s[i]) }

  predicate IsAlphanumeric(c: char) { IsDigit(c) || 'A' <= c <= 'Z' }

  predicate AllAlphanumeric(s: string) { forall i :: 0 <= i < |s| ==> IsAlphanumeric(s[i]) }

  predicate AllSame(s: string) { forall i :: 0 <= i < |s| ==> s[i] == s[0] }

  datatype Reason =
    | NoReason
    | WrongLength(length: nat)
    | WrongAlphabet
    | Repeated
    | FirstDigit(expected: int, found: char)
    | SecondDigit(expected: int, found: char)

  datatype Verdict = Verdict(digits: string, valid: bool, reason: Reason)

  // ----- CPF -----

  function OnlyDigits(s: string): (r: string)
    ensures AllDigits(r)
  {
    if s == [] then [] else (if IsDigit(s[0]) then [s[0]] else []) + OnlyDigits(s[1..])
  }

  function PreflightCpf(raw: string): Verdict {
    var digits := OnlyDigits(Trim(Browser, raw));
    if |digits| != 11 then Verdict(digits, false, WrongLength(|digits|))
    else if AllSame(digits) then Verdict(digits, false, Repeated)
    else
      var dv1 := CheckDigit(Residue(digits[..9], CPF_WEIGHTS_1));
      if dv1 != Value(digits[9]) then Verdict(digits, false, FirstDigit(dv1, digits[9]))
      else
        var dv2 := CheckDigit(Residue(digits[..9] + [Digit(dv1)], CPF_WEIGHTS_2));
        if dv2 != Value(digits[10]) then Verdict(digits, false, SecondDigit(dv2, digits[10]))
        else Verdict(digits, true, NoReason)
  }

  predicate CpfDigitsMatch(d: string)
    requires |d| == 11
  {
    && CheckDigit(Residue(d[..9], CPF_WEIGHTS_1)) == Value(d[9])
    && CheckDigit(Residue(d[..10], CPF_WEIGHTS_2)) == Value(d[10])
  }

  /** Eleven digits, not all equal, both check digits those of the digits before them. */
  predicate AcceptedCpf(d: string) {
    |d| == 11 && AllDigits(d) && !AllSame(d) && CpfDigitsMatch(d)
  }

  lemma {:induction false} OnlyDigitsAppend(a: string, b: string)
    ensures OnlyDigits(a + b) == OnlyDigits(a) + OnlyDigits(b)
  {
    if a == [] {
      assert a + b == b;
    } else {
      assert (a + b)[1..] == a[1..] + b && (a + b)[0] == a[0];
      OnlyDigitsAppend(a[1..], b);
    }
  }

  lemma {:induction false} BlankHasNoDigits(s: string)
    requires Blank(Browser, s)
    ensures OnlyDigits(s) == []
  {
    if s != [] { BlankHasNoDigits(s[1..]); }
  }

  /** Trimming takes no digit away. */
  lemma OnlyDigitsTrim(s: string)
    ensures OnlyDigits(Trim(Browser, s)) == OnlyDigits(s)
  {
    var i, j := TrimCut(Browser, s);
    hide Trim;
    BlankHasNoDigits(s[..i]);
    BlankHasNoDigits(s[j..]);
    assert s == s[..i] + (s[i..j] + s[j..]);
    OnlyDigitsAppend(s[..i], s[i..j] + s[j..]);
    OnlyDigitsAppend(s[i..j], s[j..]);
  }

  /** The verdict is about the digits of the text, all of them, and names a reason when it is negative. */
  lemma CpfVerdict(raw: string)
    ensures PreflightCpf(raw).digits == OnlyDigits(raw)
    ensures PreflightCpf(raw).valid <==> AcceptedCpf(OnlyDigits(raw))
    ensures PreflightCpf(raw).valid <==> PreflightCpf(raw).reason == NoReason
  {
    var digits := OnlyDigits(raw);
    OnlyDigitsTrim(raw);
    hide OnlyDigits, Trim, WeightedSum;
    if |digits| == 11 && Value(digits[9]) == CheckDigit(Residue(digits[..9], CPF_WEIGHTS_1)) {
      assert digits[..9] + [digits[9]] == digits[..10];
    }
  }

  // ----- sums under small changes -----

  lemma {:induction false} SumUpdate(s: string, weights: seq<int>, i: nat, c: char)
    requires i < |s| <= |weights|
    ensures WeightedSum(s[i := c], weights) == WeightedSum(s, weights) + (Value(c) - Value(s[i])) * weights[i]
  {
    var n := |s| - 1;
    if i == n {
      assert s[i := c][..n] == s[..n];
      assert Value(c) * weights[i] - Value(s[i]) * weights[i] == (Value(c) - Value(s[i])) * weights[i];
    } else {
      SumUpdate(s[..n], weights, i, c);
      assert s[i := c][..n] == s[..n][i := c];
    }
  }

  /** Two sums have the same check digit when they are congruent, or are 0 and 1 modulo 11. */
  lemma SameDigit(s: int, k: int)
    ensures CheckDigit(s % 11) == CheckDigit((s + k) % 11)
       <==> k % 11 == 0 || (s % 11 == 0 && k % 11 == 1) || (s % 11 == 1 && k % 11 == 10)
  {
    assert (s + k) % 11 == (s % 11 + k % 11) % 11;
  }

  /** When a change of `delta` under the weight pair (w, v) leaves both check digits as they are. */
  predicate Unseen(r1: int, r2: int, k1: int, k2: int) {
    && (k1 % 11 == 0 || (r1 == 0 && k1 % 11 == 1) || (r1 == 1 && k1 % 11 == 10))
    && (k2 % 11 == 0 || (r2 == 0 && k2 % 11 == 1) || (r2 == 1 && k2 % 11 == 10))
  }

  /** Weights (5, 6): unseen only if the residues are 0 and 1, one each, and delta is 9 or 2 modulo 11. */
  predicate FiveSix(r1: int, r2: int, delta: int) {
    || delta % 11 == 0
    || (r1 == 0 && r2 == 1 && delta % 11 == 9)
    || (r1 == 1 && r2 == 0 && delta % 11 == 2)
  }

  lemma UnseenConsecutive(w: int, r1: int, r2: int, delta: int)
    requires 2 <= w <= 10
    ensures Unseen(r1, r2, delta * w, delta * (w + 1))
       <==> delta % 11 == 0
            || (w == 5 && FiveSix(r1, r2, delta))
            || (w == 10 && ((r1 == 0 && delta % 11 == 10) || (r1 == 1 && delta % 11 == 1)))
  {
    var m, q := delta % 11, delta / 11;
    MultipleOfEleven(q, m, w);
    MultipleOfEleven(q, m, w + 1);
    ConsecutiveTable(w, m, r1, r2);
  }

  lemma ConsecutiveTable(w: int, m: int, r1: int, r2: int)
    requires 2 <= w <= 10 && 0 <= m < 11
    ensures Unseen(r1, r2, m * w, m * (w + 1))
       <==> m == 0 || (w == 5 && FiveSix(r1, r2, m)) || (w == 10 && ((r1 == 0 && m == 10) || (r1 == 1 && m == 1)))
  {
    assert m in {0, 1, 2, 3, 4, 5, 6, 7, 8, 9, 10};
    assert w in {2, 3, 4, 5, 6, 7, 8, 9, 10};
  }

  lemma MultipleOfEleven(q: int, m: int, v: int)
    ensures ((11 * q + m) * v) % 11 == (m * v) % 11
  {
    assert (11 * q + m) * v == m * v + 11 * (q * v);
    ModAddMultiple(m * v, q * v);
  }

  lemma ModAddMultiple(a: int, b: int)
    ensures (a + 11 * b) % 11 == a % 11
  {
  }

  lemma UnseenNineTwo(r1: int, r2: int, delta: int)
    ensures Unseen(r1, r2, delta * 9, delta * 2)
       <==> delta % 11 == 0 || (r1 == 0 && r2 == 1 && delta % 11 == 5) || (r1 == 1 && r2 == 0 && delta % 11 == 6)
  {
    var m, q := delta % 11, delta / 11;
    MultipleOfEleven(q, m, 9);
    MultipleOfEleven(q, m, 2);
    assert m in {0, 1, 2, 3, 4, 5, 6, 7, 8, 9, 10};
  }

  // ----- CPF: which errors are let through -----

  function CpfR1(d: string): int
    requires |d| == 11
  {
    Residue(d[..9], CPF_WEIGHTS_1)
  }

  function CpfR2(d: string): int
    requires |d| == 11
  {
    Residue(d[..10], CPF_WEIGHTS_2)
  }

  lemma CpfSums(d: string, i: nat, c: char)
    requires |d| == 11 && i < 9
    ensures var delta := Value(c) - Value(d[i]);
      && WeightedSum(d[i := c][..9], CPF_WEIGHTS_1) == WeightedSum(d[..9], CPF_WEIGHTS_1) + delta * (10 - i)
      && WeightedSum(d[i := c][..10], CPF_WEIGHTS_2) == WeightedSum(d[..10], CPF_WEIGHTS_2) + delta * (11 - i)
  {
    assert d[i := c][..9] == d[..9][i := c] && d[i := c][..10] == d[..10][i := c];
    SumUpdate(d[..9], CPF_WEIGHTS_1, i, c);
    SumUpdate(d[..10], CPF_WEIGHTS_2, i, c);
    assert CPF_WEIGHTS_1[i] == 10 - i && CPF_WEIGHTS_2[i] == 11 - i;
  }

  /** The one-digit errors an accepted CPF does not reveal, from its digits and residues. */
  predicate CpfSlips(a: string, i: nat, c: char)
    requires |a| == 11 && i < 11
  {
    var r1, r2, delta := CpfR1(a), CpfR2(a), Value(c) - Value(a[i]);
    || (i == 0 && ((r1 == 1 && delta == 1) || (r1 == 0 && delta == -1)))
    || (i == 5 && ((r1 == 0 && r2 == 1 && delta in {9, -2}) || (r1 == 1 && r2 == 0 && delta in {-9, 2})))
  }

  /** A one-digit error in an accepted CPF goes unnoticed if and only if it is one of these. */
  lemma CpfSingleErrors(a: string, i: nat, c: char)
    requires AcceptedCpf(a) && i < 11 && c != a[i]
    ensures AcceptedCpf(a[i := c]) <==> IsDigit(c) && !AllSame(a[i := c]) && CpfSlips(a, i, c)
  {
    var b := a[i := c];
    assert b[i] == c;
    if IsDigit(c) && !AllSame(b) { CpfSlipsExact(a, i, c); }
  }

  lemma CpfUnseen(a: string, i: nat, c: char)
    requires AcceptedCpf(a) && i < 9 && IsDigit(c) && !AllSame(a[i := c])
    ensures var delta := Value(c) - Value(a[i]);
      AcceptedCpf(a[i := c]) <==> Unseen(CpfR1(a), CpfR2(a), delta * (10 - i), delta * (11 - i))
  {
    var b, delta := a[i := c], Value(c) - Value(a[i]);
    CpfSums(a, i, c);
    var s1, s2 := WeightedSum(a[..9], CPF_WEIGHTS_1), WeightedSum(a[..10], CPF_WEIGHTS_2);
    hide WeightedSum, AllSame;
    SameDigit(s1, delta * (10 - i));
    SameDigit(s2, delta * (11 - i));
    assert b[9] == a[9] && b[10] == a[10];
  }

  lemma CpfSlipsExact(a: string, i: nat, c: char)
    requires AcceptedCpf(a) && i < 11 && IsDigit(c) && c != a[i] && !AllSame(a[i := c])
    ensures AcceptedCpf(a[i := c]) <==> CpfSlips(a, i, c)
  {
    var b, delta := a[i := c], Value(c) - Value(a[i]);
    assert AllDigits(b) && delta != 0 && -9 <= delta <= 9;
    if i < 9 {
      CpfUnseen(a, i, c);
      UnseenConsecutive(10 - i, CpfR1(a), CpfR2(a), delta);
      hide AcceptedCpf, CpfR1, CpfR2, Unseen, AllSame, AllDigits;
    } else if i == 9 {
      assert b[..9] == a[..9];
    } else {
      assert b[..10] == a[..10] && b[..9] == a[..9];
    }
  }

  /** So two accepted CPFs that differ in one place differ in digit 0 by 1 or in digit 5 by 2 or 9. */
  lemma CpfDistance(a: string, b: string, i: nat)
    requires AcceptedCpf(a) && AcceptedCpf(b) && i < 11 && b[i] != a[i] && b == a[i := b[i]]
    ensures var delta := Value(b[i]) - Value(a[i]);
      (i == 0 && delta in {1, -1}) || (i == 5 && delta in {2, -2, 9, -9})
  {
    CpfSingleErrors(a, i, b[i]);
  }

  function Swapped(d: string, i: nat): string
    requires i + 1 < |d|
  {
    d[i := d[i + 1]][i + 1 := d[i]]
  }

  /** Swapping unequal neighbours of the base goes unnoticed only if they differ by exactly 1. */
  lemma CpfSwaps(a: string, i: nat)
    requires AcceptedCpf(a) && i < 8 && a[i] != a[i + 1]
    ensures var delta := Value(a[i + 1]) - Value(a[i]);
      AcceptedCpf(Swapped(a, i))
      <==> (delta == 1 && CpfR1(a) == 0 && CpfR2(a) == 0) || (delta == -1 && CpfR1(a) == 1 && CpfR2(a) == 1)
  {
    var b, delta := Swapped(a, i), Value(a[i + 1]) - Value(a[i]);
    SwapSums(a, i);
    var s1, s2 := WeightedSum(a[..9], CPF_WEIGHTS_1), WeightedSum(a[..10], CPF_WEIGHTS_2);
    SwapKeeps(a, i);
    hide WeightedSum, AllSame, AllDigits, Swapped;
    SameDigit(s1, delta);
    SameDigit(s2, delta);
  }

  /** A swap changes each weighted sum by the difference of the two digits. */
  lemma SwapSums(a: string, i: nat)
    requires |a| == 11 && i < 8
    ensures var delta := Value(a[i + 1]) - Value(a[i]);
      && WeightedSum(Swapped(a, i)[..9], CPF_WEIGHTS_1) == WeightedSum(a[..9], CPF_WEIGHTS_1) + delta
      && WeightedSum(Swapped(a, i)[..10], CPF_WEIGHTS_2) == WeightedSum(a[..10], CPF_WEIGHTS_2) + delta
  {
    var m, delta := a[i := a[i + 1]], Value(a[i + 1]) - Value(a[i]);
    CpfSums(a, i, a[i + 1]);
    CpfSums(m, i + 1, a[i]);
    assert Swapped(a, i) == m[i + 1 := a[i]] && m[i + 1] == a[i + 1];
    hide WeightedSum, Swapped;
    assert delta * (10 - i) + (-delta) * (10 - (i + 1)) == delta;
    assert delta * (11 - i) + (-delta) * (11 - (i + 1)) == delta;
  }

  lemma SwapKeeps(a: string, i: nat)
    requires |a| == 11 && i < 8 && a[i] != a[i + 1] && AllDigits(a)
    ensures var b := Swapped(a, i); |b| == 11 && AllDigits(b) && !AllSame(b) && b[9] == a[9] && b[10] == a[10]
  {
    var b := Swapped(a, i);
    assert b[i] != b[i + 1];
  }

  // ----- CNPJ -----

  function Upper(s: string): string {
    if s == [] then []
    else [if 'a' <= s[0] <= 'z' then ((s[0] as int) - 32) as char else s[0]] + Upper(s[1..])
  }

  function KeepAlphanumeric(s: string): (r: string)
    ensures AllAlphanumeric(r)
  {
    if s == [] then [] else (if IsAlphanumeric(s[0]) then [s[0]] else []) + KeepAlphanumeric(s[1..])
  }

  function Canonical(raw: string): string { KeepAlphanumeric(Upper(Trim(Browser, raw))) }

  function Mod11Cnpj(characters: string, weights: seq<int>): int
    requires |characters| <= |weights|
  {
    CheckDigit(Residue(characters, weights))
  }

  function PreflightCnpj(raw: string): Verdict {
    var digits := Canonical(raw);
    if |digits| != 14 then Verdict(digits, false, WrongLength(|digits|))
    else if !AllDigits(digits[12..]) then Verdict(digits, false, WrongAlphabet)
    else if AllSame(digits[..12]) then Verdict(digits, false, Repeated)
    else
      var dv1 := Mod11Cnpj(digits[..12], CNPJ_WEIGHTS_1);
      if dv1 != Value(digits[12]) then Verdict(digits, false, FirstDigit(dv1, digits[12]))
      else
        var dv2 := Mod11Cnpj(digits[..12] + [Digit(dv1)], CNPJ_WEIGHTS_2);
        if dv2 != Value(digits[13]) then Verdict(digits, false, SecondDigit(dv2, digits[13]))
        else Verdict(digits, true, NoReason)
  }

  predicate CnpjDigitsMatch(d: string)
    requires |d| == 14
  {
    && CheckDigit(Residue(d[..12], CNPJ_WEIGHTS_1)) == Value(d[12])
    && CheckDigit(Residue(d[..13], CNPJ_WEIGHTS_2)) == Value(d[13])
  }

  predicate AcceptedCnpj(d: string) {
    |d| == 14 && AllAlphanumeric(d[..12]) && AllDigits(d[12..]) && !AllSame(d[..12]) && CnpjDigitsMatch(d)
  }

  lemma CnpjVerdict(raw: string)
    ensures PreflightCnpj(raw).digits == Canonical(raw)
    ensures PreflightCnpj(raw).valid <==> AcceptedCnpj(Canonical(raw))
    ensures PreflightCnpj(raw).valid <==> PreflightCnpj(raw).reason == NoReason
  {
    var d := Canonical(raw);
    if |d| == 14 {
      assert d[12..][0] == d[12] && d[12..][1] == d[13];
      if Value(d[12]) == CheckDigit(Residue(d[..12], CNPJ_WEIGHTS_1)) { assert d[..12] + [d[12]] == d[..13]; }
    }
  }

  /** Every base has exactly one pair of check digits. */
  lemma CnpjDigitsUnique(base: string, p: char, q: char)
    requires |base| == 12 && AllAlphanumeric(base) && !AllSame(base)
    ensures AcceptedCnpj(base + [p, q])
       <==> p == Digit(Mod11Cnpj(base, CNPJ_WEIGHTS_1)) && q == Digit(Mod11Cnpj(base + [p], CNPJ_WEIGHTS_2))
  {
    var d := base + [p, q];
    assert d[..12] == base && d[..13] == base + [p] && d[12..] == [p, q];
    hide WeightedSum;
  }

  lemma CnpjSums(d: string, i: nat, c: char)
    requires |d| == 14 && i < 12
    ensures var delta := Value(c) - Value(d[i]);
      && WeightedSum(d[i := c][..12], CNPJ_WEIGHTS_1) == WeightedSum(d[..12], CNPJ_WEIGHTS_1)
          + delta * CNPJ_WEIGHTS_1[i]
      && WeightedSum(d[i := c][..13], CNPJ_WEIGHTS_2) == WeightedSum(d[..13], CNPJ_WEIGHTS_2)
          + delta * CNPJ_WEIGHTS_2[i]
  {
    assert d[i := c][..12] == d[..12][i := c] && d[i := c][..13] == d[..13][i := c];
    SumUpdate(d[..12], CNPJ_WEIGHTS_1, i, c);
    SumUpdate(d[..13], CNPJ_WEIGHTS_2, i, c);
  }

  function CnpjR1(d: string): int
    requires |d| == 14
  {
    Residue(d[..12], CNPJ_WEIGHTS_1)
  }

  function CnpjR2(d: string): int
    requires |d| == 14
  {
    Residue(d[..13], CNPJ_WEIGHTS_2)
  }

  /** The one-character errors an accepted CNPJ does not reveal. */
  predicate CnpjSlips(a: string, i: nat, c: char)
    requires |a| == 14 && i < 14
  {
    var r1, r2, delta := CnpjR1(a), CnpjR2(a), Value(c) - Value(a[i]);
    i < 12
    && (|| delta % 11 == 0
        || ((i == 0 || i == 8) && FiveSix(r1, r2, delta))
        || (i == 4 && ((r1 == 0 && r2 == 1 && delta % 11 == 5) || (r1 == 1 && r2 == 0 && delta % 11 == 6))))
  }

  lemma CnpjWeights(i: nat)
    requires i < 12
    ensures 2 <= CNPJ_WEIGHTS_1[i] <= 9 && (CNPJ_WEIGHTS_1[i] == 5 <==> i == 0 || i == 8)
    ensures i != 4 ==> CNPJ_WEIGHTS_2[i] == CNPJ_WEIGHTS_1[i] + 1
    ensures i == 4 ==> CNPJ_WEIGHTS_1[i] == 9 && CNPJ_WEIGHTS_2[i] == 2
  {
  }

  /** A one-character error in an accepted CNPJ goes unnoticed if and only if it is one of these. */
  lemma CnpjSingleErrors(a: string, i: nat, c: char)
    requires AcceptedCnpj(a) && i < 14 && c != a[i]
    ensures AcceptedCnpj(a[i := c])
       <==> (if i < 12 then IsAlphanumeric(c) else IsDigit(c)) && !AllSame(a[i := c][..12]) && CnpjSlips(a, i, c)
  {
    var b := a[i := c];
    assert if i < 12 then b[..12][i] == c else b[12..][i - 12] == c;
    if (if i < 12 then IsAlphanumeric(c) else IsDigit(c)) && !AllSame(b[..12]) { CnpjSlipsExact(a, i, c); }
  }

  lemma CnpjSlipsExact(a: string, i: nat, c: char)
    requires AcceptedCnpj(a) && i < 14 && c != a[i] && !AllSame(a[i := c][..12])
    requires if i < 12 then IsAlphanumeric(c) else IsDigit(c)
    ensures AcceptedCnpj(a[i := c]) <==> CnpjSlips(a, i, c)
  {
    var b, delta := a[i := c], Value(c) - Value(a[i]);
    if i < 12 {
      assert b[..12] == a[..12][i := c] && b[12..] == a[12..];
      assert AllAlphanumeric(b[..12]) && AllDigits(b[12..]);
      CnpjSums(a, i, c);
      CnpjWeights(i);
      var s1, s2 := WeightedSum(a[..12], CNPJ_WEIGHTS_1), WeightedSum(a[..13], CNPJ_WEIGHTS_2);
      var w, v := CNPJ_WEIGHTS_1[i], CNPJ_WEIGHTS_2[i];
      hide WeightedSum;
      SameDigit(s1, delta * w);
      SameDigit(s2, delta * v);
      assert b[12] == a[12] && b[13] == a[13];
      assert AcceptedCnpj(b) <==> Unseen(s1 % 11, s2 % 11, delta * w, delta * v);
      if i == 4 { UnseenNineTwo(s1 % 11, s2 % 11, delta); } else { UnseenConsecutive(w, s1 % 11, s2 % 11, delta); }
    } else if i == 12 {
      assert b[..12] == a[..12];
    } else {
      assert b[..13] == a[..13] && b[..12] == a[..12];
    }
  }

  /** Two accepted CNPJs that differ in one place: congruent values, or +-2 at 0 and 8, or +-5 at 4. */
  lemma CnpjDistance(a: string, b: string, i: nat)
    requires AcceptedCnpj(a) && AcceptedCnpj(b) && i < 14 && b[i] != a[i] && b == a[i := b[i]]
    ensures var delta := Value(b[i]) - Value(a[i]);
      i < 12 && (delta % 11 == 0 || ((i == 0 || i == 8) && delta % 11 in {2, 9}) || (i == 4 && delta % 11 in {5, 6}))
  {
    if i < 12 {
      assert b[..12][i] == b[i];
    } else {
      assert b[12..][i - 12] == b[i];
    }
    CnpjSingleErrors(a, i, b[i]);
  }

  // ----- formatting -----

  function FormatCnpj(d: string): string {
    if |d| != 14 then d
    else d[..2] + "." + d[2..5] + "." + d[5..8] + "/" + d[8..12] + "-" + d[12..]
  }

  lemma {:induction false} CanonicalAppend(a: string, b: string)
    ensures KeepAlphanumeric(Upper(a + b)) == KeepAlphanumeric(Upper(a)) + KeepAlphanumeric(Upper(b))
  {
    if a == [] {
      assert a + b == b;
    } else {
      assert (a + b)[1..] == a[1..] + b && (a + b)[0] == a[0];
      CanonicalAppend(a[1..], b);
    }
  }

  lemma {:induction false} CanonicalFixed(d: string)
    requires AllAlphanumeric(d)
    ensures KeepAlphanumeric(Upper(d)) == d
  {
    if d != [] { CanonicalFixed(d[1..]); }
  }

  lemma AlphanumericTrimmed(d: string)
    requires d != [] ==> IsAlphanumeric(d[0]) && IsAlphanumeric(d[|d| - 1])
    ensures Trim(Browser, d) == d
  {
    TrimFixed(Browser, d);
  }

  /** Canonical text is its own canonical form. */
  lemma CanonicalIdempotent(raw: string)
    ensures Canonical(Canonical(raw)) == Canonical(raw)
  {
    AlphanumericTrimmed(Canonical(raw));
    CanonicalFixed(Canonical(raw));
  }

  lemma Appended(done: string, mark: string, more: string)
    requires KeepAlphanumeric(Upper(mark)) == "" && AllAlphanumeric(more)
    ensures KeepAlphanumeric(Upper(done + mark + more)) == KeepAlphanumeric(Upper(done)) + more
  {
    CanonicalFixed(more);
    hide KeepAlphanumeric, Upper;
    CanonicalAppend(done + mark, more);
    CanonicalAppend(done, mark);
  }

  lemma Reassembled(d: string)
    requires |d| == 14
    ensures d == d[..2] + d[2..5] + d[5..8] + d[8..12] + d[12..]
    ensures AllAlphanumeric(d) ==> AllAlphanumeric(d[..2]) && AllAlphanumeric(d[2..5]) && AllAlphanumeric(d[5..8])
                                   && AllAlphanumeric(d[8..12]) && AllAlphanumeric(d[12..])
  {
  }

  lemma FormatCanonical(d: string)
    requires |d| == 14 && AllAlphanumeric(d)
    ensures KeepAlphanumeric(Upper(FormatCnpj(d))) == d
  {
    Reassembled(d);
    hide KeepAlphanumeric, Upper, AllAlphanumeric;
    CanonicalFixed(d[..2]);
    Punctuation();
    var s1 := d[..2] + "." + d[2..5];
    var s2 := s1 + "." + d[5..8];
    var s3 := s2 + "/" + d[8..12];
    Appended(d[..2], ".", d[2..5]);
    Appended(s1, ".", d[5..8]);
    Appended(s2, "/", d[8..12]);
    Appended(s3, "-", d[12..]);
  }

  /** The preflight of a formatted number gives back the same fourteen characters. */
  lemma FormatRoundTrip(d: string)
    requires |d| == 14 && AllAlphanumeric(d)
    ensures PreflightCnpj(FormatCnpj(d)).digits == d
    ensures PreflightCnpj(FormatCnpj(d)).valid <==> AcceptedCnpj(d)
  {
    var text := FormatCnpj(d);
    assert text[0] == d[0] && text[|text| - 1] == d[13];
    AlphanumericTrimmed(text);
    FormatCanonical(d);
    CnpjVerdict(text);
  }

  lemma Punctuation()
    ensures KeepAlphanumeric(Upper(".")) == "" && KeepAlphanumeric(Upper("/")) == ""
    ensures KeepAlphanumeric(Upper("-")) == ""
  {
    assert "."[1..] == "" && "/"[1..] == "" && "-"[1..] == "";
    assert Upper(".") == "." && Upper("/") == "/" && Upper("-") == "-";
  }

  // ----- the server's rule -----

  /** `normalize_cnpj`: fourteen digits, not all equal, with matching check digits; None when it raises. */
  function ServerCnpj(value: string): Option<string> {
    var digits := OnlyDigits(value);
    if |digits| != 14 || AllSame(digits) then None
    else
      var first := CheckDigit(Residue(digits[..12], CNPJ_WEIGHTS_1));
      var second := CheckDigit(Residue(digits[..12] + [Digit(first)], CNPJ_WEIGHTS_2));
      if digits[12..] != [Digit(first), Digit(second)] then None else Some(digits)
  }

  lemma {:induction false} OnlyDigitsFixed(s: string)
    ensures |OnlyDigits(s)| <= |s|
    ensures AllDigits(s) <==> OnlyDigits(s) == s
    ensures AllDigits(s) <==> |OnlyDigits(s)| == |s|
  {
    if s != [] {
      OnlyDigitsFixed(s[1..]);
      assert AllDigits(s) <==> IsDigit(s[0]) && AllDigits(s[1..]) by {
        if IsDigit(s[0]) && AllDigits(s[1..]) {
          forall i | 0 <= i < |s| ensures IsDigit(s[i]) { if i > 0 { assert s[i] == s[1..][i - 1]; } }
        }
      }
    }
  }

  /**
   * A canonical number the browser accepts is accepted by the server if and only if it has no letter;
   * the server also accepts a repeated base, unless all fourteen digits are equal.
   */
  lemma ServerAndBrowser(d: string)
    requires |d| == 14 && AllAlphanumeric(d)
    ensures ServerCnpj(d) == Some(d)
       <==> AllDigits(d) && (AcceptedCnpj(d) || (AllSame(d[..12]) && !AllSame(d) && CnpjDigitsMatch(d)))
    ensures ServerCnpj(d) == Some(d) || ServerCnpj(d) == None
  {
    OnlyDigitsFixed(d);
    if AllDigits(d) {
      SameBase(d);
      var first := CheckDigit(Residue(d[..12], CNPJ_WEIGHTS_1));
      assert d[12..] == [d[12], d[13]];
      if d[12] == Digit(first) { assert d[..12] + [Digit(first)] == d[..13]; }
      hide WeightedSum, Residue;
    }
  }

  // ----- one number that only the browser accepts, one that only the server accepts -----

  lemma {:induction false} SumZeros(s: string, weights: seq<int>)
    requires |s| <= |weights| && forall i :: 0 <= i < |s| ==> s[i] == '0'
    ensures WeightedSum(s, weights) == 0
  {
    if s != [] { SumZeros(s[..|s| - 1], weights); }
  }

  const LETTER_BASE := "A00000000000"

  /** With one letter in the base only the browser accepts. */
  lemma OnlyBrowserAccepts()
    ensures AcceptedCnpj(LETTER_BASE + "32") && ServerCnpj(LETTER_BASE + "32") == None
  {
    var zeros, base := "000000000000", LETTER_BASE;
    SumZeros(zeros, CNPJ_WEIGHTS_1);
    SumUpdate(zeros, CNPJ_WEIGHTS_1, 0, 'A');
    assert zeros[0 := 'A'] == base && CNPJ_WEIGHTS_1[0] == 5;
    assert Mod11Cnpj(base, CNPJ_WEIGHTS_1) == 3;
    SumZeros(zeros, CNPJ_WEIGHTS_2);
    SumUpdate(zeros, CNPJ_WEIGHTS_2, 0, 'A');
    assert (base + ['3'])[..12] == base && CNPJ_WEIGHTS_2[0] == 6 && CNPJ_WEIGHTS_2[12] == 2;
    assert WeightedSum(base + ['3'], CNPJ_WEIGHTS_2) == 17 * 6 + 3 * 2;
    assert Mod11Cnpj(base + ['3'], CNPJ_WEIGHTS_2) == 2;
    assert base[0] == 'A' && base[1] == '0' && !IsDigit((base + "32")[0]) && base + "32" == base + ['3', '2'];
    hide WeightedSum, Mod11Cnpj;
    CnpjDigitsUnique(base, '3', '2');
    ServerAndBrowser(base + "32");
  }

  const ONES_SUMS_1: seq<int> := [0, 5, 9, 12, 14, 23, 31, 38, 44, 49, 53, 56, 58]
  const ONES_SUMS_2: seq<int> := [0, 6, 11, 15, 18, 20, 29, 37, 44, 50, 55, 59, 62]

  lemma {:induction false} SumOnes(s: string)
    requires |s| <= 12 && forall i :: 0 <= i < |s| ==> s[i] == '1'
    ensures WeightedSum(s, CNPJ_WEIGHTS_1) == ONES_SUMS_1[|s|] && WeightedSum(s, CNPJ_WEIGHTS_2) == ONES_SUMS_2[|s|]
  {
    if s != [] {
      SumOnes(s[..|s| - 1]);
      OnesStep(|s| - 1);
    }
  }

  lemma OnesStep(k: nat)
    requires k < 12
    ensures ONES_SUMS_1[k + 1] == ONES_SUMS_1[k] + CNPJ_WEIGHTS_1[k]
    ensures ONES_SUMS_2[k + 1] == ONES_SUMS_2[k] + CNPJ_WEIGHTS_2[k]
  {
  }

  const ONES_BASE := "111111111111"

  /** With a repeated base only the server accepts. */
  lemma OnlyServerAccepts()
    ensures !AcceptedCnpj(ONES_BASE + "80") && ServerCnpj(ONES_BASE + "80") == Some(ONES_BASE + "80")
  {
    var base, d := ONES_BASE, ONES_BASE + "80";
    SumOnes(base);
    assert d[..12] == base && d[..13] == base + ['8'] && (base + ['8'])[..12] == base;
    assert ONES_SUMS_1[12] == 58 && ONES_SUMS_2[12] == 62 && CNPJ_WEIGHTS_2[12] == 2;
    assert WeightedSum(d[..13], CNPJ_WEIGHTS_2) == 62 + 8 * 2;
    hide WeightedSum;
    assert d[12] == '8' && d[13] == '0' && d[0] == '1' && AllDigits(d) && AllSame(d[..12]);
    ServerAndBrowser(d);
  }

  lemma SameBase(d: string)
    requires |d| == 14
    ensures AllSame(d) ==> AllSame(d[..12])
  {
  }
}
