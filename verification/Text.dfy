/** Strings as the browser and the server see them: white space, trimming, joining, counting. */
module Text {
  datatype Option<+T> = None | Some(value: T)

  const BOM: char := '\U{FEFF}'

  /** Where the code runs: ECMAScript `trim` and Python `strip` remove slightly different characters. */
  datatype Host = Browser | Server

  predicate IsSpace(host: Host, c: char) {
    || '\t' <= c <= '\r' || c == ' ' || c == '\U{00A0}' || c == '\U{1680}'
    || '\U{2000}' <= c <= '\U{200A}' || c == '\U{2028}' || c == '\U{2029}'
    || c == '\U{202F}' || c == '\U{205F}' || c == '\U{3000}'
    || match host
       case Browser => c == BOM
       case Server => '\U{001C}' <= c <= '\U{001F}' || c == '\U{0085}'
  }

  predicate IsDigit(c: char) { '0' <= c <= '9' }

  predicate Blank(host: Host, s: string) { forall i :: 0 <= i < |s| ==> IsSpace(host, s[i]) }

  function TrimStart(host: Host, s: string): (r: string) {
    if s != [] && IsSpace(host, s[0]) then TrimStart(host, s[1..]) else s
  }

  function TrimEnd(host: Host, s: string): (r: string) {
    if s != [] && IsSpace(host, s[|s| - 1]) then TrimEnd(host, s[..|s| - 1]) else s
  }

  function Trim(host: Host, s: string): string { TrimEnd(host, TrimStart(host, s)) }

  predicate Trimmed(host: Host, s: string) {
    s == [] || (!IsSpace(host, s[0]) && !IsSpace(host, s[|s| - 1]))
  }

  lemma {:induction false} TrimStartCut(host: Host, s: string) returns (k: nat)
    ensures k <= |s| && TrimStart(host, s) == s[k..] && Blank(host, s[..k])
    ensures k < |s| ==> !IsSpace(host, s[k])
  {
    if s != [] && IsSpace(host, s[0]) {
      var j := TrimStartCut(host, s[1..]);
      k := j + 1;
      assert s[1..][j..] == s[k..];
      assert forall i :: 0 < i < k ==> s[i] == s[1..][..j][i - 1];
    } else {
      k := 0;
    }
  }

  lemma {:induction false} TrimEndCut(host: Host, s: string) returns (k: nat)
    ensures k <= |s| && TrimEnd(host, s) == s[..k] && Blank(host, s[k..])
    ensures k > 0 ==> !IsSpace(host, s[k - 1])
  {
    if s != [] && IsSpace(host, s[|s| - 1]) {
      var t := s[..|s| - 1];
      k := TrimEndCut(host, t);
      assert t[..k] == s[..k];
      assert forall i :: 0 <= i < |s| - k - 1 ==> s[k..][i] == t[k..][i];
    } else {
      k := |s|;
    }
  }

  /** Trimming cuts off a blank prefix and a blank suffix, and nothing else. */
  lemma TrimCut(host: Host, s: string) returns (i: nat, j: nat)
    ensures i <= j <= |s| && Trim(host, s) == s[i..j] && Blank(host, s[..i]) && Blank(host, s[j..])
    ensures Trimmed(host, Trim(host, s))
  {
    i := TrimStartCut(host, s);
    var k := TrimEndCut(host, s[i..]);
    j := i + k;
    assert s[i..][..k] == s[i..j];
    assert s[i..][k..] == s[j..];
    if k > 0 { assert s[i..j][0] == s[i] && s[i..j][k - 1] == s[i..][k - 1]; }
  }

  /** Both hosts trim blanks, tabs, line ends and the like; only the browser a byte-order mark, only the server NEL. */
  lemma WhiteSpace(host: Host, c: char)
    ensures c in {' ', '\t', '\n', '\r', '\U{000B}', '\U{000C}', '\U{00A0}', '\U{2028}', '\U{3000}'} ==>
      IsSpace(host, c)
    ensures '!' <= c <= '~' ==> !IsSpace(host, c)
    ensures IsSpace(host, BOM) <==> host.Browser?
    ensures IsSpace(host, '\U{0085}') <==> host.Server?
  {
  }

  /** A trimmed text is its own trim. */
  lemma TrimFixed(host: Host, s: string)
    requires Trimmed(host, s)
    ensures Trim(host, s) == s
  {
  }

  lemma TrimTrimmed(host: Host, s: string)
    ensures Trimmed(host, Trim(host, s)) && Trim(host, Trim(host, s)) == Trim(host, s)
    ensures forall c :: c in Trim(host, s) ==> c in s
  {
    var _, _ := TrimCut(host, s);
    TrimFixed(host, Trim(host, s));
  }

  /** A text that holds one visible character does not trim to nothing. */
  lemma TrimVisible(host: Host, s: string, c: char)
    requires c in s && !IsSpace(host, c)
    ensures c in Trim(host, s)
  {
    var i, j := TrimCut(host, s);
    assert s == s[..i] + s[i..j] + s[j..];
    assert c !in s[..i] && c !in s[j..];
  }

  function Join(parts: seq<string>, separator: string): string {
    if parts == [] then [] else if |parts| == 1 then parts[0]
    else parts[0] + separator + Join(parts[1..], separator)
  }

  function Split(s: string, c: char): (r: seq<string>)
    ensures r != []
  {
    if s == [] then [[]]
    else if s[0] == c then [[]] + Split(s[1..], c)
    else var rest := Split(s[1..], c); [[s[0]] + rest[0]] + rest[1..]
  }

  lemma SplitStep(x: char, t: string, c: char)
    ensures Split([x] + t, c)
         == if x == c then [[]] + Split(t, c) else [[x] + Split(t, c)[0]] + Split(t, c)[1..]
  {
    assert ([x] + t)[1..] == t;
  }

  /** Splitting at a separator between two texts splits each of them. */
  lemma {:induction false} SplitAppend(a: string, b: string, c: char)
    ensures Split(a + ([c] + b), c) == Split(a, c) + Split(b, c)
  {
    if a == [] {
      assert a + ([c] + b) == [c] + b;
      SplitStep(c, b, c);
    } else {
      hide Split;
      var t := a[1..] + ([c] + b);
      assert a == [a[0]] + a[1..] && a + ([c] + b) == [a[0]] + t;
      SplitAppend(a[1..], b, c);
      SplitStep(a[0], t, c);
      SplitStep(a[0], a[1..], c);
    }
  }

  /** Joining what was split gives the text back. */
  lemma {:induction false} JoinSplit(s: string, c: char)
    ensures Join(Split(s, c), [c]) == s
  {
    if s != [] {
      JoinSplit(s[1..], c);
      var rest := Split(s[1..], c);
      assert s == [s[0]] + s[1..];
      if s[0] == c {
        assert ([[]] + rest)[1..] == rest;
        assert [] + [c] + Join(rest, [c]) == s;
      } else if |rest| > 1 {
        assert ([[s[0]] + rest[0]] + rest[1..])[1..] == rest[1..];
        assert [s[0]] + rest[0] + [c] + Join(rest[1..], [c]) == [s[0]] + (rest[0] + [c] + Join(rest[1..], [c]));
      }
    }
  }

  function Count(s: string, c: char): nat {
    if s == [] then 0 else (if s[0] == c then 1 else 0) + Count(s[1..], c)
  }

  /** How often `c` occurs in all the texts together. */
  function Occurrences(cells: seq<string>, c: char): nat {
    if cells == [] then 0 else Count(cells[0], c) + Occurrences(cells[1..], c)
  }

  lemma {:induction false} CountAppend(a: string, b: string, c: char)
    ensures Count(a + b, c) == Count(a, c) + Count(b, c)
  {
    if a == [] {
      assert a + b == b;
    } else {
      assert (a + b)[1..] == a[1..] + b;
      CountAppend(a[1..], b, c);
    }
  }

  lemma {:induction false} CountAbsent(s: string, c: char)
    ensures Count(s, c) == 0 <==> c !in s
  {
    if s != [] {
      CountAbsent(s[1..], c);
      assert forall x :: x in s <==> x == s[0] || x in s[1..];
    }
  }

  /** A join holds each part's occurrences and, at each seam, the separator's. */
  lemma {:induction false} CountJoin(parts: seq<string>, separator: string, c: char)
    requires parts != []
    requires forall p :: p in parts ==> c !in p
    ensures Count(Join(parts, separator), c) == (|parts| - 1) * Count(separator, c)
  {
    CountAbsent(parts[0], c);
    if |parts| > 1 {
      CountAppend(parts[0] + separator, Join(parts[1..], separator), c);
      CountAppend(parts[0], separator, c);
      CountJoin(parts[1..], separator, c);
    }
  }
}
