/**
 * The header normal form of the browser (frontend/src/components/UploadEnrichModal.tsx, before its
 * aliases) and of the server (src/leadstream/batches/hygiene.py), on ASCII text, where Unicode
 * decomposition and the removal of combining marks do nothing.
 */
module HeaderForms {
  import opened Text

  predicate Ascii(s: string) { forall i :: 0 <= i < |s| ==> s[i] < '\U{0080}' }

  predicate IsWord(c: char) { 'a' <= c <= 'z' || '0' <= c <= '9' }

  function Lower(s: string): (r: string)
    ensures |r| == |s|
    ensures forall i :: 0 <= i < |s| ==> r[i] == LowerChar(s[i])
  {
    if s == [] then [] else [LowerChar(s[0])] + Lower(s[1..])
  }

  function LowerChar(c: char): char { if 'A' <= c <= 'Z' then ((c as int) + 32) as char else c }

  /** Each maximal run of characters outside [a-z0-9] becomes one underscore. */
  function Collapse(s: string, inRun: bool): string {
    if s == [] then []
    else if IsWord(s[0]) then [s[0]] + Collapse(s[1..], false)
    else (if inRun then [] else ['_']) + Collapse(s[1..], true)
  }

  /** `.replace(/^_|_$/g, '')`: at most one underscore at each end. */
  function StripOnce(s: string): string {
    var a := if s != [] && s[0] == '_' then s[1..] else s;
    if a != [] && a[|a| - 1] == '_' then a[..|a| - 1] else a
  }

  function StripLead(s: string): string { if s != [] && s[0] == '_' then StripLead(s[1..]) else s }

  function StripTail(s: string): string {
    if s != [] && s[|s| - 1] == '_' then StripTail(s[..|s| - 1]) else s
  }

  /** `.strip("_")` */
  function Strip(s: string): string { StripTail(StripLead(s)) }

  function BrowserHeader(s: string): string { StripOnce(Collapse(Lower(Trim(Browser, s)), false)) }

  function ServerHeader(s: string): string { Strip(Collapse(Lower(Trim(Server, s)), false)) }

  /** Empty, or words over [a-z0-9] joined by single underscores. */
  predicate Normal(s: string) {
    && (forall i :: 0 <= i < |s| ==> IsWord(s[i]) || s[i] == '_')
    && (s != [] ==> s[0] != '_' && s[|s| - 1] != '_')
    && SingleRuns(s)
  }

  predicate SingleRuns(s: string) { forall i :: 0 <= i < |s| - 1 ==> s[i] != '_' || s[i + 1] != '_' }

  lemma {:induction false} CollapseShape(s: string, inRun: bool)
    ensures var r := Collapse(s, inRun);
      && (forall i :: 0 <= i < |r| ==> IsWord(r[i]) || r[i] == '_')
      && SingleRuns(r) && (inRun && r != [] ==> r[0] != '_')
  {
    if s != [] {
      CollapseShape(s[1..], !IsWord(s[0]));
    }
  }

  lemma TailSingle(s: string)
    requires SingleRuns(s)
    ensures s != [] ==> SingleRuns(s[1..])
  {
    if s != [] {
      forall i | 0 <= i < |s[1..]| - 1 ensures s[1..][i] != '_' || s[1..][i + 1] != '_' {
        assert s[i + 1] != '_' || s[i + 2] != '_';
      }
    }
  }

  lemma StripOnceIsStrip(s: string)
    requires SingleRuns(s)
    ensures StripOnce(s) == Strip(s)
    ensures var r := Strip(s);
      SingleRuns(r) && (r != [] ==> r[0] != '_' && r[|r| - 1] != '_') && (forall c :: c in r ==> c in s)
  {
    var a := if s != [] && s[0] == '_' then s[1..] else s;
    TailSingle(s);
    assert a != [] && a == s[1..] && s[0] == '_' ==> s[1] != '_';
    assert StripLead(s) == a;
    if a != [] && a[|a| - 1] == '_' {
      var b := a[..|a| - 1];
      assert b != [] ==> b[|b| - 1] == a[|a| - 2];
      assert StripTail(a) == b;
    }
  }

  // ----- trimming makes no difference -----

  /** The form without any trimming. */
  function CoreHeader(s: string): string { Strip(Collapse(Lower(s), false)) }

  lemma {:induction false} CollapseLast(s: string, x: char, inRun: bool)
    requires !IsWord(x)
    ensures Collapse(s + [x], inRun) == Collapse(s, inRun) || Collapse(s + [x], inRun) == Collapse(s, inRun) + ['_']
  {
    if s == [] {
      assert s + [x] == [x] && [x][1..] == [];
    } else {
      assert (s + [x])[1..] == s[1..] + [x] && (s + [x])[0] == s[0];
      CollapseLast(s[1..], x, !IsWord(s[0]));
    }
  }

  lemma {:induction false} StripLeadLast(s: string)
    ensures StripLead(s + ['_']) == if StripLead(s) == [] then [] else StripLead(s) + ['_']
  {
    if s == [] {
      assert s + ['_'] == ['_'] && ['_'][1..] == [];
    } else if s[0] == '_' {
      assert (s + ['_'])[1..] == s[1..] + ['_'];
      StripLeadLast(s[1..]);
    }
  }

  lemma CoreDropsLast(s: string, x: char)
    requires !IsWord(LowerChar(x))
    ensures CoreHeader(s + [x]) == CoreHeader(s)
  {
    assert Lower(s + [x]) == Lower(s) + [LowerChar(x)];
    var y := Collapse(Lower(s), false);
    CollapseLast(Lower(s), LowerChar(x), false);
    StripLeadLast(y);
    var z := StripLead(y);
    assert (z + ['_'])[..|z|] == z;
  }

  lemma CoreDropsFirst(s: string, x: char)
    requires !IsWord(LowerChar(x))
    ensures CoreHeader([x] + s) == CoreHeader(s)
  {
    var t := Lower(s);
    assert Lower([x] + s) == [LowerChar(x)] + t && ([LowerChar(x)] + t)[1..] == t;
    assert Collapse([LowerChar(x)] + t, false) == ['_'] + Collapse(t, true);
    assert (['_'] + Collapse(t, true))[1..] == Collapse(t, true);
    if t != [] && !IsWord(t[0]) {
      assert Collapse(t, true) == Collapse(t[1..], true);
      assert Collapse(t, false) == ['_'] + Collapse(t, true);
    } else {
      assert Collapse(t, true) == Collapse(t, false);
    }
  }

  lemma SpacesAreNoWords(host: Host, c: char)
    requires IsSpace(host, c)
    ensures !IsWord(LowerChar(c))
  {
  }

  lemma {:induction false} CoreDropsBlanks(host: Host, a: string, s: string, b: string)
    requires Blank(host, a) && Blank(host, b)
    ensures CoreHeader(a + s + b) == CoreHeader(s)
    decreases |a| + |b|
  {
    hide CoreHeader, IsSpace, IsWord, LowerChar;
    if a != [] {
      SpacesAreNoWords(host, a[0]);
      assert Blank(host, a[1..]);
      CoreDropsBlanks(host, a[1..], s, b);
      CoreDropsFirst(a[1..] + s + b, a[0]);
      assert a + s + b == [a[0]] + (a[1..] + s + b);
    } else if b != [] {
      var n := |b| - 1;
      SpacesAreNoWords(host, b[n]);
      assert Blank(host, b[..n]);
      CoreDropsBlanks(host, a, s, b[..n]);
      CoreDropsLast(a + s + b[..n], b[n]);
      assert a + s + b == (a + s + b[..n]) + [b[n]];
    } else {
      assert a + s + b == s;
    }
  }

  lemma TrimmedCore(host: Host, s: string)
    ensures CoreHeader(Trim(host, s)) == CoreHeader(s)
  {
    var i, j := TrimCut(host, s);
    CoreDropsBlanks(host, s[..i], s[i..j], s[j..]);
    assert s == s[..i] + s[i..j] + s[j..];
  }

  // ----- the results -----

  /**
   * On every ASCII text browser and server compute the same header, trimmed or not, and it is empty
   * or lower-case words joined by single underscores.
   */
  lemma HeadersAgree(s: string)
    requires Ascii(s)
    ensures BrowserHeader(s) == ServerHeader(s) == CoreHeader(s)
    ensures Normal(BrowserHeader(s))
  {
    TrimmedCore(Browser, s);
    TrimmedCore(Server, s);
    var y := Collapse(Lower(Trim(Browser, s)), false);
    CollapseShape(Lower(Trim(Browser, s)), false);
    StripOnceIsStrip(y);
    hide Collapse, Strip, StripOnce, Lower, Trim;
    assert forall i :: 0 <= i < |Strip(y)| ==> Strip(y)[i] in y;
  }

  lemma {:induction false} CollapseFixed(s: string, inRun: bool)
    requires (forall i :: 0 <= i < |s| ==> IsWord(s[i]) || s[i] == '_') && SingleRuns(s)
    requires inRun && s != [] ==> s[0] != '_'
    ensures Collapse(s, inRun) == s
  {
    if s != [] {
      TailSingle(s);
      CollapseFixed(s[1..], !IsWord(s[0]));
    }
  }

  lemma NormalFixed(s: string)
    requires Normal(s)
    ensures BrowserHeader(s) == s && ServerHeader(s) == s
  {
    TrimFixed(Browser, s);
    TrimFixed(Server, s);
    assert Lower(s) == s;
    CollapseFixed(s, false);
    StripOnceIsStrip(s);
    assert StripOnce(s) == s;
  }

  /** Normalising a normalised header changes nothing. */
  lemma HeaderIdempotent(s: string)
    requires Ascii(s)
    ensures BrowserHeader(BrowserHeader(s)) == BrowserHeader(s)
    ensures ServerHeader(ServerHeader(s)) == ServerHeader(s)
  {
    HeadersAgree(s);
    NormalFixed(BrowserHeader(s));
  }

  // ----- letters and separators -----

  /** Equal but for the case of ASCII letters. */
  predicate SameButCase(s: string, t: string) {
    |s| == |t| && forall i :: 0 <= i < |s| ==> SameLetter(s[i], t[i])
  }

  predicate SameLetter(a: char, b: char) {
    a == b || ('A' <= a <= 'Z' && b as int == a as int + 32) || ('a' <= a <= 'z' && a as int == b as int + 32)
  }

  /** The case of ASCII letters makes no difference to either form. */
  lemma CaseAlike(s: string, t: string)
    requires Ascii(s) && Ascii(t) && SameButCase(s, t)
    ensures BrowserHeader(s) == BrowserHeader(t) && ServerHeader(s) == ServerHeader(t)
  {
    HeadersAgree(s);
    HeadersAgree(t);
    assert Lower(s) == Lower(t);
  }

  lemma {:induction false} CollapseSplit(a: string, x: char, b: string, inRun: bool)
    requires !IsWord(x)
    ensures Collapse(a + ([x] + b), inRun) == Collapse(a + [x], inRun) + Collapse(b, true)
  {
    if a == [] {
      assert a + ([x] + b) == [x] + b && a + [x] == [x] && ([x] + b)[1..] == b && [x][1..] == [];
      assert Collapse([x], inRun) == if inRun then [] else ['_'];
    } else {
      assert (a + ([x] + b))[1..] == a[1..] + ([x] + b) && (a + ([x] + b))[0] == a[0];
      assert (a + [x])[1..] == a[1..] + [x] && (a + [x])[0] == a[0];
      CollapseSplit(a[1..], x, b, !IsWord(a[0]));
      hide Collapse;
      CollapseHead(a[0], a[1..] + ([x] + b), inRun);
      CollapseHead(a[0], a[1..] + [x], inRun);
      assert a + ([x] + b) == [a[0]] + (a[1..] + ([x] + b)) && a + [x] == [a[0]] + (a[1..] + [x]);
    }
  }

  lemma CollapseHead(x: char, s: string, inRun: bool)
    ensures Collapse([x] + s, inRun)
         == (if IsWord(x) then [x] else if inRun then [] else ['_']) + Collapse(s, !IsWord(x))
  {
    assert ([x] + s)[1..] == s;
  }

  /** In normal form already, two words across a separator are joined by one underscore. */
  lemma FormJoins(a: string, x: char, b: string)
    requires Normal(a) && Normal(b) && a != [] && b != [] && !IsWord(LowerChar(x)) && Ascii([x])
    ensures ServerHeader(a + ([x] + b)) == a + (['_'] + b)
  {
    hide *;
    var s := a + ([x] + b);
    JoinedAscii(a, x, b);
    HeadersAgree(s);
    JoinedCollapse(a, x, b);
    JoinedNormal(a, b);
    NormalStrip(a + (['_'] + b));
    CoreIs(s);
  }

  lemma CoreIs(s: string)
    ensures CoreHeader(s) == Strip(Collapse(Lower(s), false))
  {
  }

  lemma JoinedAscii(a: string, x: char, b: string)
    requires Normal(a) && Normal(b) && Ascii([x])
    ensures Ascii(a + ([x] + b))
  {
    NormalAscii(a);
    NormalAscii(b);
    hide Normal;
    var s := a + ([x] + b);
    forall i | 0 <= i < |s| ensures s[i] < '\U{0080}' { assert s[i] in a || s[i] == [x][0] || s[i] in b; }
  }

  lemma JoinedLower(a: string, x: char, b: string)
    requires Normal(a) && Normal(b)
    ensures Lower(a + ([x] + b)) == a + ([LowerChar(x)] + b)
  {
    LowerNormal(a);
    LowerNormal(b);
    assert Lower([x]) == [LowerChar(x)];
    hide Normal, LowerChar, Lower;
    LowerAppend(a, [x] + b);
    LowerAppend([x], b);
  }

  lemma LowerAppend(a: string, b: string)
    ensures Lower(a + b) == Lower(a) + Lower(b)
  {
    hide LowerChar, Lower;
    var whole, parts := Lower(a + b), Lower(a) + Lower(b);
    forall i | 0 <= i < |whole| ensures whole[i] == parts[i] {
      LowerAt(a + b, i);
      if i < |a| { LowerAt(a, i); } else { LowerAt(b, i - |a|); }
    }
  }

  lemma LowerAt(s: string, i: nat)
    requires i < |s|
    ensures Lower(s)[i] == LowerChar(s[i])
  {
  }

  lemma JoinedCollapse(a: string, x: char, b: string)
    requires Normal(a) && Normal(b) && a != [] && b != [] && !IsWord(LowerChar(x))
    ensures Collapse(Lower(a + ([x] + b)), false) == a + (['_'] + b)
  {
    var y := LowerChar(x);
    JoinedLower(a, x, b);
    CollapseFixed(b, false);
    FirstCollapse(b);
    CollapseSplit(a, y, b, false);
    CollapseLastWord(a, y);
    hide Collapse, Lower, Normal, LowerChar;
    assert (a + ['_']) + b == a + (['_'] + b);
  }

  lemma NormalAscii(s: string)
    requires Normal(s)
    ensures Ascii(s)
  {
  }

  lemma LowerNormal(s: string)
    requires Normal(s)
    ensures Lower(s) == s
  {
  }

  lemma FirstCollapse(b: string)
    requires Normal(b) && b != []
    ensures Collapse(b, true) == Collapse(b, false)
  {
  }

  lemma {:induction false} CollapseLastWord(a: string, y: char)
    requires a != [] && !IsWord(y) && (forall i :: 0 <= i < |a| ==> IsWord(a[i]) || a[i] == '_') && SingleRuns(a)
    requires a[|a| - 1] != '_'
    ensures Collapse(a + [y], false) == a + ['_']
    ensures a[0] != '_' ==> Collapse(a + [y], true) == a + ['_']
    decreases |a|
  {
    TailSingle(a);
    assert a == [a[0]] + a[1..] && a + [y] == [a[0]] + (a[1..] + [y]);
    CollapseHead(a[0], a[1..] + [y], false);
    CollapseHead(a[0], a[1..] + [y], true);
    if |a| == 1 {
      assert a[1..] + [y] == [y] && [y][1..] == [];
      assert Collapse([y], false) == ['_'];
    } else {
      CollapseLastWord(a[1..], y);
      assert a[1..][0] == a[1];
      assert [a[0]] + (a[1..] + ['_']) == a + ['_'];
    }
  }

  lemma JoinedNormal(a: string, b: string)
    requires Normal(a) && Normal(b) && a != [] && b != []
    ensures Normal(a + (['_'] + b))
  {
    var s := a + (['_'] + b);
    forall i | 0 <= i < |s| - 1 ensures s[i] != '_' || s[i + 1] != '_' {
      if i + 1 < |a| {
        assert s[i] == a[i] && s[i + 1] == a[i + 1];
      } else if i > |a| {
        assert s[i] == b[i - |a| - 1] && s[i + 1] == b[i - |a|];
      }
    }
  }

  lemma NormalStrip(s: string)
    requires Normal(s)
    ensures Strip(s) == s
  {
  }

  lemma CnpjText()
    ensures SameButCase("CNPJ", "cnpj") && Ascii("CNPJ") && Ascii("cnpj") && Normal("cnpj")
  {
  }

  /** "CNPJ" has the form "cnpj". */
  lemma UpperCaseHeader()
    ensures BrowserHeader("CNPJ") == "cnpj" && ServerHeader("CNPJ") == "cnpj"
  {
    CnpjText();
    hide BrowserHeader, ServerHeader, SameButCase, Ascii, Normal;
    CaseAlike("CNPJ", "cnpj");
    NormalFixed("cnpj");
  }

  lemma RazaoText()
    ensures SameButCase("Razao Social", "razao social") && Ascii("Razao Social") && Ascii("razao social")
  {
  }

  lemma RazaoWords()
    ensures Normal("razao") && Normal("social") && !IsWord(LowerChar(' ')) && Ascii([' '])
  {
  }

  /** "Razao Social" has the form "razao_social". */
  lemma TwoWordHeader()
    ensures ServerHeader("Razao Social") == "razao_social"
  {
    RazaoText();
    RazaoWords();
    hide ServerHeader, BrowserHeader, SameButCase, Ascii, Normal, IsWord, LowerChar;
    CaseAlike("Razao Social", "razao social");
    FormJoins("razao", ' ', "social");
    assert "razao" + ([' '] + "social") == "razao social" && "razao" + (['_'] + "social") == "razao_social";
  }
}
