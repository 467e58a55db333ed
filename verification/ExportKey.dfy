/**
 * The export cache key before hashing (`compute_export_hash`, src/leadstream/batches/exporter.py):
 * sorted names joined by commas, parts joined by colons.
 */
module ExportKey {
  import opened Text

  // ----- Python's order on strings, and `sorted` -----

  predicate LexLe(a: string, b: string) {
    a == [] || (b != [] && (a[0] < b[0] || (a[0] == b[0] && LexLe(a[1..], b[1..]))))
  }

  function Insert(x: string, xs: seq<string>): seq<string> {
    if xs == [] || LexLe(x, xs[0]) then [x] + xs else [xs[0]] + Insert(x, xs[1..])
  }

  function Sort(xs: seq<string>): seq<string> {
    if xs == [] then [] else Insert(xs[0], Sort(xs[1..]))
  }

  ghost predicate Ordered(xs: seq<string>) {
    forall i, j :: 0 <= i < j < |xs| ==> LexLe(xs[i], xs[j])
  }

  lemma {:induction false} LexTotal(a: string, b: string)
    ensures LexLe(a, b) || LexLe(b, a)
    ensures LexLe(a, b) && LexLe(b, a) ==> a == b
  {
    if a != [] && b != [] && a[0] == b[0] {
      LexTotal(a[1..], b[1..]);
      assert a == [a[0]] + a[1..] && b == [b[0]] + b[1..];
    }
  }

  lemma {:induction false} LexTransitive(a: string, b: string, c: string)
    requires LexLe(a, b) && LexLe(b, c)
    ensures LexLe(a, c)
  {
    if a != [] && a[0] == b[0] == c[0] { LexTransitive(a[1..], b[1..], c[1..]); }
  }

  lemma {:induction false} InsertOrders(x: string, xs: seq<string>)
    requires Ordered(xs)
    ensures Ordered(Insert(x, xs)) && multiset(Insert(x, xs)) == multiset(xs) + multiset{x}
  {
    if xs == [] {
    } else if LexLe(x, xs[0]) {
      forall j | 0 <= j < |xs| ensures LexLe(x, xs[j]) {
        if j > 0 { LexTransitive(x, xs[0], xs[j]); }
      }
    } else {
      var rest := Insert(x, xs[1..]);
      InsertOrders(x, xs[1..]);
      LexTotal(x, xs[0]);
      assert xs == [xs[0]] + xs[1..];
      forall j | 0 <= j < |rest| ensures LexLe(xs[0], rest[j]) {
        assert rest[j] in multiset(rest);
        if rest[j] != x { assert rest[j] in xs[1..]; }
      }
    }
  }

  lemma {:induction false} SortOrders(xs: seq<string>)
    ensures Ordered(Sort(xs)) && multiset(Sort(xs)) == multiset(xs)
  {
    if xs != [] {
      SortOrders(xs[1..]);
      InsertOrders(xs[0], Sort(xs[1..]));
      assert xs == [xs[0]] + xs[1..];
    }
  }

  lemma MultisetTail(a: seq<string>)
    requires a != []
    ensures multiset(a[1..]) == multiset(a) - multiset{a[0]}
  {
    assert a == [a[0]] + a[1..];
  }

  lemma OrderedHead(a: seq<string>, x: string)
    requires Ordered(a) && x in a
    ensures LexLe(a[0], x)
  {
    LexTotal(a[0], a[0]);
  }

  lemma SameHead(a: seq<string>, b: seq<string>)
    requires Ordered(a) && Ordered(b) && multiset(a) == multiset(b) && a != []
    ensures b != [] && a[0] == b[0] && Ordered(a[1..]) && Ordered(b[1..])
  {
    assert a[0] in multiset(b);
    assert b[0] in multiset(a);
    OrderedHead(a, b[0]);
    OrderedHead(b, a[0]);
    LexTotal(a[0], b[0]);
  }

  /** An ordered sequence is determined by its elements. */
  lemma {:induction false} OrderedUnique(a: seq<string>, b: seq<string>)
    requires Ordered(a) && Ordered(b) && multiset(a) == multiset(b)
    ensures a == b
  {
    hide *;
    if a == [] {
      assert forall x :: x in b <==> x in multiset(b);
    } else {
      SameHead(a, b);
      MultisetTail(a);
      MultisetTail(b);
      OrderedUnique(a[1..], b[1..]);
      assert a == [a[0]] + a[1..] && b == [b[0]] + b[1..];
    }
  }

  lemma SortInvariant(a: seq<string>, b: seq<string>)
    ensures Sort(a) == Sort(b) <==> multiset(a) == multiset(b)
  {
    SortOrders(a);
    SortOrders(b);
    if multiset(a) == multiset(b) { OrderedUnique(Sort(a), Sort(b)); }
  }

  // ----- the key -----

  datatype Request = Request(batch: string, columns: seq<string>, statuses: seq<string>, level: string, updated: string)

  function Parts(r: Request): seq<string> {
    [r.batch, Join(Sort(r.columns), ","), Join(Sort(r.statuses), ","), r.level, r.updated]
  }

  function Key(r: Request): string { Join(Parts(r), ":") }

  /** The key is batch, columns, statuses, level and timestamp, in this order. */
  lemma KeyText(r: Request)
    ensures Key(r) == r.batch + (":" + (Join(Sort(r.columns), ",") + (":" + (Join(Sort(r.statuses), ",")
                      + (":" + (r.level + (":" + r.updated)))))))
  {
    var a, b, c, d, e := r.batch, Join(Sort(r.columns), ","), Join(Sort(r.statuses), ","), r.level, r.updated;
    assert [a, b, c, d, e][1..] == [b, c, d, e] && [b, c, d, e][1..] == [c, d, e] && [c, d, e][1..] == [d, e];
    assert [d, e][1..] == [e];
    assert Join([d, e], ":") == d + ":" + e;
    assert Join([c, d, e], ":") == c + ":" + Join([d, e], ":");
    assert Join([b, c, d, e], ":") == b + ":" + Join([c, d, e], ":");
    hide Sort, Join;
    Colon(d, e);
    Colon(c, Join([d, e], ":"));
    Colon(b, Join([c, d, e], ":"));
    Colon(a, Join([b, c, d, e], ":"));
  }

  lemma Colon(a: string, b: string)
    ensures a + ":" + b == a + (":" + b)
  {
  }

  // ----- when joined texts are equal -----

  /** The pieces of all parts, each part cut at `c`. */
  function Fields(parts: seq<string>, c: char): seq<string> {
    if parts == [] then [[]]
    else if |parts| == 1 then Split(parts[0], c)
    else Split(parts[0], c) + Fields(parts[1..], c)
  }

  lemma {:induction false} SplitJoin(parts: seq<string>, c: char)
    ensures Split(Join(parts, [c]), c) == Fields(parts, c)
  {
    if |parts| > 1 {
      var rest := Join(parts[1..], [c]);
      SplitJoin(parts[1..], c);
      SplitAppend(parts[0], rest, c);
      assert parts[0] + [c] + rest == parts[0] + ([c] + rest);
    }
  }

  /** Two lists are joined to one text if and only if they have the same pieces. */
  lemma JoinedAlike(a: seq<string>, b: seq<string>, c: char)
    ensures Join(a, [c]) == Join(b, [c]) <==> Fields(a, c) == Fields(b, c)
  {
    SplitJoin(a, c);
    SplitJoin(b, c);
    JoinSplit(Join(a, [c]), c);
    JoinSplit(Join(b, [c]), c);
  }

  lemma {:induction false} SplitWhole(s: string, c: char)
    requires c !in s
    ensures Split(s, c) == [s]
  {
    if s != [] {
      SplitWhole(s[1..], c);
      assert s == [s[0]] + s[1..];
    }
  }

  lemma {:induction false} FieldsWhole(parts: seq<string>, c: char)
    requires forall i :: 0 <= i < |parts| ==> c !in parts[i]
    ensures Fields(parts, c) == if parts == [] then [[]] else parts
  {
    if parts != [] {
      SplitWhole(parts[0], c);
      FieldsWhole(parts[1..], c);
    }
  }

  // ----- the results -----

  /** The key does not depend on the order of columns or of statuses. */
  lemma KeyIgnoresOrder(r: Request, columns: seq<string>, statuses: seq<string>)
    requires multiset(columns) == multiset(r.columns) && multiset(statuses) == multiset(r.statuses)
    ensures Key(r.(columns := columns, statuses := statuses)) == Key(r)
  {
    SortInvariant(columns, r.columns);
    SortInvariant(statuses, r.statuses);
  }

  /** Two requests, whatever their texts, share a key if and only if their parts cut at colons agree. */
  lemma KeysAlike(p: Request, q: Request)
    ensures Key(p) == Key(q) <==> Fields(Parts(p), ':') == Fields(Parts(q), ':')
  {
    JoinedAlike(Parts(p), Parts(q), ':');
    assert [':'] == ":";
  }

  predicate ColonFree(names: seq<string>) { forall i :: 0 <= i < |names| ==> ':' !in names[i] }

  /** No colon but in the timestamp, which is the last part. */
  predicate PlainParts(r: Request) {
    ':' !in r.batch && ':' !in r.level && ColonFree(r.columns) && ColonFree(r.statuses)
  }

  lemma {:induction false} JoinNoColon(a: seq<string>)
    requires ColonFree(a)
    ensures ':' !in Join(a, ",")
  {
    if |a| > 1 { JoinNoColon(a[1..]); }
  }

  lemma SortedMembers(a: seq<string>)
    ensures forall i :: 0 <= i < |Sort(a)| ==> Sort(a)[i] in a
  {
    SortOrders(a);
    forall i | 0 <= i < |Sort(a)| ensures Sort(a)[i] in a { assert Sort(a)[i] in multiset(Sort(a)); }
  }

  lemma SortedNoColon(a: seq<string>)
    requires ColonFree(a)
    ensures ':' !in Join(Sort(a), ",")
  {
    SortedMembers(a);
    JoinNoColon(Sort(a));
  }

  lemma FieldsHead(head: string, parts: seq<string>, c: char)
    requires c !in head && parts != []
    ensures Fields([head] + parts, c) == [head] + Fields(parts, c)
  {
    SplitWhole(head, c);
    assert ([head] + parts)[1..] == parts;
  }

  /** Four parts without a colon and a fifth with any: what their pieces are. */
  lemma FiveParts(a: string, b: string, d: string, e: string, last: string)
    requires ':' !in a && ':' !in b && ':' !in d && ':' !in e
    ensures Fields([a, b, d, e, last], ':') == [a, b, d, e] + Split(last, ':')
  {
    assert Fields([last], ':') == Split(last, ':');
    hide Fields, Split;
    FieldsHead(e, [last], ':');
    FieldsHead(d, [e] + [last], ':');
    FieldsHead(b, [d] + ([e] + [last]), ':');
    FieldsHead(a, [b] + ([d] + ([e] + [last])), ':');
    assert [a] + ([b] + ([d] + ([e] + [last]))) == [a, b, d, e, last];
    assert [a] + ([b] + ([d] + ([e] + Split(last, ':')))) == [a, b, d, e] + Split(last, ':');
  }

  lemma PartsFields(r: Request)
    requires PlainParts(r)
    ensures Fields(Parts(r), ':') == Parts(r)[..4] + Split(r.updated, ':')
  {
    SortedNoColon(r.columns);
    SortedNoColon(r.statuses);
    FiveParts(r.batch, Join(Sort(r.columns), ","), Join(Sort(r.statuses), ","), r.level, r.updated);
    FourParts(r);
  }

  /**
   * The exact condition. Two requests without a colon before the timestamp share a key if and only if
   * batch, level and timestamp agree and the sorted columns, cut at commas, agree, and the statuses too.
   */
  lemma KeyCollides(p: Request, q: Request)
    requires PlainParts(p) && PlainParts(q)
    ensures Key(p) == Key(q)
       <==> && p.batch == q.batch && p.level == q.level && p.updated == q.updated
            && Fields(Sort(p.columns), ',') == Fields(Sort(q.columns), ',')
            && Fields(Sort(p.statuses), ',') == Fields(Sort(q.statuses), ',')
  {
    KeysAlike(p, q);
    PartsFields(p);
    PartsFields(q);
    JoinedAlike(Sort(p.columns), Sort(q.columns), ',');
    JoinedAlike(Sort(p.statuses), Sort(q.statuses), ',');
    assert [','] == ",";
    JoinSplit(p.updated, ':');
    JoinSplit(q.updated, ':');
    SamePieces(Parts(p)[..4], Parts(q)[..4], Split(p.updated, ':'), Split(q.updated, ':'));
    hide Key, Fields, Split, Sort, Join;
    FourParts(p);
    FourParts(q);
  }

  lemma SamePieces(a: seq<string>, b: seq<string>, x: seq<string>, y: seq<string>)
    requires |a| == |b|
    ensures a + x == b + y <==> a == b && x == y
  {
    if a + x == b + y {
      assert a == (a + x)[..|a|] && b == (b + y)[..|a|];
      assert x == (a + x)[|a|..] && y == (b + y)[|a|..];
    }
  }

  lemma FourParts(r: Request)
    ensures Parts(r)[..4] == [r.batch, Join(Sort(r.columns), ","), Join(Sort(r.statuses), ","), r.level]
  {
  }

  predicate SimpleNames(names: seq<string>) { forall i :: 0 <= i < |names| ==> names[i] != [] && ',' !in names[i] }

  lemma SimpleFields(a: seq<string>, b: seq<string>)
    requires SimpleNames(a) && SimpleNames(b)
    ensures Fields(Sort(a), ',') == Fields(Sort(b), ',') <==> multiset(a) == multiset(b)
  {
    SortedMembers(a);
    SortedMembers(b);
    SortInvariant(a, b);
    FieldsWhole(Sort(a), ',');
    FieldsWhole(Sort(b), ',');
    hide Fields, Sort;
    assert forall i :: 0 <= i < |Sort(a)| ==> Sort(a)[i] != [];
    assert forall i :: 0 <= i < |Sort(b)| ==> Sort(b)[i] != [];
  }

  /**
   * So with non-empty names free of commas a key identifies its request: the same batch, columns and
   * statuses up to order, level and timestamp.
   */
  lemma KeyIdentifies(p: Request, q: Request)
    requires PlainParts(p) && PlainParts(q)
    requires SimpleNames(p.columns) && SimpleNames(p.statuses) && SimpleNames(q.columns) && SimpleNames(q.statuses)
    ensures Key(p) == Key(q)
       <==> && p.batch == q.batch && multiset(p.columns) == multiset(q.columns)
            && multiset(p.statuses) == multiset(q.statuses) && p.level == q.level && p.updated == q.updated
  {
    KeyCollides(p, q);
    SimpleFields(p.columns, q.columns);
    SimpleFields(p.statuses, q.statuses);
  }

  /** One column "A,B" and two columns "A" and "B" are such a collision. */
  lemma CommaCollides(batch: string, statuses: seq<string>, level: string, updated: string)
    ensures Key(Request(batch, ["A,B"], statuses, level, updated))
         == Key(Request(batch, ["A", "B"], statuses, level, updated))
    ensures multiset(["A,B"]) != multiset(["A", "B"])
  {
    assert LexLe("A", "B");
    assert ["A", "B"][1..] == ["B"] && ["A,B"][1..] == [] && ["B"][1..] == [];
    assert Sort(["A,B"]) == ["A,B"] && Sort(["B"]) == ["B"] && Sort(["A", "B"]) == ["A", "B"];
    assert Join(["A", "B"], ",") == "A" + "," + "B" == "A,B";
    assert |multiset(["A,B"])| == 1;
  }

  /** A comma alone does not collide: the request for "B,A" is not the one for "A" and "B". */
  lemma CommaDistinct(batch: string, statuses: seq<string>, level: string, updated: string)
    requires ':' !in batch && ':' !in level && ColonFree(statuses)
    ensures Key(Request(batch, ["B,A"], statuses, level, updated))
         != Key(Request(batch, ["A", "B"], statuses, level, updated))
  {
    KeyCollides(Request(batch, ["B,A"], statuses, level, updated),
        Request(batch, ["A", "B"], statuses, level, updated));
    assert LexLe("A", "B");
    assert ["A", "B"][1..] == ["B"] && ["B,A"][1..] == [] && ["B"][1..] == [];
    assert Sort(["B,A"]) == ["B,A"] && Sort(["B"]) == ["B"] && Sort(["A", "B"]) == ["A", "B"];
    FieldsWhole(["A", "B"], ',');
    SplitAppend("B", "A", ',');
    SplitWhole("B", ',');
    SplitWhole("A", ',');
    assert "B,A" == "B" + ([','] + "A");
    assert Fields(["B,A"], ',') == ["B"] + ["A"];
  }
}
