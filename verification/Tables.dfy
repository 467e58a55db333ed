/**
 * Database tables as the exporter queries them: rows with an owner key and a tenant, filtered by
 * `WHERE key IN (...) AND tenant = ...`, and the dictionaries built from a result set.
 */
module Tables {
  import opened Text

  type Id = string

  datatype Row<T> = Row(owner: Id, tenant: Id, value: T)

  function Where<T>(table: seq<Row<T>>, tenant: Id, keys: set<Id>): seq<Row<T>> {
    if table == [] then []
    else
      (if table[0].owner in keys && table[0].tenant == tenant then [table[0]] else [])
      + Where(table[1..], tenant, keys)
  }

  /** The values of one key, in row order. */
  function Owned<T>(rows: seq<Row<T>>, key: Id): seq<T> {
    if rows == [] then []
    else (if rows[0].owner == key then [rows[0].value] else []) + Owned(rows[1..], key)
  }

  lemma {:induction false} OwnedAppend<T>(a: seq<Row<T>>, b: seq<Row<T>>, key: Id)
    ensures Owned(a + b, key) == Owned(a, key) + Owned(b, key)
  {
    if a == [] {
      assert a + b == b;
    } else {
      var head := if a[0].owner == key then [a[0].value] else [];
      var x, y := Owned(a[1..], key), Owned(b, key);
      OwnedAppend(a[1..], b, key);
      assert (a + b)[1..] == a[1..] + b && (a + b)[0] == a[0];
      assert Owned(a + b, key) == head + (x + y);
      assert head + (x + y) == (head + x) + y;
    }
  }

  /** Asking for many keys at once and keeping one key's rows is asking for that key. */
  lemma {:induction false} OwnedWhere<T>(table: seq<Row<T>>, tenant: Id, keys: set<Id>, key: Id)
    ensures key in keys ==> Owned(Where(table, tenant, keys), key) == Owned(Where(table, tenant, {key}), key)
    ensures key !in keys ==> Owned(Where(table, tenant, keys), key) == []
  {
    if table != [] {
      OwnedWhere(table[1..], tenant, keys, key);
      var many := if table[0].owner in keys && table[0].tenant == tenant then [table[0]] else [];
      var one := if table[0].owner in {key} && table[0].tenant == tenant then [table[0]] else [];
      OwnedAppend(many, Where(table[1..], tenant, keys), key);
      OwnedAppend(one, Where(table[1..], tenant, {key}), key);
      assert Owned([table[0]], key) == (if table[0].owner == key then [table[0].value] else []) + Owned([], key);
    }
  }

  // ----- dictionaries -----

  function Get<T>(index: map<Id, seq<T>>, key: Id): seq<T> {
    if key in index then index[key] else []
  }

  function Find<T>(index: map<Id, T>, key: Id): Option<T> {
    if key in index then Some(index[key]) else None
  }

  function First<T>(values: seq<T>): Option<T> { if values == [] then None else Some(values[0]) }

  function Last<T>(values: seq<T>): Option<T> { if values == [] then None else Some(values[|values| - 1]) }

  /** `index[row.key].append(row)` over a defaultdict(list). */
  method GroupByOwner<T>(rows: seq<Row<T>>) returns (index: map<Id, seq<T>>)
    ensures forall key :: Get(index, key) == Owned(rows, key)
  {
    index := map[];
    for i := 0 to |rows|
      invariant forall key :: Get(index, key) == Owned(rows[..i], key)
    {
      index := index[rows[i].owner := Get(index, rows[i].owner) + [rows[i].value]];
      forall key ensures Get(index, key) == Owned(rows[..i + 1], key) { OwnedNext(rows, i, key); }
    }
    assert rows[..|rows|] == rows;
  }

  lemma OwnedNext<T>(rows: seq<Row<T>>, i: nat, key: Id)
    requires i < |rows|
    ensures Owned(rows[..i + 1], key) == Owned(rows[..i], key) + if rows[i].owner == key then [rows[i].value] else []
  {
    assert rows[..i + 1] == rows[..i] + [rows[i]];
    OwnedAppend(rows[..i], [rows[i]], key);
    assert [rows[i]][1..] == [];
  }

  /** `index[row.key] = row`: the last row of a key wins. */
  method LastByOwner<T>(rows: seq<Row<T>>) returns (index: map<Id, T>)
    ensures forall key :: Find(index, key) == Last(Owned(rows, key))
  {
    index := map[];
    for i := 0 to |rows|
      invariant forall key :: Find(index, key) == Last(Owned(rows[..i], key))
    {
      index := index[rows[i].owner := rows[i].value];
      forall key ensures Find(index, key) == Last(Owned(rows[..i + 1], key)) { OwnedNext(rows, i, key); }
    }
    assert rows[..|rows|] == rows;
  }

  /** `if row.key not in index: index[row.key] = row`: the first row of a key wins. */
  method FirstByOwner<T>(rows: seq<Row<T>>) returns (index: map<Id, T>)
    ensures forall key :: Find(index, key) == First(Owned(rows, key))
  {
    index := map[];
    for i := 0 to |rows|
      invariant forall key :: Find(index, key) == First(Owned(rows[..i], key))
    {
      if rows[i].owner !in index { index := index[rows[i].owner := rows[i].value]; }
      forall key ensures Find(index, key) == First(Owned(rows[..i + 1], key)) { OwnedNext(rows, i, key); }
    }
    assert rows[..|rows|] == rows;
  }
}
