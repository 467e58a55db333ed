/**
 * Paginated lead search (src/leadstream/analytics/lead_search.py): page arithmetic over one ordered id
 * list, and the reordering of the rows fetched for a page. The query behind the list is an input.
 */
module LeadSearch {
  import opened Text

  type Id = string

  datatype Entity = Entity(id: Id, kind: string)

  datatype LeadPage = LeadPage(entities: seq<Entity>, count: nat, page: nat, pageSize: nat, totalPages: nat,
                       next: Option<nat>, previous: Option<nat>)

  // ----- hydration -----

  /** `Entity.objects.filter(pk__in=ids)`, in whatever order the table has. */
  function Fetch(table: seq<Entity>, ids: seq<Id>): seq<Entity> {
    if table == [] then [] else (if table[0].id in ids then [table[0]] else []) + Fetch(table[1..], ids)
  }

  /** `{entity.id: entity for entity in rows}` looked up at one id. */
  function ById(rows: seq<Entity>, id: Id): Option<Entity> {
    if rows == [] then None
    else if rows[|rows| - 1].id == id then Some(rows[|rows| - 1])
    else ById(rows[..|rows| - 1], id)
  }

  function InOrder(rows: seq<Entity>, ids: seq<Id>): (r: seq<Entity>)
    ensures |r| <= |ids|
  {
    if ids == [] then []
    else (if ById(rows, ids[0]).Some? then [ById(rows, ids[0]).value] else []) + InOrder(rows, ids[1..])
  }

  function Hydrate(table: seq<Entity>, ids: seq<Id>): seq<Entity> { InOrder(Fetch(table, ids), ids) }

  lemma {:induction false} ByIdAppend(a: seq<Entity>, b: seq<Entity>, id: Id)
    ensures ById(a + b, id) == if ById(b, id).Some? then ById(b, id) else ById(a, id)
  {
    if b == [] {
      assert a + b == a;
    } else {
      assert (a + b)[..|a + b| - 1] == a + b[..|b| - 1];
      ByIdAppend(a, b[..|b| - 1], id);
    }
  }

  lemma {:induction false} FetchedById(table: seq<Entity>, ids: seq<Id>, id: Id)
    requires id in ids
    ensures ById(Fetch(table, ids), id) == ById(table, id)
  {
    if table != [] {
      var head := if table[0].id in ids then [table[0]] else [];
      var rest := Fetch(table[1..], ids);
      if id in ids && table[1..] != [] { FetchedById(table[1..], ids, id); }
      assert Fetch(table, ids) == head + rest;
      assert [table[0]] + table[1..] == table;
      assert ById(head, id) == ById([table[0]], id) by { assert [table[0]][..0] == []; }
      hide Fetch;
      ByIdAppend(head, rest, id);
      ByIdAppend([table[0]], table[1..], id);
    }
  }

  lemma {:induction false} OrderedFromTable(table: seq<Entity>, rows: seq<Entity>, ids: seq<Id>)
    requires forall id :: id in ids ==> ById(rows, id) == ById(table, id)
    ensures InOrder(rows, ids) == InOrder(table, ids)
  {
    if ids != [] { OrderedFromTable(table, rows, ids[1..]); }
  }

  /** Rehydrated, a list of ids gives the table's entity for each id, in the list's order. */
  lemma HydrateMeaning(table: seq<Entity>, ids: seq<Id>)
    ensures Hydrate(table, ids) == InOrder(table, ids)
  {
    forall id | id in ids ensures ById(Fetch(table, ids), id) == ById(table, id) { FetchedById(table, ids, id); }
    OrderedFromTable(table, Fetch(table, ids), ids);
  }

  lemma {:induction false} InOrderAppend(table: seq<Entity>, a: seq<Id>, b: seq<Id>)
    ensures InOrder(table, a + b) == InOrder(table, a) + InOrder(table, b)
  {
    if a == [] {
      assert a + b == b;
    } else {
      var head := if ById(table, a[0]).Some? then [ById(table, a[0]).value] else [];
      InOrderAppend(table, a[1..], b);
      assert (a + b)[1..] == a[1..] + b && (a + b)[0] == a[0];
      hide ById;
      assert head + (InOrder(table, a[1..]) + InOrder(table, b)) == head + InOrder(table, a[1..]) + InOrder(table, b);
    }
  }

  // ----- pages -----

  function Min(a: nat, b: nat): nat { if a < b then a else b }

  /** `query[offset : offset + size]` */
  function Slice(ids: seq<Id>, offset: nat, size: nat): seq<Id> {
    ids[Min(offset, |ids|)..Min(offset + size, |ids|)]
  }

  function TotalPages(count: nat, size: nat): nat
    requires size >= 1
  {
    if count == 0 then 0 else (count - 1) / size + 1
  }

  function SearchLeads(ids: seq<Id>, table: seq<Entity>, page: nat, size: nat): LeadPage
    requires page >= 1 && size >= 1
  {
    var total := TotalPages(|ids|, size);
    LeadPage(Hydrate(table, Slice(ids, (page - 1) * size, size)), |ids|, page, size, total,
         if page < total then Some(page + 1) else None,
         if page > 1 && |ids| > 0 then Some(page - 1) else None)
  }

  lemma {:induction false} TimesMonotone(a: nat, b: nat, c: nat)
    requires a <= b
    ensures a * c <= b * c
  {
    if c > 0 {
      TimesMonotone(a, b, c - 1);
      assert a * c == a * (c - 1) + a && b * c == b * (c - 1) + b;
    }
  }

  /** Page p is followed by another exactly when entries remain after its end. */
  lemma MoreRemain(count: nat, page: nat, size: nat)
    requires size >= 1
    ensures page < TotalPages(count, size) <==> page * size < count
  {
    if count > 0 {
      var q, r := (count - 1) / size, (count - 1) % size;
      assert count - 1 == q * size + r && 0 <= r < size;
      if page <= q {
        TimesMonotone(page, q, size);
      } else {
        TimesMonotone(q + 1, page, size);
        assert (q + 1) * size == q * size + size;
      }
    } else {
      TimesMonotone(0, page, size);
    }
  }

  /** Following `next_page` from a page. */
  function Follow(ids: seq<Id>, table: seq<Entity>, page: nat, size: nat): seq<LeadPage>
    requires page >= 1 && size >= 1
    decreases TotalPages(|ids|, size) - page
  {
    var here := SearchLeads(ids, table, page, size);
    [here] + if here.next.Some? then Follow(ids, table, here.next.value, size) else []
  }

  function AllEntities(pages: seq<LeadPage>): seq<Entity> {
    if pages == [] then [] else pages[0].entities + AllEntities(pages[1..])
  }

  lemma {:induction false} FollowCount(ids: seq<Id>, table: seq<Entity>, page: nat, size: nat)
    requires page >= 1 && size >= 1
    ensures |Follow(ids, table, page, size)|
         == if page < TotalPages(|ids|, size) then TotalPages(|ids|, size) - page + 1 else 1
    decreases TotalPages(|ids|, size) - page
  {
    hide TotalPages, Hydrate, Slice;
    if page < TotalPages(|ids|, size) { FollowCount(ids, table, page + 1, size); }
  }

  lemma FollowStep(ids: seq<Id>, table: seq<Entity>, page: nat, size: nat)
    requires page >= 1 && size >= 1
    ensures AllEntities(Follow(ids, table, page, size))
         == SearchLeads(ids, table, page, size).entities
            + if page < TotalPages(|ids|, size) then AllEntities(Follow(ids, table, page + 1, size)) else []
  {
    hide TotalPages, Hydrate, Slice;
    var here := SearchLeads(ids, table, page, size);
    if page < TotalPages(|ids|, size) {
      var more := Follow(ids, table, page + 1, size);
      assert Follow(ids, table, page, size) == [here] + more && ([here] + more)[1..] == more;
    } else {
      assert Follow(ids, table, page, size) == [here] && [here][1..] == [];
    }
  }

  /** What is left of the result list before a page. */
  function Left(ids: seq<Id>, page: nat, size: nat): seq<Id>
    requires page >= 1
  {
    ids[Min((page - 1) * size, |ids|)..]
  }

  lemma {:induction false} FollowFrom(ids: seq<Id>, table: seq<Entity>, page: nat, size: nat)
    requires page >= 1 && size >= 1
    ensures AllEntities(Follow(ids, table, page, size)) == InOrder(table, Left(ids, page, size))
    decreases TotalPages(|ids|, size) - page
  {
    FollowStep(ids, table, page, size);
    PageEntities(ids, table, page, size);
    MoreRemain(|ids|, page, size);
    if page < TotalPages(|ids|, size) {
      FollowFrom(ids, table, page + 1, size);
    } else {
      assert Left(ids, page + 1, size) == [];
      assert InOrder(table, []) == [];
    }
  }

  lemma PageEntities(ids: seq<Id>, table: seq<Entity>, page: nat, size: nat)
    requires page >= 1 && size >= 1
    ensures InOrder(table, Left(ids, page, size))
         == SearchLeads(ids, table, page, size).entities + InOrder(table, Left(ids, page + 1, size))
  {
    var offset := (page - 1) * size;
    assert offset + size == page * size;
    var part, rest := Slice(ids, offset, size), Left(ids, page + 1, size);
    HydrateMeaning(table, part);
    InOrderAppend(table, part, rest);
    assert rest == ids[Min(offset + size, |ids|)..];
    assert part + rest == ids[Min(offset, |ids|)..] == Left(ids, page, size);
  }

  /**
   * From page 1, following `next_page` visits exactly `total_pages` pages (one when there is no
   * result), and their entities together are the whole ordered result.
   */
  lemma FollowAll(ids: seq<Id>, table: seq<Entity>, size: nat)
    requires size >= 1
    ensures AllEntities(Follow(ids, table, 1, size)) == Hydrate(table, ids)
    ensures |Follow(ids, table, 1, size)| == if ids == [] then 1 else TotalPages(|ids|, size)
  {
    FollowFrom(ids, table, 1, size);
    FollowCount(ids, table, 1, size);
    HydrateMeaning(table, ids);
    assert ids[0..] == ids;
    MoreRemain(|ids|, 0, size);
  }

  ghost predicate InTable(table: seq<Entity>, id: Id) { exists e :: e in table && e.id == id }

  /** `at` lists, in order, the places of the ids that name a row of the table; `rows` are such rows. */
  ghost predicate NamedPlaces(table: seq<Entity>, ids: seq<Id>, rows: seq<Entity>, at: seq<nat>) {
    && |at| == |rows|
    && (forall j, k :: 0 <= j < k < |at| ==> at[j] < at[k])
    && (forall k :: 0 <= k < |at| ==> at[k] < |ids| && rows[k].id == ids[at[k]] && rows[k] in table)
    && (forall i :: 0 <= i < |ids| ==> (i in at <==> InTable(table, ids[i])))
  }

  lemma NamedSnoc(table: seq<Entity>, ids: seq<Id>, rows: seq<Entity>, at: seq<nat>, e: Option<Entity>)
    requires ids != [] && NamedPlaces(table, ids[..|ids| - 1], rows, at)
    requires e.Some? <==> InTable(table, ids[|ids| - 1])
    requires e.Some? ==> e.value in table && e.value.id == ids[|ids| - 1]
    ensures if e.Some? then NamedPlaces(table, ids, rows + [e.value], at + [|ids| - 1])
            else NamedPlaces(table, ids, rows, at)
  {
    hide InTable;
    var n := |ids| - 1;
    assert forall i :: 0 <= i < n ==> ids[..n][i] == ids[i];
  }

  lemma {:induction false} OrderedPlaces(table: seq<Entity>, ids: seq<Id>) returns (at: seq<nat>)
    ensures NamedPlaces(table, ids, InOrder(table, ids), at)
  {
    at := [];
    if ids != [] {
      var n := |ids| - 1;
      at := OrderedPlaces(table, ids[..n]);
      assert ids == ids[..n] + [ids[n]] && [ids[n]][1..] == [];
      InOrderAppend(table, ids[..n], [ids[n]]);
      FoundId(table, ids[n]);
      var e := ById(table, ids[n]);
      assert InOrder(table, [ids[n]]) == (if e.Some? then [e.value] else []) + InOrder(table, []);
      NamedSnoc(table, ids, InOrder(table, ids[..n]), at, e);
      assert InOrder(table, ids[..n]) + [] == InOrder(table, ids[..n]);
      if e.Some? { at := at + [n]; }
    }
  }

  /** The entities of a page are rows of the table for the page's ids, in their order, none left out that exists. */
  lemma PageShows(ids: seq<Id>, table: seq<Entity>, page: nat, size: nat) returns (at: seq<nat>)
    requires page >= 1 && size >= 1
    ensures var first, last := Min((page - 1) * size, |ids|), Min(page * size, |ids|);
      first <= last && NamedPlaces(table, ids[first..last], SearchLeads(ids, table, page, size).entities, at)
  {
    var part := Slice(ids, (page - 1) * size, size);
    TimesMonotone(0, page - 1, size);
    assert (page - 1) * size + size == page * size;
    hide Hydrate, NamedPlaces, InOrder, TotalPages, InTable;
    HydrateMeaning(table, part);
    at := OrderedPlaces(table, part);
  }

  /** When the table has a row for every id, entity k of page p is that of id (p - 1) * size + k. */
  lemma PageComplete(ids: seq<Id>, table: seq<Entity>, page: nat, size: nat)
    requires page >= 1 && size >= 1 && forall id :: id in ids ==> InTable(table, id)
    ensures var entities, first := SearchLeads(ids, table, page, size).entities, (page - 1) * size;
      && |entities| == (if first >= |ids| then 0 else if first + size <= |ids| then size else |ids| - first)
      && forall k :: 0 <= k < |entities| ==> entities[k].id == ids[first + k] && entities[k] in table
  {
    var first := (page - 1) * size;
    assert first + size == page * size && first >= 0;
    var at := PageShows(ids, table, page, size);
    var part := ids[Min(first, |ids|)..Min(first + size, |ids|)];
    forall i | 0 <= i < |part| ensures i in at { assert part[i] in ids; }
    Everywhere(at, |part|);
    hide SearchLeads, InTable;
  }

  /** Increasing places that leave none out are all places. */
  lemma Everywhere(at: seq<nat>, n: nat)
    requires forall j, k :: 0 <= j < k < |at| ==> at[j] < at[k]
    requires forall i: nat :: i < n <==> i in at
    ensures |at| == n && forall k :: 0 <= k < n ==> at[k] == k
  {
    if at == [] {
      assert n == 0 || 0 in at;
    } else {
      var m := |at| - 1;
      assert at[m] in at && n > 0 && n - 1 in at;
      assert at[m] == n - 1;
      var before := at[..m];
      forall i: nat ensures i < n - 1 <==> i in before {
        if i < n - 1 {
          assert i in at;
          var k :| 0 <= k < |at| && at[k] == i;
          assert k < m && before[k] == i;
        }
        if i in before {
          var k :| 0 <= k < |before| && before[k] == i;
          assert at[k] < at[m];
        }
      }
      Everywhere(before, n - 1);
    }
  }

  /** No entity comes twice when the ordered id list has no id twice. */
  lemma {:induction false} NoneTwice(table: seq<Entity>, ids: seq<Id>)
    requires forall i, j :: 0 <= i < j < |ids| ==> ids[i] != ids[j]
    ensures forall e :: e in InOrder(table, ids) ==> e.id in ids
    ensures forall i, j :: 0 <= i < j < |InOrder(table, ids)| ==> InOrder(table, ids)[i].id != InOrder(table, ids)[j].id
  {
    if ids != [] {
      NoneTwice(table, ids[1..]);
      FoundId(table, ids[0]);
      assert ids[0] !in ids[1..];
    }
  }

  lemma {:induction false} FoundId(rows: seq<Entity>, id: Id)
    ensures ById(rows, id).Some? ==> ById(rows, id).value.id == id && ById(rows, id).value in rows
    ensures ById(rows, id).None? ==> forall e :: e in rows ==> e.id != id
  {
    if rows != [] {
      FoundId(rows[..|rows| - 1], id);
      assert forall e :: e in rows <==> e in rows[..|rows| - 1] || e == rows[|rows| - 1];
    }
  }

  /** A next page is named exactly when entries remain, a previous one exactly behind page 1 of a non-empty result. */
  lemma PageLinks(ids: seq<Id>, table: seq<Entity>, page: nat, size: nat)
    requires page >= 1 && size >= 1
    ensures var here := SearchLeads(ids, table, page, size);
      && here.count == |ids|
      && here.next == (if page * size < |ids| then Some(page + 1) else None)
      && here.previous == (if page == 1 || ids == [] then None else Some(page - 1))
  {
    MoreRemain(|ids|, page, size);
    hide TotalPages, Hydrate;
  }

  /** `previous_page` undoes `next_page`. */
  lemma PreviousUndoesNext(ids: seq<Id>, table: seq<Entity>, page: nat, size: nat)
    requires page >= 1 && size >= 1
    ensures var here := SearchLeads(ids, table, page, size);
      here.next.Some? ==> SearchLeads(ids, table, here.next.value, size).previous == Some(page)
    ensures var here := SearchLeads(ids, table, page, size);
      here.previous.Some? && page <= here.totalPages ==>
        SearchLeads(ids, table, here.previous.value, size).next == Some(page)
  {
  }
}
