/**
 * The rows of a commercial export in terms of the raw tables (src/leadstream/batches/exporter.py): which
 * relationship, company and profile rows they come from, and what stands under each column.
 */
module CommercialRows {
  import opened Text
  import opened Tables
  import opened CommercialJoin
  import opened CommercialExporter
  import opened CommercialProperties

  // ----- the newest relationships first, none lost -----

  lemma {:induction false} InsertKeeps(row: Row<Relationship>, rows: seq<Row<Relationship>>)
    ensures multiset(InsertByDate(row, rows)) == multiset([row]) + multiset(rows)
  {
    if rows != [] {
      assert rows == [rows[0]] + rows[1..];
      if row.value.createdAt < rows[0].value.createdAt { InsertKeeps(row, rows[1..]); }
    }
  }

  /** The ordered query holds the rows it orders, each as often. */
  lemma {:induction false} NewestKeeps(rows: seq<Row<Relationship>>)
    ensures multiset(NewestFirst(rows)) == multiset(rows)
  {
    if rows != [] {
      NewestKeeps(rows[1..]);
      InsertKeeps(rows[0], NewestFirst(rows[1..]));
      assert rows == [rows[0]] + rows[1..];
    }
  }

  /** `at` lists places of a table in order of date, newest first, and of place among equal dates. */
  ghost predicate InOrderOfDate(table: seq<Row<Relationship>>, at: seq<nat>) {
    && (forall k :: 0 <= k < |at| ==> at[k] < |table|)
    && (forall j, k :: 0 <= j < k < |at| ==> Precedes(table, at[j], at[k]))
  }

  ghost predicate Precedes(table: seq<Row<Relationship>>, i: nat, j: nat)
    requires i < |table| && j < |table|
  {
    table[i].value.createdAt > table[j].value.createdAt
    || (table[i].value.createdAt == table[j].value.createdAt && i < j)
  }

  function Shifted(at: seq<nat>): (r: seq<nat>)
    ensures |r| == |at|
    ensures forall k :: 0 <= k < |r| ==> r[k] == at[k] + 1
  {
    if at == [] then [] else [at[0] + 1] + Shifted(at[1..])
  }

  function Values(table: seq<Row<Relationship>>, at: seq<nat>): (r: seq<Row<Relationship>>)
    requires forall k :: 0 <= k < |at| ==> at[k] < |table|
    ensures |r| == |at|
    ensures forall k :: 0 <= k < |r| ==> r[k] == table[at[k]]
  {
    if at == [] then [] else [table[at[0]]] + Values(table, at[1..])
  }

  ghost predicate Lists(table: seq<Row<Relationship>>, rows: seq<Row<Relationship>>, at: seq<nat>) {
    InOrderOfDate(table, at) && rows == Values(table, at)
  }

  lemma ListsTail(table: seq<Row<Relationship>>, rows: seq<Row<Relationship>>, at: seq<nat>)
    requires Lists(table, rows, at) && at != []
    ensures Lists(table, rows[1..], at[1..]) && rows[0] == table[at[0]]
    ensures forall k :: 0 <= k < |at[1..]| ==> Precedes(table, at[0], at[1..][k])
    ensures forall i :: i in at <==> i == at[0] || i in at[1..]
  {
    hide Precedes;
    assert at == [at[0]] + at[1..];
  }

  lemma ListsCons(table: seq<Row<Relationship>>, rows: seq<Row<Relationship>>, i: nat, at: seq<nat>)
    requires Lists(table, rows, at) && i < |table| && forall k :: 0 <= k < |at| ==> Precedes(table, i, at[k])
    ensures Lists(table, [table[i]] + rows, [i] + at)
    ensures forall m :: m in [i] + at <==> m == i || m in at
  {
    hide Precedes;
    assert ([i] + at)[1..] == at;
  }

  /** Row 0, at least as new as the first of the others, precedes them all. */
  lemma FirstPrecedes(table: seq<Row<Relationship>>, rows: seq<Row<Relationship>>, at: seq<nat>)
    requires table != [] && Lists(table, rows, at) && forall k :: 0 <= k < |at| ==> at[k] > 0
    requires at != [] ==> table[0].value.createdAt >= table[at[0]].value.createdAt
    ensures forall k :: 0 <= k < |at| ==> Precedes(table, 0, at[k])
  {
    hide Values;
    forall k | 0 <= k < |at| ensures Precedes(table, 0, at[k]) {
      if k > 0 { assert Precedes(table, at[0], at[k]); }
    }
  }

  /** Inserting row 0 of a table among its later rows, which stand in order. */
  lemma {:induction false} InsertPlace(table: seq<Row<Relationship>>, rows: seq<Row<Relationship>>, at: seq<nat>)
    returns (r: seq<nat>)
    requires table != [] && Lists(table, rows, at) && forall k :: 0 <= k < |at| ==> at[k] > 0
    ensures Lists(table, InsertByDate(table[0], rows), r)
    ensures forall i :: i in r <==> i == 0 || i in at
  {
    if at != [] { ListsTail(table, rows, at); }
    if rows == [] || table[0].value.createdAt >= rows[0].value.createdAt {
      FirstPrecedes(table, rows, at);
      hide Precedes, Values, InOrderOfDate;
      r := [0] + at;
      ListsCons(table, rows, 0, at);
    } else {
      assert Precedes(table, at[0], 0);
      hide Precedes, Values, InOrderOfDate;
      var rest := InsertPlace(table, rows[1..], at[1..]);
      forall k | 0 <= k < |rest| ensures Precedes(table, at[0], rest[k]) {
        assert rest[k] in rest;
        if rest[k] != 0 {
          var j :| 0 <= j < |at[1..]| && at[1..][j] == rest[k];
        }
      }
      r := [at[0]] + rest;
      ListsCons(table, InsertByDate(table[0], rows[1..]), at[0], rest);
    }
  }

  lemma ShiftedMembers(at: seq<nat>)
    ensures forall i :: i in Shifted(at) <==> i > 0 && i - 1 in at
  {
    var up := Shifted(at);
    forall i | i > 0 && i - 1 in at ensures i in up {
      var k :| 0 <= k < |at| && at[k] == i - 1;
      assert up[k] == i;
    }
  }

  lemma ShiftedLists(table: seq<Row<Relationship>>, rows: seq<Row<Relationship>>, at: seq<nat>)
    requires table != [] && Lists(table[1..], rows, at)
    ensures Lists(table, rows, Shifted(at))
  {
    var up := Shifted(at);
    assert forall k :: 0 <= k < |at| ==> table[1..][at[k]] == table[up[k]];
    forall j, k | 0 <= j < k < |up| ensures Precedes(table, up[j], up[k]) { assert Precedes(table[1..], at[j], at[k]); }
    hide Precedes;
    assert rows == Values(table, up);
  }

  /** The ordered query is the table read at all its places, in order of date and of place. */
  lemma {:induction false} NewestPlaces(table: seq<Row<Relationship>>) returns (at: seq<nat>)
    ensures Lists(table, NewestFirst(table), at)
    ensures forall i :: 0 <= i < |table| <==> i in at
  {
    at := [];
    if table != [] {
      var later := NewestPlaces(table[1..]);
      ShiftedLists(table, NewestFirst(table[1..]), later);
      ShiftedMembers(later);
      at := InsertPlace(table, NewestFirst(table[1..]), Shifted(later));
      forall i | 0 <= i < |table| ensures i in at { assert i == 0 || i - 1 in later; }
      forall i | i in at ensures 0 <= i < |table| {}
    }
  }

  // ----- the relationships of a company -----

  ghost predicate OfCompany(db: Database, id: Id, i: int) {
    OwnedAt(db.relationships, db.tenant, id, i)
  }

  ghost predicate OwnedAt<T>(rows: seq<Row<T>>, tenant: Id, id: Id, i: int) {
    0 <= i < |rows| && rows[i].owner == id && rows[i].tenant == tenant
  }

  /** `at` lists the places of the rows of one owner and tenant, in row order, and `values` their values. */
  ghost predicate OwnedList<T>(rows: seq<Row<T>>, tenant: Id, id: Id, values: seq<T>, at: seq<nat>) {
    && |at| == |values|
    && (forall j, k :: 0 <= j < k < |at| ==> at[j] < at[k])
    && (forall k :: 0 <= k < |at| ==> OwnedAt(rows, tenant, id, at[k]) && values[k] == rows[at[k]].value)
    && (forall i :: OwnedAt(rows, tenant, id, i) ==> i in at)
  }

  lemma OwnedListSnoc<T>(rows: seq<Row<T>>, tenant: Id, id: Id, values: seq<T>, at: seq<nat>)
    requires rows != [] && OwnedList(rows[..|rows| - 1], tenant, id, values, at)
    ensures var n := |rows| - 1;
      if OwnedAt(rows, tenant, id, n) then OwnedList(rows, tenant, id, values + [rows[n].value], at + [n])
      else OwnedList(rows, tenant, id, values, at)
  {
    var n := |rows| - 1;
    assert forall i :: 0 <= i < n ==> rows[..n][i] == rows[i];
    assert forall i ::
      OwnedAt(rows, tenant, id, i) <==> OwnedAt(rows[..n], tenant, id, i) || (i == n && OwnedAt(rows, tenant, id, n));
    hide OwnedAt;
  }

  lemma {:induction false} OwnedPlaces<T>(rows: seq<Row<T>>, tenant: Id, id: Id) returns (at: seq<nat>)
    ensures OwnedList(rows, tenant, id, Owned(Where(rows, tenant, {id}), id), at)
  {
    at := [];
    if rows != [] {
      var n := |rows| - 1;
      at := OwnedPlaces(rows[..n], tenant, id);
      OwnedSnoc(rows, tenant, id);
      var before := Owned(Where(rows[..n], tenant, {id}), id);
      hide Owned, Where, OwnedList;
      OwnedListSnoc(rows, tenant, id, before, at);
      assert before + [] == before;
      if OwnedAt(rows, tenant, id, n) { at := at + [n]; }
    }
  }

  lemma {:induction false} WhereAppend<T>(a: seq<Row<T>>, b: seq<Row<T>>, tenant: Id, keys: set<Id>)
    ensures Where(a + b, tenant, keys) == Where(a, tenant, keys) + Where(b, tenant, keys)
  {
    if a == [] {
      assert a + b == b;
    } else {
      assert (a + b)[1..] == a[1..] + b && (a + b)[0] == a[0];
      WhereAppend(a[1..], b, tenant, keys);
    }
  }

  lemma OwnedSnoc<T>(rows: seq<Row<T>>, tenant: Id, id: Id)
    requires rows != []
    ensures var n := |rows| - 1;
      Owned(Where(rows, tenant, {id}), id)
      == Owned(Where(rows[..n], tenant, {id}), id)
         + if rows[n].owner == id && rows[n].tenant == tenant then [rows[n].value] else []
  {
    var n := |rows| - 1;
    assert rows == rows[..n] + [rows[n]] && [rows[n]][1..] == [];
    WhereAppend(rows[..n], [rows[n]], tenant, {id});
    OwnedAppend(Where(rows[..n], tenant, {id}), Where([rows[n]], tenant, {id}), id);
  }

  /**
   * The relationships of a company are those of the raw table with its owner and tenant, every one of
   * them once, newest first and in table order among equal dates.
   */
  lemma RelationshipPlaces(db: Database, id: Id) returns (at: seq<nat>)
    ensures InOrderOfDate(db.relationships, at) && |at| == |RelationshipsOf(db, id)|
    ensures forall k :: 0 <= k < |at| ==> db.relationships[at[k]].value == RelationshipsOf(db, id)[k]
    ensures forall i :: OfCompany(db, id, i) <==> i in at
  {
    var table, sorted := db.relationships, NewestFirst(db.relationships);
    NewestWhere(table, db.tenant, {id});
    assert RelationshipsOf(db, id) == Owned(Where(sorted, db.tenant, {id}), id);
    var places := NewestPlaces(table);
    var kept := OwnedPlaces(sorted, db.tenant, id);
    hide NewestFirst, Where, Owned, OwnedList, Lists, RelationshipsOf;
    KeptPlaces(table, sorted, db.tenant, id, RelationshipsOf(db, id), places, kept);
    PickedOrder(table, sorted, db.tenant, id, RelationshipsOf(db, id), places, kept);
    PickedAll(table, sorted, db.tenant, id, RelationshipsOf(db, id), places, kept);
    at := Picked(places, kept);
  }

  lemma KeptPlaces(table: seq<Row<Relationship>>, sorted: seq<Row<Relationship>>, tenant: Id, id: Id,
                   values: seq<Relationship>, places: seq<nat>, kept: seq<nat>)
    requires Lists(table, sorted, places) && OwnedList(sorted, tenant, id, values, kept)
    ensures |kept| == |values|
    ensures forall k :: 0 <= k < |kept| ==> kept[k] < |places| && places[kept[k]] < |table|
    ensures forall k :: 0 <= k < |kept| ==> OwnedAt(table, tenant, id, places[kept[k]])
    ensures forall k :: 0 <= k < |kept| ==> values[k] == table[places[kept[k]]].value
  {
    forall k | 0 <= k < |kept|
      ensures kept[k] < |places| && OwnedAt(table, tenant, id, places[kept[k]])
      ensures values[k] == table[places[kept[k]]].value
    {
      assert OwnedAt(sorted, tenant, id, kept[k]);
    }
  }

  lemma PickedOrder(table: seq<Row<Relationship>>, sorted: seq<Row<Relationship>>, tenant: Id, id: Id,
                    values: seq<Relationship>, places: seq<nat>, kept: seq<nat>)
    requires Lists(table, sorted, places) && OwnedList(sorted, tenant, id, values, kept)
    ensures (forall k :: 0 <= k < |kept| ==> kept[k] < |places|) && InOrderOfDate(table, Picked(places, kept))
  {
    KeptPlaces(table, sorted, tenant, id, values, places, kept);
    hide Precedes, OwnedAt, Values;
    var at := Picked(places, kept);
    forall j, k | 0 <= j < k < |at| ensures Precedes(table, at[j], at[k]) {
      assert kept[j] < kept[k] && Precedes(table, places[kept[j]], places[kept[k]]);
    }
  }

  lemma PickedAll(table: seq<Row<Relationship>>, sorted: seq<Row<Relationship>>, tenant: Id, id: Id,
                  values: seq<Relationship>, places: seq<nat>, kept: seq<nat>)
    requires Lists(table, sorted, places) && OwnedList(sorted, tenant, id, values, kept)
    requires forall i :: 0 <= i < |table| <==> i in places
    ensures forall k :: 0 <= k < |kept| ==> kept[k] < |places|
    ensures forall i :: OwnedAt(table, tenant, id, i) <==> i in Picked(places, kept)
  {
    KeptPlaces(table, sorted, tenant, id, values, places, kept);
    var at := Picked(places, kept);
    hide Precedes, InOrderOfDate;
    forall i | OwnedAt(table, tenant, id, i) ensures i in at {
      assert i in places;
      var j :| 0 <= j < |places| && places[j] == i;
      assert sorted[j] == table[i] && OwnedAt(sorted, tenant, id, j);
      assert j in kept;
      var k :| 0 <= k < |kept| && kept[k] == j;
      assert at[k] == i;
    }
    hide OwnedAt;
    forall i | i in at ensures OwnedAt(table, tenant, id, i) {
      var k :| 0 <= k < |at| && at[k] == i;
    }
  }

  function Picked(places: seq<nat>, kept: seq<nat>): (r: seq<nat>)
    requires forall k :: 0 <= k < |kept| ==> kept[k] < |places|
    ensures |r| == |kept|
    ensures forall k :: 0 <= k < |r| ==> r[k] == places[kept[k]]
  {
    if kept == [] then [] else [places[kept[0]]] + Picked(places, kept[1..])
  }

  // ----- the company -----

  ghost predicate CompanyRowAt(db: Database, id: Id, i: int) {
    0 <= i < |db.companies| && db.companies[i].owner == id && db.companies[i].tenant == db.tenant
  }

  /** The company of an entity is the last row of the table with that owner and tenant, if there is one. */
  lemma CompanyIsLast(db: Database, id: Id) returns (i: int)
    ensures match CompanyOf(db, id)
      case None => forall j :: !CompanyRowAt(db, id, j)
      case Some(company) =>
        CompanyRowAt(db, id, i) && company == db.companies[i].value && forall j :: CompanyRowAt(db, id, j) ==> j <= i
  {
    var at := OwnedPlaces(db.companies, db.tenant, id);
    hide Owned, Where;
    i := if at == [] then -1 else at[|at| - 1];
    assert at != [] ==> OwnedAt(db.companies, db.tenant, id, i);
    forall j | CompanyRowAt(db, id, j) ensures at != [] && j <= i {
      assert OwnedAt(db.companies, db.tenant, id, j);
      var k :| 0 <= k < |at| && at[k] == j;
      assert k == |at| - 1 || at[k] < at[|at| - 1];
    }
  }

  ghost predicate HasCompany(db: Database, id: Id) { exists i :: CompanyRowAt(db, id, i) }

  lemma CompanyFound(db: Database, item: Item)
    ensures ItemCompany(db, item).Some? <==> item.entity.Some? && HasCompany(db, item.entity.value)
  {
    if item.entity.Some? {
      var i := CompanyIsLast(db, item.entity.value);
      hide CompanyOf;
    }
  }

  // ----- the rows of an item -----

  /** The item's rows come from relationships: decision makers are asked for and the company has some. */
  ghost predicate ShowsDecisionMakers(db: Database, level: Level, item: Item) {
    level.DECISION_MAKER? && item.entity.Some? && HasCompany(db, item.entity.value)
    && exists i :: OfCompany(db, item.entity.value, i)
  }

  lemma RelationshipsShown(db: Database, level: Level, item: Item) returns (at: seq<nat>)
    ensures ItemRelationships(db, level, item) != [] <==> ShowsDecisionMakers(db, level, item)
    ensures ShowsDecisionMakers(db, level, item) ==>
      && InOrderOfDate(db.relationships, at) && |at| == |ItemRelationships(db, level, item)|
      && (forall k :: 0 <= k < |at| ==> db.relationships[at[k]].value == ItemRelationships(db, level, item)[k])
      && (forall i :: OfCompany(db, item.entity.value, i) <==> i in at)
  {
    at := [];
    CompanyFound(db, item);
    if level.DECISION_MAKER? && ItemCompany(db, item).Some? {
      at := RelationshipPlaces(db, item.entity.value);
      hide RelationshipsOf, ItemCompany, HasCompany, OfCompany, InOrderOfDate;
      if at != [] { assert at[0] in at; }
      assert at == [] <==> !exists i :: OfCompany(db, item.entity.value, i);
    } else {
      hide RelationshipsOf, ItemCompany, HasCompany;
    }
  }

  /**
   * An item whose company is known and has relationships gets, at decision-maker level, one row for each
   * of them, newest first; any other item gets one row, which names no decision maker. The counter of
   * decision makers is the number of those relationships.
   */
  lemma RowsOfItem(db: Database, level: Level, item: Item) returns (at: seq<nat>)
    ensures var rows, report := ItemRows(db, level, item), ItemReport(db, level, item);
      if ShowsDecisionMakers(db, level, item) then
        && |at| > 0 && InOrderOfDate(db.relationships, at)
        && (forall i :: OfCompany(db, item.entity.value, i) <==> i in at)
        && |rows| == |at| == report.decisionMakers
        && forall k :: 0 <= k < |at| ==> NamesDecisionMaker(rows[k], db.relationships[at[k]].value)
      else
        |rows| == 1 && report.decisionMakers == 0 && rows[0].decisor == Decisor("", "", "", "", "", "")
  {
    hide *;
    at := RelationshipsShown(db, level, item);
    ReportParts(db, level, item);
    DecisionMakerNames(db, item, ItemRelationships(db, level, item));
  }

  lemma ReportParts(db: Database, level: Level, item: Item)
    ensures var rows, rels := ItemRows(db, level, item), ItemRelationships(db, level, item);
      && ItemReport(db, level, item).decisionMakers == |rels|
      && (rels != [] ==> item.entity.Some? && rows == DecisorRows(db, item, rels))
      && (rels == [] ==> |rows| == 1 && rows[0].decisor == Decisor("", "", "", "", "", ""))
  {
    hide RelationshipsOf, DecisorRows, ItemRegistry, ItemProcessing, ItemContacts, ItemReached, ChannelCells;
  }

  /** The cells of a row that describe the decision maker. */
  ghost predicate NamesDecisionMaker(row: LeadRow, rel: Relationship) {
    && row.decisor.nome == rel.person.fullName
    && row.decisor.cargo == (if rel.observedTitle == "" then rel.normalizedTitle else rel.observedTitle)
    && row.decisor.qualificacao == rel.qualification && row.decisor.papelCompra == rel.buyingRole
    && row.decisor.senioridade == rel.seniority
  }

  lemma DecisionMakerNames(db: Database, item: Item, rels: seq<Relationship>)
    ensures forall k :: 0 <= k < |rels| ==> NamesDecisionMaker(DecisorRows(db, item, rels)[k], rels[k])
  {
    hide ItemRegistry, ItemProcessing, ItemContacts, ContactsOf, SocialsOf, ChannelCells, FirstLinkedIn, Channel;
    forall k | 0 <= k < |rels| ensures NamesDecisionMaker(DecisorRows(db, item, rels)[k], rels[k]) {
      DecisorRowAt(db, item, rels, k);
    }
  }

  /** The counter of decision makers over all items, from the raw table. */
  ghost function RelationshipCount(db: Database, id: Id): nat {
    |set i | 0 <= i < |db.relationships| && OfCompany(db, id, i)|
  }

  ghost function DecisionMakersDue(db: Database, level: Level, items: seq<Item>): nat {
    if items == [] then 0
    else
      var item := items[|items| - 1];
      DecisionMakersDue(db, level, items[..|items| - 1])
      + if ShowsDecisionMakers(db, level, item) then RelationshipCount(db, item.entity.value) else 0
  }

  ghost function PlaceSet(at: seq<nat>): (r: set<int>) {
    if at == [] then {} else PlaceSet(at[..|at| - 1]) + {at[|at| - 1]}
  }

  lemma {:induction false} PlacesSize(at: seq<nat>)
    requires forall j, k :: 0 <= j < k < |at| ==> at[j] != at[k]
    ensures |PlaceSet(at)| == |at| && forall i :: i in PlaceSet(at) <==> i in at
  {
    if at != [] {
      var n := |at| - 1;
      PlacesSize(at[..n]);
      assert at == at[..n] + [at[n]];
      assert at[n] !in at[..n];
    }
  }

  /** Every export counts as decision makers exactly the relationship rows of its items' known companies. */
  lemma {:induction false} DecisionMakersCounted(db: Database, level: Level, items: seq<Item>)
    ensures NaiveJoin(db, level, items).decisionMakers == DecisionMakersDue(db, level, items)
  {
    if items != [] {
      DecisionMakersCounted(db, level, items[..|items| - 1]);
      DueOfItem(db, level, items[|items| - 1]);
      hide ItemReport, ShowsDecisionMakers, RelationshipCount;
    }
  }

  lemma DueOfItem(db: Database, level: Level, item: Item)
    ensures ItemReport(db, level, item).decisionMakers
         == if ShowsDecisionMakers(db, level, item) then RelationshipCount(db, item.entity.value) else 0
  {
    assert ShowsDecisionMakers(db, level, item) ==> item.entity.Some?;
    hide *;
    var at := RowsOfItem(db, level, item);
    if ShowsDecisionMakers(db, level, item) { DueOfPlaces(db, item.entity.value, at); }
    assert !ShowsDecisionMakers(db, level, item) ==> ItemReport(db, level, item).decisionMakers == 0;
  }

  lemma DueOfPlaces(db: Database, id: Id, at: seq<nat>)
    requires InOrderOfDate(db.relationships, at) && forall i :: OfCompany(db, id, i) <==> i in at
    ensures |at| == RelationshipCount(db, id)
  {
    forall j, k | 0 <= j < k < |at| ensures at[j] != at[k] { assert Precedes(db.relationships, at[j], at[k]); }
    PlacesSize(at);
    assert PlaceSet(at) == set i | 0 <= i < |db.relationships| && OfCompany(db, id, i);
  }

  // ----- direct contacts -----

  /** The person or the company has a contact that may be shown. */
  ghost predicate Reaches(db: Database, person: Id, company: Id) {
    Offers(db, person, true) || Offers(db, person, false) || Offers(db, company, true) || Offers(db, company, false)
  }

  ghost predicate ReachesAt(db: Database, id: Id, i: int) {
    0 <= i < |db.relationships| && Reaches(db, db.relationships[i].value.person.entity, id)
  }

  lemma ReachedExact(db: Database, person: Id, company: Id)
    ensures Reached(ContactsOf(db, person), ContactsOf(db, company)) == if Reaches(db, person, company) then 1 else 0
    ensures Reached([], ContactsOf(db, company)) == if Reaches(db, company, company) then 1 else 0
  {
    FirstShown(db, person, true);
    FirstShown(db, person, false);
    FirstShown(db, company, true);
    FirstShown(db, company, false);
    assert FirstServing([], true).None? && FirstServing([], false).None?;
    hide FirstServing, ContactsOf, Offers, ShowsFirst;
  }

  /** The places among `at` whose row reaches somebody. */
  ghost function ReachingPlaces(db: Database, id: Id, at: seq<nat>): set<int> {
    set i | i in PlaceSet(at) && ReachesAt(db, id, i)
  }

  lemma ReachingSnoc(db: Database, id: Id, at: seq<nat>, i: nat)
    requires i !in at && forall j, k :: 0 <= j < k < |at| ==> at[j] != at[k]
    ensures |ReachingPlaces(db, id, at + [i])| == |ReachingPlaces(db, id, at)| + if ReachesAt(db, id, i) then 1 else 0
  {
    hide ReachesAt;
    PlacesSize(at);
    assert (at + [i])[..|at|] == at;
    assert PlaceSet(at + [i]) == PlaceSet(at) + {i};
    assert ReachingPlaces(db, id, at + [i]) == ReachingPlaces(db, id, at) + if ReachesAt(db, id, i) then {i} else {};
  }

  lemma ReachedNext(db: Database, item: Item, rels: seq<Relationship>)
    requires item.entity.Some? && rels != []
    ensures var n := |rels| - 1;
      DecisorsReached(db, item, rels)
      == DecisorsReached(db, item, rels[..n])
         + if Reaches(db, rels[n].person.entity, item.entity.value) then 1 else 0
  {
    ReachedExact(db, rels[|rels| - 1].person.entity, item.entity.value);
    hide Reached, ContactsOf, Reaches;
  }

  lemma {:induction false} ReachedPlaces(db: Database, item: Item, rels: seq<Relationship>, at: seq<nat>)
    requires item.entity.Some? && |at| == |rels| && forall j, k :: 0 <= j < k < |at| ==> at[j] != at[k]
    requires forall k :: 0 <= k < |at| ==> at[k] < |db.relationships| && rels[k] == db.relationships[at[k]].value
    ensures DecisorsReached(db, item, rels) == |ReachingPlaces(db, item.entity.value, at)|
  {
    hide Reaches, DecisorsReached, ReachingPlaces;
    var id := item.entity.value;
    if rels == [] {
      NoneReached(db, item);
      assert at == [];
    } else {
      var n := |rels| - 1;
      ReachedPlaces(db, item, rels[..n], at[..n]);
      ReachedNext(db, item, rels);
      ReachingSnoc(db, id, at[..n], at[n]);
      assert at[..n] + [at[n]] == at;
    }
  }

  lemma NoneReached(db: Database, item: Item)
    requires item.entity.Some?
    ensures DecisorsReached(db, item, []) == 0 && ReachingPlaces(db, item.entity.value, []) == {}
  {
  }

  /** How many of an item's rows reach somebody, from the raw tables. */
  ghost function ContactsOfItem(db: Database, level: Level, item: Item): nat {
    if ShowsDecisionMakers(db, level, item) then
      var id := item.entity.value;
      |set i | 0 <= i < |db.relationships| && OfCompany(db, id, i) && ReachesAt(db, id, i)|
    else if item.entity.Some? && Reaches(db, item.entity.value, item.entity.value) then 1
    else 0
  }

  ghost function ContactsDue(db: Database, level: Level, items: seq<Item>): nat {
    if items == [] then 0
    else ContactsDue(db, level, items[..|items| - 1]) + ContactsOfItem(db, level, items[|items| - 1])
  }

  lemma ContactsOfItemExact(db: Database, level: Level, item: Item)
    ensures ItemReport(db, level, item).directContacts == ContactsOfItem(db, level, item)
  {
    var at := RelationshipsShown(db, level, item);
    var rels := ItemRelationships(db, level, item);
    if ShowsDecisionMakers(db, level, item) {
      forall j, k | 0 <= j < k < |at| ensures at[j] != at[k] { assert Precedes(db.relationships, at[j], at[k]); }
      var id := item.entity.value;
      ReachedPlaces(db, item, rels, at);
      PlacesSize(at);
      hide *;
      assert ReachingPlaces(db, id, at)
        == set i | 0 <= i < |db.relationships| && OfCompany(db, id, i) && ReachesAt(db, id, i);
      DecisorsCounted(db, level, item);
      DueOfShown(db, level, item);
    } else {
      hide ShowsDecisionMakers, ItemRelationships, ItemRows;
      if item.entity.Some? { ReachedExact(db, item.entity.value, item.entity.value); }
      assert FirstServing([], true).None? && FirstServing([], false).None?;
      hide FirstServing, ContactsOf, Reaches;
    }
  }

  lemma DecisorsCounted(db: Database, level: Level, item: Item)
    requires ItemRelationships(db, level, item) != []
    ensures ItemReport(db, level, item).directContacts == DecisorsReached(db, item, ItemRelationships(db, level, item))
  {
    hide DecisorsReached, ItemRelationships, ItemRows;
  }

  lemma DueOfShown(db: Database, level: Level, item: Item)
    requires ShowsDecisionMakers(db, level, item)
    ensures item.entity.Some?
    ensures var id := item.entity.value;
      ContactsOfItem(db, level, item)
      == |set i | 0 <= i < |db.relationships| && OfCompany(db, id, i) && ReachesAt(db, id, i)|
  {
  }

  /**
   * Every export counts as direct contacts exactly the rows whose decision maker or company has a usable
   * contact, of either kind.
   */
  lemma {:induction false} ContactsCounted(db: Database, level: Level, items: seq<Item>)
    ensures NaiveJoin(db, level, items).directContacts == ContactsDue(db, level, items)
  {
    if items != [] {
      ContactsCounted(db, level, items[..|items| - 1]);
      ContactsOfItemExact(db, level, items[|items| - 1]);
      hide ItemReport, ContactsOfItem;
    }
  }

  // ----- the order of the rows -----

  lemma RowsNext(db: Database, level: Level, items: seq<Item>)
    requires items != []
    ensures var n := |items| - 1;
      NaiveJoin(db, level, items).rows == NaiveJoin(db, level, items[..n]).rows + ItemRows(db, level, items[n])
  {
    hide ItemRows, ItemRelationships, ItemReached;
  }

  /** The rows of an export are those of its items, item behind item. */
  lemma {:induction false} RowsInOrder(db: Database, level: Level, items: seq<Item>, k: nat)
    requires k < |items|
    ensures NaiveJoin(db, level, items[..k]).rows + ItemRows(db, level, items[k]) <= NaiveJoin(db, level, items).rows
    ensures k == |items| - 1 ==>
      NaiveJoin(db, level, items[..k]).rows + ItemRows(db, level, items[k]) == NaiveJoin(db, level, items).rows
  {
    hide *;
    var n := |items| - 1;
    RowsNext(db, level, items);
    if k < n {
      RowsInOrder(db, level, items[..n], k);
      assert items[..n][..k] == items[..k] && items[..n][k] == items[k];
    }
  }
}
