/** What every commercial export promises, in terms of the raw tables. */
module CommercialProperties {
  import opened Text
  import opened Tables
  import opened CommercialJoin

  // ----- counters -----

  function CompanyOnly(db: Database, level: Level, items: seq<Item>): nat {
    if items == [] then 0
    else CompanyOnly(db, level, items[..|items| - 1])
         + if ItemRelationships(db, level, items[|items| - 1]) == [] then 1 else 0
  }

  /**
   * Companies equals the items, rows equals decision makers plus company-only items, rows is at least
   * companies and direct contacts at most rows. It holds of every prefix, so between chunks too.
   */
  lemma {:induction false} CountersAddUp(db: Database, level: Level, items: seq<Item>)
    ensures var report := NaiveJoin(db, level, items);
      && report.companies == |items|
      && |report.rows| == report.decisionMakers + CompanyOnly(db, level, items)
      && report.companies <= |report.rows|
      && report.directContacts <= |report.rows|
  {
    if items != [] {
      CountersAddUp(db, level, items[..|items| - 1]);
      ItemCounters(db, level, items[|items| - 1]);
      hide ItemReport, ItemRelationships;
    }
  }

  lemma ItemCounters(db: Database, level: Level, item: Item)
    ensures var report, rels := ItemReport(db, level, item), ItemRelationships(db, level, item);
      && report.companies == 1 && report.decisionMakers == |rels|
      && |report.rows| == (if rels == [] then 1 else |rels|) && report.directContacts <= |report.rows|
  {
  }

  // ----- channels -----

  /** Row i of the contact table may be shown for this owner and channel. */
  ghost predicate Candidate(table: seq<Row<Contact>>, tenant: Id, i: int, owner: Id, email: bool) {
    && 0 <= i < |table| && table[i].owner == owner && table[i].tenant == tenant
    && table[i].value.status != SUPPRESSED && Serves(email, table[i].value)
  }

  ghost predicate FirstCandidate(table: seq<Row<Contact>>, tenant: Id, i: int, owner: Id, email: bool) {
    Candidate(table, tenant, i, owner, email) && forall j :: 0 <= j < i ==> !Candidate(table, tenant, j, owner, email)
  }

  lemma ContactsStep(table: seq<Row<Contact>>, tenant: Id, owner: Id)
    requires table != []
    ensures Owned(Usable(Where(table, tenant, {owner})), owner)
         == (if table[0].owner == owner && table[0].tenant == tenant && table[0].value.status != SUPPRESSED
             then [table[0].value] else [])
            + Owned(Usable(Where(table[1..], tenant, {owner})), owner)
  {
    var all, rest := Where(table, tenant, {owner}), Where(table[1..], tenant, {owner});
    if table[0].owner == owner && table[0].tenant == tenant {
      assert all == [table[0]] + rest && all[1..] == rest;
      if table[0].value.status != SUPPRESSED {
        assert Usable(all) == [table[0]] + Usable(rest) && Usable(all)[1..] == Usable(rest);
      } else {
        assert Usable(all) == Usable(rest);
      }
    } else {
      assert all == rest;
    }
  }

  /** The contact picked for an owner is the first row of the raw table that may be shown. */
  lemma {:induction false} FirstServingIsFirst(table: seq<Row<Contact>>, tenant: Id, owner: Id, email: bool)
      returns (i: int)
    ensures var picked := FirstServing(Owned(Usable(Where(table, tenant, {owner})), owner), email);
      && (picked.Some? ==> FirstCandidate(table, tenant, i, owner, email) && table[i].value == picked.value)
      && (picked.None? ==> forall j :: !Candidate(table, tenant, j, owner, email))
  {
    i := 0;
    if table != [] {
      ContactsStep(table, tenant, owner);
      var k := FirstServingIsFirst(table[1..], tenant, owner, email);
      var all, rest := Owned(Usable(Where(table, tenant, {owner})), owner),
          Owned(Usable(Where(table[1..], tenant, {owner})), owner);
      hide Where, Usable, Owned;
      if Candidate(table, tenant, 0, owner, email) {
        assert all[0] == table[0].value;
      } else {
        i := k + 1;
        assert all == rest || (all == [table[0].value] + rest && all[1..] == rest && !Serves(email, all[0]));
        assert FirstServing(all, email) == FirstServing(rest, email);
        forall j | Candidate(table, tenant, j, owner, email)
          ensures j > 0 && Candidate(table[1..], tenant, j - 1, owner, email)
        {}
        assert Candidate(table[1..], tenant, k, owner, email) ==> Candidate(table, tenant, i, owner, email);
      }
    }
  }

  ghost predicate Offers(db: Database, owner: Id, email: bool) {
    exists i :: Candidate(db.contacts, db.tenant, i, owner, email)
  }

  /** `value` and `status` are those of the owner's first contact that may be shown. */
  ghost predicate ShowsFirst(db: Database, owner: Id, email: bool, value: string, status: string) {
    exists i :: FirstCandidate(db.contacts, db.tenant, i, owner, email)
      && value == db.contacts[i].value.value && status == db.contacts[i].value.status
  }

  /** A channel cell pair: the person's first contact, else the company's first, else empty. */
  ghost predicate ShowsChannel(db: Database, person: Id, company: Id, email: bool, value: string, status: string) {
    if Offers(db, person, email) then ShowsFirst(db, person, email, value, status)
    else if Offers(db, company, email) then ShowsFirst(db, company, email, value, status)
    else value == "" && status == ""
  }

  lemma FirstShown(db: Database, owner: Id, email: bool)
    ensures var picked := FirstServing(ContactsOf(db, owner), email);
      && (picked.Some? <==> Offers(db, owner, email))
      && (picked.Some? ==> ShowsFirst(db, owner, email, picked.value.value, picked.value.status))
  {
    var i := FirstServingIsFirst(db.contacts, db.tenant, owner, email);
    var picked := FirstServing(ContactsOf(db, owner), email);
    assert picked == FirstServing(Owned(Usable(Where(db.contacts, db.tenant, {owner})), owner), email);
    hide FirstServing, ContactsOf;
    if picked.Some? { assert FirstCandidate(db.contacts, db.tenant, i, owner, email); }
  }

  lemma DecisorRowAt(db: Database, item: Item, rels: seq<Relationship>, k: nat)
    requires k < |rels|
    ensures DecisorRows(db, item, rels)[k]
         == DecisionMakerRow(ItemRegistry(db, item), ItemProcessing(db, item), rels[k],
             ContactsOf(db, rels[k].person.entity),
                             SocialsOf(db, rels[k].person.entity), ItemContacts(db, item))
  {
    hide DecisionMakerRow, ItemRegistry, ItemProcessing, ContactsOf, SocialsOf, ItemContacts;
    if k < |rels| - 1 {
      DecisorRowAt(db, item, rels[..|rels| - 1], k);
    }
  }

  /**
   * A decision-maker row: each channel is the person's first usable contact if there is one, else the
   * company's, and the quality is ALTA exactly when both channels were found.
   */
  lemma DecisionMakerChannels(db: Database, level: Level, item: Item, k: nat)
    requires k < |ItemRelationships(db, level, item)|
    ensures var row := ItemRows(db, level, item)[k];
      var person, company := ItemRelationships(db, level, item)[k].person.entity, item.entity.value;
      && ShowsChannel(db, person, company, true, row.channels.email, row.channels.statusEmail)
      && ShowsChannel(db, person, company, false, row.channels.telefone, row.channels.statusTelefone)
      && row.qualidade
         == (if (Offers(db, person, true) || Offers(db, company, true))
                && (Offers(db, person, false) || Offers(db, company, false)) then "ALTA" else "MEDIA")
      && row.decisor.nome == ItemRelationships(db, level, item)[k].person.fullName
  {
    var rels := ItemRelationships(db, level, item);
    var person, company := rels[k].person.entity, item.entity.value;
    DecisorRowAt(db, item, rels, k);
    forall owner, email | owner == person || owner == company
      ensures var picked := FirstServing(ContactsOf(db, owner), email);
        && (picked.Some? <==> Offers(db, owner, email))
        && (picked.Some? ==> ShowsFirst(db, owner, email, picked.value.value, picked.value.status))
    {
      FirstShown(db, owner, email);
    }
    hide ItemRegistry, ItemProcessing, ContactsOf, SocialsOf, FirstServing, Offers, ShowsFirst, DecisorRows;
  }

  /**
   * A company-only row shows the company's first usable contacts; BASICA means it has none. An item
   * without an entity has no contacts to show.
   */
  lemma CompanyChannels(db: Database, level: Level, item: Item)
    requires ItemRelationships(db, level, item) == []
    ensures |ItemRows(db, level, item)| == 1
    ensures var row := ItemRows(db, level, item)[0];
      match item.entity
      case None => row.channels == Channels("", "", "", "", "NAO", "") && row.qualidade == "BASICA"
      case Some(company) =>
        && ShowsChannel(db, company, company, true, row.channels.email, row.channels.statusEmail)
        && ShowsChannel(db, company, company, false, row.channels.telefone, row.channels.statusTelefone)
        && row.qualidade == (if Offers(db, company, true) || Offers(db, company, false) then "MEDIA" else "BASICA")
  {
    if item.entity.Some? {
      FirstShown(db, item.entity.value, true);
      FirstShown(db, item.entity.value, false);
    } else {
      assert FirstServing([], true).None? && FirstServing([], false).None?;
    }
    hide ItemRegistry, ItemProcessing, ItemRelationships, ContactsOf, FirstServing, Offers, ShowsFirst;
  }

  // ----- suppression -----

  /** Row i of the contact table holds this value and status, belongs to the tenant and is not suppressed. */
  ghost predicate ShownRow(db: Database, i: int, email: bool, value: string, status: string) {
    && 0 <= i < |db.contacts| && db.contacts[i].tenant == db.tenant && Serves(email, db.contacts[i].value)
    && db.contacts[i].value.value == value && db.contacts[i].value.status == status != SUPPRESSED
  }

  /** A channel's cells are empty or those of a contact that may be shown. */
  ghost predicate Admissible(db: Database, email: bool, value: string, status: string) {
    (value == "" && status == "") || exists i :: ShownRow(db, i, email, value, status)
  }

  ghost predicate Clean(db: Database, row: LeadRow) {
    && row.channels.statusEmail != SUPPRESSED && row.channels.statusTelefone != SUPPRESSED
    && Admissible(db, true, row.channels.email, row.channels.statusEmail)
    && Admissible(db, false, row.channels.telefone, row.channels.statusTelefone)
  }

  lemma ShownIsAdmissible(db: Database, owner: Id, email: bool, value: string, status: string)
    requires ShowsFirst(db, owner, email, value, status)
    ensures status != SUPPRESSED && Admissible(db, email, value, status)
  {
    var i :| FirstCandidate(db.contacts, db.tenant, i, owner, email)
             && value == db.contacts[i].value.value && status == db.contacts[i].value.status;
    assert ShownRow(db, i, email, value, status);
  }

  lemma ChannelIsAdmissible(db: Database, person: Id, company: Id, email: bool, value: string, status: string)
    requires ShowsChannel(db, person, company, email, value, status)
    ensures status != SUPPRESSED && Admissible(db, email, value, status)
  {
    hide ShowsFirst, Offers, Admissible;
    if Offers(db, person, email) {
      ShownIsAdmissible(db, person, email, value, status);
    } else if Offers(db, company, email) {
      ShownIsAdmissible(db, company, email, value, status);
    } else {
      EmptyIsAdmissible(db, email);
    }
  }

  lemma EmptyIsAdmissible(db: Database, email: bool)
    ensures Admissible(db, email, "", "")
  {
  }

  lemma ItemRowsClean(db: Database, level: Level, item: Item)
    ensures forall row :: row in ItemRows(db, level, item) ==> Clean(db, row)
  {
    var rows, rels := ItemRows(db, level, item), ItemRelationships(db, level, item);
    if rels != [] {
      hide ItemRows, ItemRelationships, ShowsChannel, Admissible;
      assert |rows| == |rels| by { ItemRowCount(db, level, item); }
      forall k | 0 <= k < |rows| ensures Clean(db, rows[k]) {
        DecisionMakerChannels(db, level, item, k);
        var row, person, company := rows[k], rels[k].person.entity, item.entity.value;
        ChannelIsAdmissible(db, person, company, true, row.channels.email, row.channels.statusEmail);
        ChannelIsAdmissible(db, person, company, false, row.channels.telefone, row.channels.statusTelefone);
      }
    } else {
      CompanyChannels(db, level, item);
      var row := rows[0];
      EmptyIsAdmissible(db, true);
      EmptyIsAdmissible(db, false);
      hide ItemRows, ItemRelationships, ShowsChannel, Admissible;
      if item.entity.Some? {
        var company := item.entity.value;
        ChannelIsAdmissible(db, company, company, true, row.channels.email, row.channels.statusEmail);
        ChannelIsAdmissible(db, company, company, false, row.channels.telefone, row.channels.statusTelefone);
      }
    }
  }

  lemma ItemRowCount(db: Database, level: Level, item: Item)
    ensures ItemRelationships(db, level, item) != [] ==>
      |ItemRows(db, level, item)| == |ItemRelationships(db, level, item)| && item.entity.Some?
  {
  }

  /**
   * No emitted row, of any list of items, carries a suppressed contact: the two cells of each channel
   * are empty, or value and status of one contact of the tenant that fits and is not suppressed.
   */
  lemma {:induction false} NothingSuppressed(db: Database, level: Level, items: seq<Item>)
    ensures forall row :: row in NaiveJoin(db, level, items).rows ==> Clean(db, row)
  {
    if items != [] {
      NothingSuppressed(db, level, items[..|items| - 1]);
      ItemRowsClean(db, level, items[|items| - 1]);
      hide ItemRows, Clean;
    }
  }

  // ----- the establishment -----

  lemma {:induction false} HeadquartersExact(rows: seq<Row<Establishment>>, wanted: bool)
    ensures forall row :: row in Headquarters(rows, wanted) <==> row in rows && row.value.headquarters == wanted
  {
    if rows != [] { HeadquartersExact(rows[1..], wanted); }
  }

  lemma {:induction false} WhereExact<T>(table: seq<Row<T>>, tenant: Id, keys: set<Id>)
    ensures forall row :: row in Where(table, tenant, keys) <==>
      row in table && row.owner in keys && row.tenant == tenant
  {
    if table != [] { WhereExact(table[1..], tenant, keys); }
  }

  lemma {:induction false} OwnedExact<T>(rows: seq<Row<T>>, key: Id)
    ensures forall value :: value in Owned(rows, key) <==>
      exists row :: row in rows && row.owner == key && row.value == value
  {
    if rows != [] {
      OwnedExact(rows[1..], key);
      assert rows[0] in rows && forall row :: row in rows <==> row == rows[0] || row in rows[1..];
    }
  }

  ghost predicate HasRow(db: Database, id: Id, value: Establishment) {
    exists row :: row in db.establishments && row.owner == id && row.tenant == db.tenant && row.value == value
  }

  /** The two halves of the ordered query hold the company's headquarters and its other places. */
  lemma HalvesExact(db: Database, id: Id, wanted: bool)
    ensures forall value :: value in Owned(Headquarters(Where(db.establishments, db.tenant, {id}), wanted), id)
                       <==> HasRow(db, id, value) && value.headquarters == wanted
  {
    var mine := Where(db.establishments, db.tenant, {id});
    WhereExact(db.establishments, db.tenant, {id});
    HeadquartersExact(mine, wanted);
    OwnedExact(Headquarters(mine, wanted), id);
    hide Where, Owned, Headquarters;
  }

  /** The chosen establishment belongs to the company, and is a headquarters whenever there is one. */
  lemma HeadquartersChosen(db: Database, id: Id)
    ensures var e := EstablishmentOf(db, id);
      && (e.None? ==> forall value :: !HasRow(db, id, value))
      && (e.Some? ==> HasRow(db, id, e.value))
      && ((exists value :: HasRow(db, id, value) && value.headquarters) ==> e.Some? && e.value.headquarters)
  {
    var mine := Where(db.establishments, db.tenant, {id});
    var hq, rest := Owned(Headquarters(mine, true), id), Owned(Headquarters(mine, false), id);
    OwnedAppend(Headquarters(mine, true), Headquarters(mine, false), id);
    assert EstablishmentOf(db, id) == First(hq + rest);
    HalvesExact(db, id, true);
    HalvesExact(db, id, false);
    hide Where, Owned, Headquarters, EstablishmentOf, HasRow;
    if hq != [] { assert hq[0] in hq; } else if rest != [] { assert rest[0] in rest; }
  }
}
