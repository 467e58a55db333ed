/**
 * The commercial export as a plain join (src/leadstream/batches/exporter.py): for each batch item look
 * into the tables, on its own, and emit its rows. No chunks, no dictionaries.
 */
module CommercialJoin {
  import opened Text
  import opened Tables

  datatype Company = Company(legalName: string, tradeName: string, registrationStatus: string, openedOn: Option<string>)

  datatype Establishment = Establishment(cnpj: string, headquarters: bool)

  datatype Person = Person(entity: Id, fullName: string)

  datatype Relationship = Relationship(
    person: Person, createdAt: int, observedTitle: string, normalizedTitle: string,
    qualification: string, buyingRole: string, seniority: string)

  datatype ContactKind = EMAIL | PHONE | WHATSAPP

  datatype Contact = Contact(kind: ContactKind, status: string, value: string, whatsappCapable: bool)

  datatype Social = Social(network: string, url: string)

  /** Companies, establishments and relationships are keyed by the company's entity id. */
  datatype Database = Database(
    tenant: Id,
    companies: seq<Row<Company>>, establishments: seq<Row<Establishment>>,
    relationships: seq<Row<Relationship>>, contacts: seq<Row<Contact>>, socials: seq<Row<Social>>)

  datatype Item = Item(
    entity: Option<Id>, normalized: map<string, string>, original: map<string, string>,
    status: string, enrichmentStatus: string, deliveredBlocks: seq<string>, processedAt: Option<string>)

  datatype Level = DECISION_MAKER | COMPANY

  const SUPPRESSED := "SUPPRESSED"
  const LINKEDIN := "LINKEDIN"

  // ----- ordered and filtered queries -----

  /** `.exclude(status=SUPPRESSED)` */
  function Usable(rows: seq<Row<Contact>>): seq<Row<Contact>> {
    if rows == [] then []
    else (if rows[0].value.status != SUPPRESSED then [rows[0]] else []) + Usable(rows[1..])
  }

  function Headquarters(rows: seq<Row<Establishment>>, wanted: bool): seq<Row<Establishment>> {
    if rows == [] then []
    else (if rows[0].value.headquarters == wanted then [rows[0]] else []) + Headquarters(rows[1..], wanted)
  }

  /** `.order_by("-is_headquarters")`, ties in table order. */
  function HeadquartersFirst(rows: seq<Row<Establishment>>): seq<Row<Establishment>> {
    Headquarters(rows, true) + Headquarters(rows, false)
  }

  function InsertByDate(row: Row<Relationship>, rows: seq<Row<Relationship>>): seq<Row<Relationship>> {
    if rows == [] || row.value.createdAt >= rows[0].value.createdAt then [row] + rows
    else [rows[0]] + InsertByDate(row, rows[1..])
  }

  /** `.order_by("-created_at")`, ties in table order. */
  function NewestFirst(rows: seq<Row<Relationship>>): seq<Row<Relationship>> {
    if rows == [] then [] else InsertByDate(rows[0], NewestFirst(rows[1..]))
  }

  function CompanyOf(db: Database, id: Id): Option<Company> {
    Last(Owned(Where(db.companies, db.tenant, {id}), id))
  }

  function EstablishmentOf(db: Database, id: Id): Option<Establishment> {
    First(Owned(HeadquartersFirst(Where(db.establishments, db.tenant, {id})), id))
  }

  function RelationshipsOf(db: Database, id: Id): seq<Relationship> {
    Owned(NewestFirst(Where(db.relationships, db.tenant, {id})), id)
  }

  function ContactsOf(db: Database, id: Id): seq<Contact> {
    Owned(Usable(Where(db.contacts, db.tenant, {id})), id)
  }

  function SocialsOf(db: Database, id: Id): seq<Social> {
    Owned(Where(db.socials, db.tenant, {id}), id)
  }

  // ----- one row -----

  datatype Registry = Registry(
    cnpj: string, razaoSocial: string, nomeFantasia: string, situacaoCadastral: string,
    cnaePrincipal: string, descricaoCnae: string, dataAbertura: string, uf: string, municipio: string,
    bairro: string, logradouro: string, numero: string, cep: string)

  datatype Decisor = Decisor(nome: string, cargo: string, qualificacao: string, papelCompra: string,
                             senioridade: string, linkedin: string)

  datatype Channels = Channels(email: string, statusEmail: string, telefone: string, tipoLinha: string,
                               whatsapp: string, statusTelefone: string)

  datatype Processing = Processing(status: string, fontes: string, data: string, redesSociais: string)

  datatype LeadRow = LeadRow(registry: Registry, decisor: Decisor, channels: Channels, qualidade: string,
                             processing: Processing)

  /** Python's `a or b` on strings. */
  function Or(a: string, b: string): string { if a != "" then a else b }

  function ValueFor(data: map<string, string>, key: string): string { if key in data then data[key] else "" }

  function RegistryOf(item: Item, company: Option<Company>, establishment: Option<Establishment>): Registry {
    var norm, orig := item.normalized, item.original;
    Registry(
      Or(ValueFor(norm, "cnpj"),
          Or(ValueFor(orig, "cnpj"), if establishment.Some? then establishment.value.cnpj else "")),
      if company.Some? then company.value.legalName
          else Or(ValueFor(norm, "razao_social"), ValueFor(orig, "razao_social")),
      if company.Some? then company.value.tradeName
          else Or(ValueFor(norm, "nome_fantasia"), ValueFor(orig, "nome_fantasia")),
      if company.Some? then company.value.registrationStatus else ValueFor(norm, "registration_status"),
      ValueFor(norm, "primary_cnae"),
      ValueFor(norm, "cnae_description"),
      if company.Some? && company.value.openedOn.Some? then company.value.openedOn.value
          else ValueFor(norm, "opened_on"),
      Or(ValueFor(norm, "state"), ValueFor(orig, "uf")),
      Or(ValueFor(norm, "city"), ValueFor(orig, "municipio")),
      Or(ValueFor(norm, "neighborhood"), ValueFor(orig, "bairro")),
      Or(ValueFor(norm, "street"), ValueFor(orig, "logradouro")),
      Or(ValueFor(norm, "number"), ValueFor(orig, "numero")),
      Or(ValueFor(norm, "postal_code"), ValueFor(orig, "cep")))
  }

  function Urls(socials: seq<Social>): (r: seq<string>)
    ensures |r| == |socials|
  {
    if socials == [] then [] else [socials[0].url] + Urls(socials[1..])
  }

  function ProcessingOf(item: Item, socials: seq<Social>): Processing {
    Processing(
      Or(item.enrichmentStatus, item.status),
      if item.deliveredBlocks != [] then Join(item.deliveredBlocks, ", ") else "Receita Federal",
      if item.processedAt.Some? then item.processedAt.value else "",
      Join(Urls(socials), ", "))
  }

  predicate Serves(email: bool, contact: Contact) { contact.kind.EMAIL? == email }

  /** `next((c for c in contacts if c.kind ...), None)` for e-mail, or for telephone and WhatsApp. */
  function FirstServing(contacts: seq<Contact>, email: bool): Option<Contact> {
    if contacts == [] then None
    else if Serves(email, contacts[0]) then Some(contacts[0])
    else FirstServing(contacts[1..], email)
  }

  /** The person's own contact if there is one, otherwise the company's. */
  function Channel(own: seq<Contact>, company: seq<Contact>, email: bool): Option<Contact> {
    var direct := FirstServing(own, email);
    if direct.Some? then direct else FirstServing(company, email)
  }

  function FirstLinkedIn(socials: seq<Social>): string {
    if socials == [] then ""
    else if socials[0].network == LINKEDIN then socials[0].url
    else FirstLinkedIn(socials[1..])
  }

  function ChannelCells(email: Option<Contact>, phone: Option<Contact>, capable: bool): Channels {
    Channels(
      if email.Some? then email.value.value else "",
      if email.Some? then email.value.status else "",
      if phone.Some? then phone.value.value else "",
      if phone.None? then ""
          else match phone.value.kind case EMAIL => "EMAIL" case PHONE => "PHONE" case WHATSAPP => "WHATSAPP",
      if phone.Some? && (phone.value.kind.WHATSAPP? || capable) then "SIM" else "NAO",
      if phone.Some? then phone.value.status else "")
  }

  function DecisionMakerRow(registry: Registry, processing: Processing, rel: Relationship,
                            own: seq<Contact>, socials: seq<Social>, company: seq<Contact>): LeadRow {
    var email, phone := Channel(own, company, true), Channel(own, company, false);
    LeadRow(registry,
            Decisor(rel.person.fullName, Or(rel.observedTitle, rel.normalizedTitle), rel.qualification,
                    rel.buyingRole, rel.seniority, FirstLinkedIn(socials)),
            ChannelCells(email, phone, phone.Some? && phone.value.whatsappCapable),
            if email.Some? && phone.Some? then "ALTA" else "MEDIA",
            processing)
  }

  function CompanyRow(registry: Registry, processing: Processing, company: seq<Contact>): LeadRow {
    var email, phone := FirstServing(company, true), FirstServing(company, false);
    LeadRow(registry, Decisor("", "", "", "", "", ""), ChannelCells(email, phone, false),
            if email.Some? || phone.Some? then "MEDIA" else "BASICA", processing)
  }

  function Reached(own: seq<Contact>, company: seq<Contact>): nat {
    if Channel(own, company, true).Some? || Channel(own, company, false).Some? then 1 else 0
  }

  // ----- one item, all items -----

  function ItemCompany(db: Database, item: Item): Option<Company> {
    if item.entity.Some? then CompanyOf(db, item.entity.value) else None
  }

  function ItemRelationships(db: Database, level: Level, item: Item): seq<Relationship> {
    if level.DECISION_MAKER? && ItemCompany(db, item).Some? then RelationshipsOf(db, item.entity.value) else []
  }

  function ItemContacts(db: Database, item: Item): seq<Contact> {
    if item.entity.Some? then ContactsOf(db, item.entity.value) else []
  }

  function ItemRegistry(db: Database, item: Item): Registry {
    RegistryOf(item, ItemCompany(db, item),
               if ItemCompany(db, item).Some? then EstablishmentOf(db, item.entity.value) else None)
  }

  function ItemProcessing(db: Database, item: Item): Processing {
    ProcessingOf(item, if item.entity.Some? then SocialsOf(db, item.entity.value) else [])
  }

  function DecisorRows(db: Database, item: Item, rels: seq<Relationship>): (r: seq<LeadRow>)
    ensures |r| == |rels|
  {
    if rels == [] then []
    else
      DecisorRows(db, item, rels[..|rels| - 1])
      + [var rel := rels[|rels| - 1];
         DecisionMakerRow(ItemRegistry(db, item), ItemProcessing(db, item), rel, ContactsOf(db, rel.person.entity),
                          SocialsOf(db, rel.person.entity), ItemContacts(db, item))]
  }

  function DecisorsReached(db: Database, item: Item, rels: seq<Relationship>): (n: nat)
    ensures n <= |rels|
  {
    if rels == [] then 0
    else DecisorsReached(db, item, rels[..|rels| - 1])
         + Reached(ContactsOf(db, rels[|rels| - 1].person.entity), ItemContacts(db, item))
  }

  function ItemRows(db: Database, level: Level, item: Item): seq<LeadRow> {
    var rels := ItemRelationships(db, level, item);
    if rels != [] then DecisorRows(db, item, rels)
    else [CompanyRow(ItemRegistry(db, item), ItemProcessing(db, item), ItemContacts(db, item))]
  }

  function ItemReached(db: Database, level: Level, item: Item): nat {
    var rels := ItemRelationships(db, level, item);
    if rels != [] then DecisorsReached(db, item, rels) else Reached([], ItemContacts(db, item))
  }

  /** The rows and counters of a list of items. */
  datatype Report = Report(rows: seq<LeadRow>, companies: nat, decisionMakers: nat, directContacts: nat)

  function Add(a: Report, b: Report): Report {
    Report(a.rows + b.rows, a.companies + b.companies, a.decisionMakers + b.decisionMakers,
           a.directContacts + b.directContacts)
  }

  const NOTHING := Report([], 0, 0, 0)

  function ItemReport(db: Database, level: Level, item: Item): Report {
    Report(ItemRows(db, level, item), 1, |ItemRelationships(db, level, item)|, ItemReached(db, level, item))
  }

  function NaiveJoin(db: Database, level: Level, items: seq<Item>): Report {
    if items == [] then NOTHING
    else Add(NaiveJoin(db, level, items[..|items| - 1]), ItemReport(db, level, items[|items| - 1]))
  }

  lemma AddAssociative(a: Report, b: Report, c: Report)
    ensures Add(a, Add(b, c)) == Add(Add(a, b), c) && Add(a, NOTHING) == a
  {
    assert a.rows + (b.rows + c.rows) == a.rows + b.rows + c.rows;
  }

  lemma {:induction false} NaiveJoinAppend(db: Database, level: Level, a: seq<Item>, b: seq<Item>)
    ensures NaiveJoin(db, level, a + b) == Add(NaiveJoin(db, level, a), NaiveJoin(db, level, b))
  {
    hide ItemReport;
    if b == [] {
      assert a + b == a;
    } else {
      var n := |b| - 1;
      assert (a + b)[..|a| + n] == a + b[..n] && (a + b)[|a| + n] == b[n];
      NaiveJoinAppend(db, level, a, b[..n]);
      AddAssociative(NaiveJoin(db, level, a), NaiveJoin(db, level, b[..n]), ItemReport(db, level, b[n]));
      hide Add;
    }
  }

  // ----- the queries of many keys agree with the queries of one -----

  lemma {:induction false} UsableAppend(a: seq<Row<Contact>>, b: seq<Row<Contact>>)
    ensures Usable(a + b) == Usable(a) + Usable(b)
  {
    if a == [] {
      assert a + b == b;
    } else {
      assert (a + b)[1..] == a[1..] + b && (a + b)[0] == a[0];
      UsableAppend(a[1..], b);
    }
  }

  /** Suppression and ownership filters commute. */
  lemma {:induction false} UsableWhere(table: seq<Row<Contact>>, tenant: Id, keys: set<Id>)
    ensures Usable(Where(table, tenant, keys)) == Where(Usable(table), tenant, keys)
  {
    if table != [] {
      UsableWhere(table[1..], tenant, keys);
      var head := if table[0].owner in keys && table[0].tenant == tenant then [table[0]] else [];
      UsableAppend(head, Where(table[1..], tenant, keys));
      assert [table[0]][1..] == [];
      var kept := if table[0].value.status != SUPPRESSED then [table[0]] else [];
      assert (kept + Usable(table[1..]))[|kept|..] == Usable(table[1..]);
    }
  }

  lemma {:induction false} HeadquartersAppend(a: seq<Row<Establishment>>, b: seq<Row<Establishment>>, wanted: bool)
    ensures Headquarters(a + b, wanted) == Headquarters(a, wanted) + Headquarters(b, wanted)
  {
    if a == [] {
      assert a + b == b;
    } else {
      assert (a + b)[1..] == a[1..] + b && (a + b)[0] == a[0];
      HeadquartersAppend(a[1..], b, wanted);
    }
  }

  lemma {:induction false} HeadquartersWhere(table: seq<Row<Establishment>>, tenant: Id, keys: set<Id>, wanted: bool)
    ensures Headquarters(Where(table, tenant, keys), wanted) == Where(Headquarters(table, wanted), tenant, keys)
  {
    if table != [] {
      HeadquartersWhere(table[1..], tenant, keys, wanted);
      var head := if table[0].owner in keys && table[0].tenant == tenant then [table[0]] else [];
      HeadquartersAppend(head, Where(table[1..], tenant, keys), wanted);
      assert [table[0]][1..] == [];
      var kept := if table[0].value.headquarters == wanted then [table[0]] else [];
      assert (kept + Headquarters(table[1..], wanted))[|kept|..] == Headquarters(table[1..], wanted);
    }
  }

  lemma EstablishmentsAgree(table: seq<Row<Establishment>>, tenant: Id, keys: set<Id>, key: Id)
    ensures Owned(HeadquartersFirst(Where(table, tenant, keys)), key)
         == if key in keys then Owned(HeadquartersFirst(Where(table, tenant, {key})), key) else []
  {
    forall wanted: bool, ks: set<Id> | ks == keys || ks == {key}
      ensures Headquarters(Where(table, tenant, ks), wanted) == Where(Headquarters(table, wanted), tenant, ks)
    {
      HeadquartersWhere(table, tenant, ks, wanted);
    }
    OwnedAppend(Headquarters(Where(table, tenant, keys), true), Headquarters(Where(table, tenant, keys), false), key);
    OwnedAppend(Headquarters(Where(table, tenant, {key}), true), Headquarters(Where(table, tenant, {key}), false), key);
    OwnedWhere(Headquarters(table, true), tenant, keys, key);
    OwnedWhere(Headquarters(table, false), tenant, keys, key);
  }

  lemma ContactsAgree(table: seq<Row<Contact>>, tenant: Id, keys: set<Id>, key: Id)
    ensures Owned(Usable(Where(table, tenant, keys)), key)
         == if key in keys then Owned(Usable(Where(table, tenant, {key})), key) else []
  {
    UsableWhere(table, tenant, keys);
    UsableWhere(table, tenant, {key});
    OwnedWhere(Usable(table), tenant, keys, key);
  }

  // ----- sorting commutes with selection -----

  ghost predicate Descending(rows: seq<Row<Relationship>>) {
    forall i, j :: 0 <= i < j < |rows| ==> rows[i].value.createdAt >= rows[j].value.createdAt
  }

  lemma {:induction false} InsertDescending(row: Row<Relationship>, rows: seq<Row<Relationship>>)
    requires Descending(rows)
    ensures Descending(InsertByDate(row, rows))
    ensures forall x :: x in InsertByDate(row, rows) <==> x == row || x in rows
  {
    if rows != [] && row.value.createdAt < rows[0].value.createdAt {
      InsertDescending(row, rows[1..]);
      assert forall x :: x in rows[1..] ==> x.value.createdAt <= rows[0].value.createdAt;
      assert rows == [rows[0]] + rows[1..];
    }
  }

  lemma {:induction false} NewestDescending(rows: seq<Row<Relationship>>)
    ensures Descending(NewestFirst(rows))
  {
    if rows != [] {
      NewestDescending(rows[1..]);
      InsertDescending(rows[0], NewestFirst(rows[1..]));
    }
  }

  lemma {:induction false} WhereInsert(row: Row<Relationship>, rows: seq<Row<Relationship>>, tenant: Id, keys: set<Id>)
    requires Descending(rows)
    ensures Where(InsertByDate(row, rows), tenant, keys)
         == if row.owner in keys && row.tenant == tenant then InsertByDate(row, Where(rows, tenant, keys))
            else Where(rows, tenant, keys)
  {
    if rows == [] {
      assert [row][1..] == [];
    } else if row.value.createdAt >= rows[0].value.createdAt {
      assert ([row] + rows)[1..] == rows;
      WhereBounded(rows, tenant, keys, row.value.createdAt);
    } else {
      WhereInsert(row, rows[1..], tenant, keys);
      var big, rest := InsertByDate(row, rows), Where(rows[1..], tenant, keys);
      assert big[0] == rows[0] && big[1..] == InsertByDate(row, rows[1..]);
      if rows[0].owner in keys && rows[0].tenant == tenant {
        assert Where(rows, tenant, keys) == [rows[0]] + rest && ([rows[0]] + rest)[1..] == rest;
      } else {
        assert Where(rows, tenant, keys) == rest;
      }
    }
  }

  lemma {:induction false} WhereBounded(rows: seq<Row<Relationship>>, tenant: Id, keys: set<Id>, bound: int)
    requires forall i :: 0 <= i < |rows| ==> rows[i].value.createdAt <= bound
    ensures var kept := Where(rows, tenant, keys); kept != [] ==> kept[0].value.createdAt <= bound
  {
    if rows != [] { WhereBounded(rows[1..], tenant, keys, bound); }
  }

  /** Selecting then sorting is sorting then selecting. */
  lemma {:induction false} NewestWhere(table: seq<Row<Relationship>>, tenant: Id, keys: set<Id>)
    ensures NewestFirst(Where(table, tenant, keys)) == Where(NewestFirst(table), tenant, keys)
  {
    if table != [] {
      NewestWhere(table[1..], tenant, keys);
      NewestDescending(table[1..]);
      WhereInsert(table[0], NewestFirst(table[1..]), tenant, keys);
      var rest := Where(table[1..], tenant, keys);
      if table[0].owner in keys && table[0].tenant == tenant {
        assert Where(table, tenant, keys) == [table[0]] + rest && ([table[0]] + rest)[1..] == rest;
      } else {
        assert Where(table, tenant, keys) == rest;
      }
    }
  }

  lemma RelationshipsAgree(table: seq<Row<Relationship>>, tenant: Id, keys: set<Id>, key: Id)
    ensures Owned(NewestFirst(Where(table, tenant, keys)), key)
         == if key in keys then Owned(NewestFirst(Where(table, tenant, {key})), key) else []
  {
    NewestWhere(table, tenant, keys);
    NewestWhere(table, tenant, {key});
    OwnedWhere(NewestFirst(table), tenant, keys, key);
  }
}
