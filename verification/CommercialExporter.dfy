/**
 * The exporter as it is written (src/leadstream/batches/exporter.py): chunks of items, five queries a
 * chunk, dictionaries filled in loops, running totals. It refines CommercialJoin.NaiveJoin.
 */
module CommercialExporter {
  import opened Text
  import opened Tables
  import opened CommercialJoin

  // ----- cells -----

  predicate StartsFormula(s: string) { s != [] && (s[0] == '=' || s[0] == '+' || s[0] == '-' || s[0] == '@') }

  function SanitizeCell(value: Option<string>): string {
    if value.None? then "" else
    var text := Trim(Server, value.value);
    if StartsFormula(text) then "'" + text else text
  }

  /** No written cell opens a formula, sanitising again changes nothing, and the text is still there. */
  lemma SanitizedCell(value: Option<string>)
    ensures !StartsFormula(SanitizeCell(value)) && SanitizeCell(Some(SanitizeCell(value))) == SanitizeCell(value)
    ensures value.Some? ==>
      SanitizeCell(value) == Trim(Server, value.value)
      || (StartsFormula(Trim(Server, value.value)) && SanitizeCell(value)[1..] == Trim(Server, value.value))
  {
    if value.Some? {
      TrimTrimmed(Server, value.value);
      TrimFixed(Server, SanitizeCell(value));
    } else {
      TrimFixed(Server, "");
    }
  }

  /** The fields of a row under their column names; a name that is no field has none. */
  function Field(row: LeadRow, column: string): Option<string> {
    match column
    case "CNPJ" => Some(row.registry.cnpj)
    case "Razao_Social" => Some(row.registry.razaoSocial)
    case "Nome_Fantasia" => Some(row.registry.nomeFantasia)
    case "Situacao_Cadastral" => Some(row.registry.situacaoCadastral)
    case "CNAE_Principal" => Some(row.registry.cnaePrincipal)
    case "Descricao_CNAE" => Some(row.registry.descricaoCnae)
    case "Data_Abertura" => Some(row.registry.dataAbertura)
    case "UF" => Some(row.registry.uf)
    case "Municipio" => Some(row.registry.municipio)
    case "Bairro" => Some(row.registry.bairro)
    case "Logradouro" => Some(row.registry.logradouro)
    case "Numero" => Some(row.registry.numero)
    case "CEP" => Some(row.registry.cep)
    case "Nome_Decisor" => Some(row.decisor.nome)
    case "Cargo_Observado" => Some(row.decisor.cargo)
    case "Qualificacao_Societaria" => Some(row.decisor.qualificacao)
    case "Papel_Compra" => Some(row.decisor.papelCompra)
    case "Senioridade" => Some(row.decisor.senioridade)
    case "Email_Direto" => Some(row.channels.email)
    case "Status_Email" => Some(row.channels.statusEmail)
    case "Telefone_Direto" => Some(row.channels.telefone)
    case "Tipo_Linha" => Some(row.channels.tipoLinha)
    case "WhatsApp_Validado" => Some(row.channels.whatsapp)
    case "Status_Telefone" => Some(row.channels.statusTelefone)
    case "LinkedIn_Decisor" => Some(row.decisor.linkedin)
    case "Redes_Sociais_Empresa" => Some(row.processing.redesSociais)
    case "Status_Enriquecimento" => Some(row.processing.status)
    case "Qualidade_Geral" => Some(row.qualidade)
    case "Fontes_Utilizadas" => Some(row.processing.fontes)
    case "Data_Processamento" => Some(row.processing.data)
    case _ => None
  }

  /** What the CSV writer is given for one row: the chosen columns, sanitised, unknown ones empty. */
  function ColumnCells(row: LeadRow, columns: seq<string>): seq<string> {
    if columns == [] then [] else [SanitizeCell(Field(row, columns[0]))] + ColumnCells(row, columns[1..])
  }

  function Lines(rows: seq<LeadRow>, columns: seq<string>): (r: seq<seq<string>>)
    ensures |r| == |rows|
    ensures forall i :: 0 <= i < |r| ==> r[i] == ColumnCells(rows[i], columns)
  {
    if rows == [] then [] else [ColumnCells(rows[0], columns)] + Lines(rows[1..], columns)
  }

  // ----- items -----

  function Selected(items: seq<Item>, statuses: seq<string>): seq<Item> {
    if items == [] then []
    else (if statuses == [] || items[0].status in statuses then [items[0]] else []) + Selected(items[1..], statuses)
  }

  function EntityIds(chunk: seq<Item>): (ids: set<Id>)
    ensures forall item :: item in chunk && item.entity.Some? ==> item.entity.value in ids
  {
    if chunk == [] then {}
    else (if chunk[0].entity.Some? then {chunk[0].entity.value} else {}) + EntityIds(chunk[1..])
  }

  function PersonIds(rels: seq<Row<Relationship>>): (ids: set<Id>)
    ensures forall row :: row in rels ==> row.value.person.entity in ids
  {
    if rels == [] then {} else {rels[0].value.person.entity} + PersonIds(rels[1..])
  }

  // ----- the prefetch of one chunk -----

  datatype Indexes = Indexes(
    companies: map<Id, Company>, establishments: map<Id, Establishment>,
    relationships: map<Id, seq<Relationship>>, contacts: map<Id, seq<Contact>>, socials: map<Id, seq<Social>>)

  ghost predicate AnswersOwner(db: Database, ix: Indexes, owner: Id) {
    Get(ix.contacts, owner) == ContactsOf(db, owner) && Get(ix.socials, owner) == SocialsOf(db, owner)
  }

  ghost predicate AnswersItem(db: Database, ix: Indexes, id: Id) {
    && Find(ix.companies, id) == CompanyOf(db, id) && Find(ix.establishments, id) == EstablishmentOf(db, id)
    && Get(ix.relationships, id) == RelationshipsOf(db, id)
    && AnswersOwner(db, ix, id)
    && forall rel :: rel in RelationshipsOf(db, id) ==> AnswersOwner(db, ix, rel.person.entity)
  }

  /** On the ids a chunk asks about, the dictionaries answer as the tables do. */
  ghost predicate Answers(db: Database, ids: set<Id>, ix: Indexes) {
    forall id :: id in ids ==> AnswersItem(db, ix, id)
  }

  lemma {:induction false} OwnedComesFromRow<T>(rows: seq<Row<T>>, key: Id, value: T)
    requires value in Owned(rows, key)
    ensures exists row :: row in rows && row.value == value
  {
    if rows[0].owner == key && rows[0].value == value {
      assert rows[0] in rows;
    } else {
      OwnedComesFromRow(rows[1..], key, value);
    }
  }

  /** What the five queries and the dictionaries built from them give. */
  ghost predicate FromQueries(db: Database, ids: set<Id>, owners: set<Id>, ix: Indexes) {
    && (forall id :: Find(ix.companies, id) == Last(Owned(Where(db.companies, db.tenant, ids), id)))
    && (forall id :: Find(ix.establishments, id)
                     == First(Owned(HeadquartersFirst(Where(db.establishments, db.tenant, ids)), id)))
    && (forall id :: Get(ix.relationships, id) == Owned(NewestFirst(Where(db.relationships, db.tenant, ids)), id))
    && (forall id :: Get(ix.contacts, id) == Owned(Usable(Where(db.contacts, db.tenant, owners)), id))
    && (forall id :: Get(ix.socials, id) == Owned(Where(db.socials, db.tenant, owners), id))
  }

  lemma CompanyAnswers(db: Database, ids: set<Id>, owners: set<Id>, ix: Indexes, id: Id)
    requires FromQueries(db, ids, owners, ix) && id in ids
    ensures Find(ix.companies, id) == CompanyOf(db, id)
    ensures Find(ix.establishments, id) == EstablishmentOf(db, id)
    ensures Get(ix.relationships, id) == RelationshipsOf(db, id)
  {
    hide Where, Owned, Usable, HeadquartersFirst, NewestFirst, Find, Get, First, Last;
    OwnedWhere(db.companies, db.tenant, ids, id);
    EstablishmentsAgree(db.establishments, db.tenant, ids, id);
    RelationshipsAgree(db.relationships, db.tenant, ids, id);
  }

  lemma OwnerAnswers(db: Database, ids: set<Id>, owners: set<Id>, ix: Indexes, id: Id)
    requires FromQueries(db, ids, owners, ix) && id in owners
    ensures AnswersOwner(db, ix, id)
  {
    hide Where, Owned, Usable, HeadquartersFirst, NewestFirst, Find, Get, First, Last;
    ContactsAgree(db.contacts, db.tenant, owners, id);
    OwnedWhere(db.socials, db.tenant, owners, id);
  }

  lemma PersonAnswers(db: Database, ids: set<Id>, owners: set<Id>, ix: Indexes, id: Id, rel: Relationship)
    requires FromQueries(db, ids, owners, ix) && id in ids && rel in RelationshipsOf(db, id)
    requires owners == ids + PersonIds(NewestFirst(Where(db.relationships, db.tenant, ids)))
    ensures AnswersOwner(db, ix, rel.person.entity)
  {
    var rels := NewestFirst(Where(db.relationships, db.tenant, ids));
    hide FromQueries, Where, NewestFirst, RelationshipsOf, AnswersOwner, PersonIds;
    assert RelationshipsOf(db, id) == Owned(rels, id) by { RelationshipsFound(db, ids, owners, ix, id); }
    hide Owned;
    OwnedComesFromRow(rels, id, rel);
    OwnerAnswers(db, ids, owners, ix, rel.person.entity);
  }

  lemma RelationshipsFound(db: Database, ids: set<Id>, owners: set<Id>, ix: Indexes, id: Id)
    requires FromQueries(db, ids, owners, ix) && id in ids
    ensures RelationshipsOf(db, id) == Owned(NewestFirst(Where(db.relationships, db.tenant, ids)), id)
  {
    CompanyAnswers(db, ids, owners, ix, id);
    hide Where, Owned, NewestFirst, RelationshipsOf, Get, CompanyOf, EstablishmentOf;
  }

  lemma PrefetchAnswers(db: Database, ids: set<Id>, owners: set<Id>, ix: Indexes)
    requires FromQueries(db, ids, owners, ix)
    requires owners == ids + PersonIds(NewestFirst(Where(db.relationships, db.tenant, ids)))
    ensures Answers(db, ids, ix)
  {
    hide FromQueries, Where, NewestFirst, PersonIds, AnswersOwner, RelationshipsOf, CompanyOf, EstablishmentOf, Find,
        Get;
    forall id | id in ids ensures AnswersItem(db, ix, id) {
      CompanyAnswers(db, ids, owners, ix, id);
      OwnerAnswers(db, ids, owners, ix, id);
      forall rel | rel in RelationshipsOf(db, id) ensures AnswersOwner(db, ix, rel.person.entity) {
        PersonAnswers(db, ids, owners, ix, id, rel);
      }
    }
  }

  lemma ReportOfDecisionMakers(db: Database, level: Level, item: Item, rels: seq<Relationship>)
    requires rels == if ItemCompany(db, item).Some? then RelationshipsOf(db, item.entity.value) else []
    requires rels != [] && level.DECISION_MAKER?
    ensures ItemReport(db, level, item)
        == Report(DecisorRows(db, item, rels), 1, |rels|, DecisorsReached(db, item, rels))
  {
    hide ItemCompany, RelationshipsOf, DecisorRows, DecisorsReached;
  }

  lemma ReportOfCompany(db: Database, level: Level, item: Item, rels: seq<Relationship>)
    requires rels == if ItemCompany(db, item).Some? then RelationshipsOf(db, item.entity.value) else []
    requires rels == [] || !level.DECISION_MAKER?
    ensures ItemReport(db, level, item)
         == Report([CompanyRow(ItemRegistry(db, item), ItemProcessing(db, item), ItemContacts(db, item))], 1, 0,
                   Reached([], ItemContacts(db, item)))
  {
    hide ItemCompany, RelationshipsOf, ItemContacts, ItemRegistry, ItemProcessing, CompanyRow, Reached;
  }

  lemma NaiveJoinNothing(db: Database, level: Level)
    ensures NaiveJoin(db, level, []) == NOTHING
  {
  }

  lemma LinesAppend(a: seq<LeadRow>, b: seq<LeadRow>, columns: seq<string>)
    ensures Lines(a + b, columns) == Lines(a, columns) + Lines(b, columns)
  {
  }

  class CommercialBatchExporter {
    const db: Database
    const level: Level
    const statuses: seq<string>
    const columns: seq<string>
    var totalRows: nat
    var totalCompanies: nat
    var totalDecisionMakers: nat
    var totalDirectContacts: nat

    constructor (db: Database, level: Level, statuses: seq<string>, columns: seq<string>)
      ensures this.db == db && this.level == level && this.statuses == statuses && this.columns == columns
    {
      this.db, this.level, this.statuses, this.columns := db, level, statuses, columns;
      totalRows, totalCompanies, totalDecisionMakers, totalDirectContacts := 0, 0, 0, 0;
    }

    method Prefetch(ids: set<Id>) returns (ix: Indexes)
      ensures Answers(db, ids, ix)
    {
      if ids == {} { return Indexes(map[], map[], map[], map[], map[]); }
      var companies := LastByOwner(Where(db.companies, db.tenant, ids));
      var establishments := FirstByOwner(HeadquartersFirst(Where(db.establishments, db.tenant, ids)));
      var companyRels := NewestFirst(Where(db.relationships, db.tenant, ids));
      var relationships := GroupByOwner(companyRels);
      var owners := ids + PersonIds(companyRels);
      var contacts := GroupByOwner(Usable(Where(db.contacts, db.tenant, owners)));
      var socials := GroupByOwner(Where(db.socials, db.tenant, owners));
      ix := Indexes(companies, establishments, relationships, contacts, socials);
      PrefetchAnswers(db, ids, owners, ix);
    }

    /** `_process_chunk`: prefetch, then one pass over the items. */
    method ProcessChunk(chunk: seq<Item>)
      returns (rows: seq<LeadRow>, companies: nat, decisionMakers: nat, contacts: nat)
      ensures Report(rows, companies, decisionMakers, contacts) == NaiveJoin(db, level, chunk)
    {
      hide Answers, ItemReport, EntityIds;
      var ids := EntityIds(chunk);
      var ix := Prefetch(ids);
      rows, companies, decisionMakers, contacts := [], |chunk|, 0, 0;
      for i := 0 to |chunk|
        invariant Report(rows, i, decisionMakers, contacts) == NaiveJoin(db, level, chunk[..i])
      {
        var moreRows, moreDecisionMakers, moreContacts := EmitItem(ix, chunk[i], ids);
        rows := rows + moreRows;
        decisionMakers := decisionMakers + moreDecisionMakers;
        contacts := contacts + moreContacts;
        assert chunk[..i + 1][..i] == chunk[..i];
      }
      assert chunk[..|chunk|] == chunk;
    }

    /** The look-ups at the head of the loop over items. */
    method LookUp(ix: Indexes, item: Item, ghost ids: set<Id>)
      returns (registry: Registry, processing: Processing, companyContacts: seq<Contact>, rels: seq<Relationship>)
      requires Answers(db, ids, ix) && (item.entity.Some? ==> item.entity.value in ids)
      ensures registry == ItemRegistry(db, item) && processing == ItemProcessing(db, item)
      ensures companyContacts == ItemContacts(db, item)
      ensures rels == if ItemCompany(db, item).Some? then RelationshipsOf(db, item.entity.value) else []
      ensures forall rel :: rel in rels ==> AnswersOwner(db, ix, rel.person.entity)
    {
      hide RegistryOf, ProcessingOf, CompanyOf, EstablishmentOf, RelationshipsOf, ContactsOf, SocialsOf, Find, Get;
      if item.entity.None? {
        return RegistryOf(item, None, None), ProcessingOf(item, []), [], [];
      }
      var id := item.entity.value;
      var company := Find(ix.companies, id);
      var establishment := if company.Some? then Find(ix.establishments, id) else None;
      registry := RegistryOf(item, company, establishment);
      processing := ProcessingOf(item, Get(ix.socials, id));
      companyContacts := Get(ix.contacts, id);
      rels := if company.Some? then Get(ix.relationships, id) else [];
    }

    /** One row for each decision maker: own channels first, the company's as a fallback. */
    method EmitDecisionMakers(ix: Indexes, item: Item, registry: Registry, processing: Processing,
                              companyContacts: seq<Contact>, rels: seq<Relationship>)
      returns (rows: seq<LeadRow>, decisionMakers: nat, contacts: nat)
      requires registry == ItemRegistry(db, item) && processing == ItemProcessing(db, item)
      requires companyContacts == ItemContacts(db, item)
      requires forall rel :: rel in rels ==> AnswersOwner(db, ix, rel.person.entity)
      ensures rows == DecisorRows(db, item, rels)
      ensures decisionMakers == |rels| && contacts == DecisorsReached(db, item, rels)
    {
      hide ItemRegistry, ItemProcessing, ItemContacts, ContactsOf, SocialsOf, ChannelCells, Or, FirstLinkedIn, Get,
          FirstServing;
      rows, decisionMakers, contacts := [], 0, 0;
      for j := 0 to |rels|
        invariant rows == DecisorRows(db, item, rels[..j])
        invariant decisionMakers == j && contacts == DecisorsReached(db, item, rels[..j])
      {
        var rel := rels[j];
        var own, socials := Get(ix.contacts, rel.person.entity), Get(ix.socials, rel.person.entity);
        decisionMakers := decisionMakers + 1;
        var email, phone := FirstServing(own, true), FirstServing(own, false);
        if email.None? { email := FirstServing(companyContacts, true); }
        if phone.None? { phone := FirstServing(companyContacts, false); }
        if email.Some? || phone.Some? { contacts := contacts + 1; }
        rows := rows + [LeadRow(
          registry,
          Decisor(rel.person.fullName, Or(rel.observedTitle, rel.normalizedTitle), rel.qualification,
                  rel.buyingRole, rel.seniority, FirstLinkedIn(socials)),
          ChannelCells(email, phone, phone.Some? && phone.value.whatsappCapable),
          if email.Some? && phone.Some? then "ALTA" else "MEDIA",
          processing)];
        assert rels[..j + 1][..j] == rels[..j];
      }
      assert rels[..|rels|] == rels;
    }

    /** The body of the loop over items; the rows it appends and what it adds to the counters. */
    method EmitItem(ix: Indexes, item: Item, ghost ids: set<Id>)
      returns (rows: seq<LeadRow>, decisionMakers: nat, contacts: nat)
      requires Answers(db, ids, ix) && (item.entity.Some? ==> item.entity.value in ids)
      ensures Report(rows, 1, decisionMakers, contacts) == ItemReport(db, level, item)
    {
      var registry, processing, companyContacts, rels := LookUp(ix, item, ids);
      hide *;
      if rels != [] && level.DECISION_MAKER? {
        ReportOfDecisionMakers(db, level, item, rels);
        rows, decisionMakers, contacts := EmitDecisionMakers(ix, item, registry, processing, companyContacts, rels);
      } else {
        ReportOfCompany(db, level, item, rels);
        rows, contacts := EmitCompany(registry, processing, companyContacts);
        decisionMakers := 0;
      }
    }

    /** One row for the company itself. */
    method EmitCompany(registry: Registry, processing: Processing, companyContacts: seq<Contact>)
      returns (rows: seq<LeadRow>, contacts: nat)
      ensures rows == [CompanyRow(registry, processing, companyContacts)] && contacts == Reached([], companyContacts)
    {
      assert FirstServing([], true).None? && FirstServing([], false).None?;
      hide FirstServing, ChannelCells;
      var email, phone := FirstServing(companyContacts, true), FirstServing(companyContacts, false);
      contacts := 0;
      if email.Some? || phone.Some? { contacts := contacts + 1; }
      rows := [LeadRow(registry, Decisor("", "", "", "", "", ""), ChannelCells(email, phone, false),
                       if !(email.Some? || phone.Some?) then "BASICA" else "MEDIA", processing)];
    }

    /**
     * The chunk loop of `_generate_file`. Whatever the chunk size (the source's is 1000), the lines
     * written are the header and the lines of the naive join over all selected items, and the totals
     * are its counters.
     */
    method GenerateFile(items: seq<Item>, chunkSize: nat) returns (written: seq<seq<string>>)
      requires chunkSize >= 1
      modifies this
      ensures var report := NaiveJoin(db, level, Selected(items, statuses));
        && written == [columns] + Lines(report.rows, columns)
        && totalRows == |report.rows| && totalCompanies == report.companies
        && totalDecisionMakers == report.decisionMakers && totalDirectContacts == report.directContacts
    {
      written := [columns];
      hide NaiveJoin, Lines, Selected;
      var selected := Selected(items, statuses);
      var rowCount, companies, decisionMakers, contacts := 0, 0, 0, 0;
      ghost var all: seq<LeadRow> := [];
      ghost var done := 0;
      var start := 0;
      assert selected[..0] == [];
      NaiveJoinNothing(db, level);
      while start < |selected|
        invariant done == if start < |selected| then start else |selected|
        invariant Report(all, companies, decisionMakers, contacts) == NaiveJoin(db, level, selected[..done])
        invariant written == [columns] + Lines(all, columns) && rowCount == |all|
      {
        var end := if start + chunkSize < |selected| then start + chunkSize else |selected|;
        var chunk := selected[start..end];
        var rows, n, d, c := ProcessChunk(chunk);
        assert selected[..end] == selected[..start] + chunk;
        NaiveJoinAppend(db, level, selected[..start], chunk);
        written := WriteRows(written, rows);
        LinesAppend(all, rows, columns);
        rowCount := rowCount + |rows|;
        all := all + rows;
        companies, decisionMakers, contacts := companies + n, decisionMakers + d, contacts + c;
        start, done := start + chunkSize, end;
      }
      assert selected[..|selected|] == selected;
      totalRows, totalCompanies, totalDecisionMakers, totalDirectContacts :=
          rowCount, companies, decisionMakers, contacts;
    }

    method WriteRows(written: seq<seq<string>>, rows: seq<LeadRow>) returns (r: seq<seq<string>>)
      ensures r == written + Lines(rows, columns)
    {
      r := written;
      hide ColumnCells, Lines;
      for i := 0 to |rows|
        invariant r == written + Lines(rows, columns)[..i]
      {
        r := r + [ColumnCells(rows[i], columns)];
        assert Lines(rows, columns)[..i + 1] == Lines(rows, columns)[..i] + [Lines(rows, columns)[i]];
      }
      assert Lines(rows, columns)[..|rows|] == Lines(rows, columns);
    }
  }
}
