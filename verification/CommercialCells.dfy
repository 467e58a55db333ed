/**
 * What stands under each column of a commercial export (src/leadstream/batches/exporter.py), in terms of
 * the item's own data and of the raw tables, and which items are exported at all.
 */
module CommercialCells {
  import opened Text
  import opened Tables
  import opened CommercialJoin
  import opened CommercialExporter
  import opened CommercialProperties
  import opened CommercialRows

  // ----- the items -----

  predicate Wanted(item: Item, statuses: seq<string>) { statuses == [] || item.status in statuses }

  /** `at` lists, in order, the places of the items with a status asked for. */
  ghost predicate WantedPlaces(items: seq<Item>, statuses: seq<string>, kept: seq<Item>, at: seq<nat>) {
    && |at| == |kept|
    && (forall j, k :: 0 <= j < k < |at| ==> at[j] < at[k])
    && (forall k :: 0 <= k < |at| ==> at[k] < |items| && kept[k] == items[at[k]])
    && (forall i :: 0 <= i < |items| ==> (i in at <==> Wanted(items[i], statuses)))
  }

  lemma WantedSnoc(items: seq<Item>, statuses: seq<string>, kept: seq<Item>, at: seq<nat>)
    requires items != [] && WantedPlaces(items[..|items| - 1], statuses, kept, at)
    ensures var n := |items| - 1;
      if Wanted(items[n], statuses) then WantedPlaces(items, statuses, kept + [items[n]], at + [n])
      else WantedPlaces(items, statuses, kept, at)
  {
    hide Wanted;
    var n := |items| - 1;
    assert forall i :: 0 <= i < n ==> items[..n][i] == items[i];
  }

  /** The exported items are those with a status asked for, every one of them, in their order. */
  lemma {:induction false} SelectedPlaces(items: seq<Item>, statuses: seq<string>) returns (at: seq<nat>)
    ensures WantedPlaces(items, statuses, Selected(items, statuses), at)
  {
    at := [];
    if items != [] {
      var n := |items| - 1;
      at := SelectedPlaces(items[..n], statuses);
      SelectedSnoc(items, statuses);
      hide *;
      WantedSnoc(items, statuses, Selected(items[..n], statuses), at);
      if Wanted(items[n], statuses) { at := at + [n]; }
    }
  }

  lemma {:induction false} SelectedAppend(a: seq<Item>, b: seq<Item>, statuses: seq<string>)
    ensures Selected(a + b, statuses) == Selected(a, statuses) + Selected(b, statuses)
  {
    if a == [] {
      assert a + b == b;
    } else {
      assert (a + b)[1..] == a[1..] + b && (a + b)[0] == a[0];
      SelectedAppend(a[1..], b, statuses);
    }
  }

  lemma SelectedSnoc(items: seq<Item>, statuses: seq<string>)
    requires items != []
    ensures var n := |items| - 1;
      Selected(items, statuses)
      == Selected(items[..n], statuses) + if Wanted(items[n], statuses) then [items[n]] else []
  {
    var n := |items| - 1;
    assert items == items[..n] + [items[n]] && [items[n]][1..] == [];
    SelectedAppend(items[..n], [items[n]], statuses);
  }

  // ----- the columns of the registry -----

  /** The first of two texts that is there and not empty. */
  function FirstText(first: map<string, string>, key: string, second: map<string, string>, other: string): string {
    if key in first && first[key] != "" then first[key]
    else if other in second then second[other] else ""
  }

  /** The address columns with the item's keys they come from. */
  const ADDRESS: seq<(string, string, string)> :=
    [("UF", "state", "uf"), ("Municipio", "city", "municipio"), ("Bairro", "neighborhood", "bairro"),
     ("Logradouro", "street", "logradouro"), ("Numero", "number", "numero"), ("CEP", "postal_code", "cep")]

  predicate ShowsAddress(row: LeadRow, item: Item, entry: (string, string, string)) {
    Field(row, entry.0) == Some(FirstText(item.normalized, entry.1, item.original, entry.2))
  }

  lemma AddressColumns(row: LeadRow, item: Item, company: Option<Company>, establishment: Option<Establishment>)
    requires row.registry == RegistryOf(item, company, establishment)
    ensures forall entry :: entry in ADDRESS ==> ShowsAddress(row, item, entry)
    ensures Field(row, "CNAE_Principal") == Some(ValueFor(item.normalized, "primary_cnae"))
    ensures Field(row, "Descricao_CNAE") == Some(ValueFor(item.normalized, "cnae_description"))
  {
    AddressFields(row);
    hide Field;
    forall i | 0 <= i < |ADDRESS| ensures ShowsAddress(row, item, ADDRESS[i]) {}
  }

  lemma AddressFields(row: LeadRow)
    ensures Field(row, "UF") == Some(row.registry.uf) && Field(row, "Municipio") == Some(row.registry.municipio)
    ensures Field(row, "Bairro") == Some(row.registry.bairro)
    ensures Field(row, "Logradouro") == Some(row.registry.logradouro)
    ensures Field(row, "Numero") == Some(row.registry.numero) && Field(row, "CEP") == Some(row.registry.cep)
    ensures Field(row, "CNAE_Principal") == Some(row.registry.cnaePrincipal)
    ensures Field(row, "Descricao_CNAE") == Some(row.registry.descricaoCnae)
  {
  }

  /** The columns a known company fills, and what fills them without one. */
  ghost predicate ShowsCompany(row: LeadRow, item: Item, company: Option<Company>) {
    match company
    case Some(c) =>
      && Field(row, "Razao_Social") == Some(c.legalName) && Field(row, "Nome_Fantasia") == Some(c.tradeName)
      && Field(row, "Situacao_Cadastral") == Some(c.registrationStatus)
      && Field(row, "Data_Abertura")
         == Some(if c.openedOn.Some? then c.openedOn.value else ValueFor(item.normalized, "opened_on"))
    case None =>
      && Field(row, "Razao_Social") == Some(FirstText(item.normalized, "razao_social", item.original, "razao_social"))
      && Field(row, "Nome_Fantasia")
         == Some(FirstText(item.normalized, "nome_fantasia", item.original, "nome_fantasia"))
      && Field(row, "Situacao_Cadastral") == Some(ValueFor(item.normalized, "registration_status"))
      && Field(row, "Data_Abertura") == Some(ValueFor(item.normalized, "opened_on"))
  }

  lemma CompanyColumns(row: LeadRow, item: Item, company: Option<Company>, establishment: Option<Establishment>)
    requires row.registry == RegistryOf(item, company, establishment)
    ensures ShowsCompany(row, item, company)
    ensures var own := FirstText(item.normalized, "cnpj", item.original, "cnpj");
      Field(row, "CNPJ")
      == Some(if own != "" then own else if establishment.Some? then establishment.value.cnpj else "")
  {
  }

  /** The columns that say how the item was processed. */
  ghost predicate ShowsProcessing(row: LeadRow, item: Item) {
    && Field(row, "Status_Enriquecimento")
       == Some(if item.enrichmentStatus == "" then item.status else item.enrichmentStatus)
    && Field(row, "Fontes_Utilizadas")
       == Some(if item.deliveredBlocks == [] then "Receita Federal" else Join(item.deliveredBlocks, ", "))
    && Field(row, "Data_Processamento") == Some(if item.processedAt.None? then "" else item.processedAt.value)
  }

  /** The profile addresses of an owner, in table order, joined by comma and blank. */
  ghost predicate ShowsProfiles(db: Database, owner: Option<Id>, cell: Option<string>) {
    match owner
    case None => cell == Some("")
    case Some(id) =>
      exists values, at :: OwnedList(db.socials, db.tenant, id, values, at) && cell == Some(Join(Urls(values), ", "))
  }

  lemma {:induction false} UrlAt(socials: seq<Social>, k: nat)
    requires k < |socials|
    ensures Urls(socials)[k] == socials[k].url
  {
    assert Urls(socials) == [socials[0].url] + Urls(socials[1..]);
    hide Urls;
    if k > 0 { UrlAt(socials[1..], k - 1); }
  }

  lemma ProcessingColumns(db: Database, item: Item, row: LeadRow)
    requires row.processing == ItemProcessing(db, item)
    ensures ShowsProcessing(row, item)
  {
    hide SocialsOf, Join;
  }

  lemma ProfileColumn(db: Database, item: Item, row: LeadRow)
    requires row.processing == ItemProcessing(db, item)
    ensures ShowsProfiles(db, item.entity, Field(row, "Redes_Sociais_Empresa"))
  {
    var cell := Field(row, "Redes_Sociais_Empresa");
    assert cell == Some(row.processing.redesSociais);
    if item.entity.Some? {
      var id := item.entity.value;
      var at := OwnedPlaces(db.socials, db.tenant, id);
      var values := SocialsOf(db, id);
      assert OwnedList(db.socials, db.tenant, id, values, at) by { hide OwnedList; }
      assert cell == Some(Join(Urls(values), ", "));
      hide OwnedList, SocialsOf, Field, ItemProcessing, Join, Urls;
    } else {
      assert Urls([]) == [] && Join([], ", ") == "";
    }
  }

  lemma {:induction false} RowParts(db: Database, item: Item, rels: seq<Relationship>, k: nat)
    requires k < |rels|
    ensures DecisorRows(db, item, rels)[k].registry == ItemRegistry(db, item)
    ensures DecisorRows(db, item, rels)[k].processing == ItemProcessing(db, item)
  {
    DecisorRowAt(db, item, rels, k);
    hide ItemRegistry, ItemProcessing, ItemContacts, ContactsOf, SocialsOf, ChannelCells, FirstLinkedIn, Channel;
  }

  lemma ItemRowParts(db: Database, level: Level, item: Item, row: LeadRow)
    requires row in ItemRows(db, level, item)
    ensures row.registry == ItemRegistry(db, item) && row.processing == ItemProcessing(db, item)
  {
    var rels := ItemRelationships(db, level, item);
    hide ItemRegistry, ItemProcessing, ItemContacts, ContactsOf, SocialsOf, ChannelCells, ItemRelationships;
    if rels != [] {
      var k :| 0 <= k < |DecisorRows(db, item, rels)| && DecisorRows(db, item, rels)[k] == row;
      RowParts(db, item, rels, k);
    }
  }

  /**
   * Every row of an item shows, under each registry and processing column, the item's own data, the
   * company row of the entity, and the address list of its profiles.
   */
  lemma ItemColumns(db: Database, level: Level, item: Item, row: LeadRow)
    requires row in ItemRows(db, level, item)
    ensures forall entry :: entry in ADDRESS ==> ShowsAddress(row, item, entry)
    ensures Field(row, "CNAE_Principal") == Some(ValueFor(item.normalized, "primary_cnae"))
    ensures Field(row, "Descricao_CNAE") == Some(ValueFor(item.normalized, "cnae_description"))
    ensures ShowsCompany(row, item, ItemCompany(db, item)) && ShowsProcessing(row, item)
    ensures ShowsProfiles(db, item.entity, Field(row, "Redes_Sociais_Empresa"))
    ensures var own := FirstText(item.normalized, "cnpj", item.original, "cnpj");
      var place := if ItemCompany(db, item).Some? then EstablishmentOf(db, item.entity.value) else None;
      Field(row, "CNPJ") == Some(if own != "" then own else if place.Some? then place.value.cnpj else "")
  {
    ItemRowParts(db, level, item, row);
    var company := ItemCompany(db, item);
    var place := if company.Some? then EstablishmentOf(db, item.entity.value) else None;
    assert row.registry == RegistryOf(item, company, place);
    hide *;
    AddressColumns(row, item, company, place);
    CompanyColumns(row, item, company, place);
    ProcessingColumns(db, item, row);
    ProfileColumn(db, item, row);
  }

  // ----- the columns of a decision maker -----

  /** The first profile of a person on LinkedIn, in table order. */
  ghost predicate FirstProfileAt(db: Database, person: Id, i: int) {
    && OwnedAt(db.socials, db.tenant, person, i) && db.socials[i].value.network == LINKEDIN
    && forall j :: 0 <= j < i ==>
         !(OwnedAt(db.socials, db.tenant, person, j) && db.socials[j].value.network == LINKEDIN)
  }

  ghost predicate ShowsLinkedIn(db: Database, person: Id, cell: Option<string>) {
    || (exists i :: FirstProfileAt(db, person, i) && cell == Some(db.socials[i].value.url))
    || ((forall i :: !FirstProfileAt(db, person, i)) && cell == Some(""))
  }

  lemma {:induction false} FirstLinkedInAt(socials: seq<Social>) returns (k: nat)
    ensures k <= |socials| && forall j :: 0 <= j < k ==> socials[j].network != LINKEDIN
    ensures if k < |socials| then socials[k].network == LINKEDIN && FirstLinkedIn(socials) == socials[k].url
            else FirstLinkedIn(socials) == ""
  {
    k := 0;
    if socials != [] && socials[0].network != LINKEDIN {
      var j := FirstLinkedInAt(socials[1..]);
      k := j + 1;
    }
  }

  lemma LinkedInShown(db: Database, person: Id)
    ensures ShowsLinkedIn(db, person, Some(FirstLinkedIn(SocialsOf(db, person))))
  {
    var values := SocialsOf(db, person);
    var at := OwnedPlaces(db.socials, db.tenant, person);
    var k := FirstLinkedInAt(values);
    assert OwnedList(db.socials, db.tenant, person, values, at);
    hide SocialsOf, FirstLinkedIn, OwnedAt;
    forall j | OwnedAt(db.socials, db.tenant, person, j) && db.socials[j].value.network == LINKEDIN
      ensures k < |at| && at[k] <= j
    {
      assert j in at;
      var m :| 0 <= m < |at| && at[m] == j;
      assert values[m] == db.socials[j].value && m >= k;
    }
    if k < |at| {
      assert values[k] == db.socials[at[k]].value;
      assert FirstProfileAt(db, person, at[k]);
    }
  }

  lemma DecisorColumns(row: LeadRow)
    ensures Field(row, "Nome_Decisor") == Some(row.decisor.nome)
    ensures Field(row, "Cargo_Observado") == Some(row.decisor.cargo)
    ensures Field(row, "Qualificacao_Societaria") == Some(row.decisor.qualificacao)
    ensures Field(row, "Papel_Compra") == Some(row.decisor.papelCompra)
    ensures Field(row, "Senioridade") == Some(row.decisor.senioridade)
    ensures Field(row, "LinkedIn_Decisor") == Some(row.decisor.linkedin)
  {
  }

  /** A decision-maker row shows, under each column, the relationship it comes from. */
  lemma DecisionMakerColumns(db: Database, level: Level, item: Item, k: nat)
    requires k < |ItemRelationships(db, level, item)|
    ensures |ItemRows(db, level, item)| == |ItemRelationships(db, level, item)|
    ensures var row, rel := ItemRows(db, level, item)[k], ItemRelationships(db, level, item)[k];
      && Field(row, "Nome_Decisor") == Some(rel.person.fullName)
      && Field(row, "Cargo_Observado")
         == Some(if rel.observedTitle == "" then rel.normalizedTitle else rel.observedTitle)
      && Field(row, "Qualificacao_Societaria") == Some(rel.qualification)
      && Field(row, "Papel_Compra") == Some(rel.buyingRole) && Field(row, "Senioridade") == Some(rel.seniority)
      && ShowsLinkedIn(db, rel.person.entity, Field(row, "LinkedIn_Decisor"))
  {
    var rels := ItemRelationships(db, level, item);
    DecisorRowAt(db, item, rels, k);
    LinkedInShown(db, rels[k].person.entity);
    DecisorColumns(DecisorRows(db, item, rels)[k]);
    hide Field, ItemRegistry, ItemProcessing, ItemContacts, ContactsOf, SocialsOf, ChannelCells, FirstLinkedIn, Channel;
    hide ItemRelationships, ShowsLinkedIn, DecisorRows;
  }

  // ----- the channel columns -----

  function LineName(kind: ContactKind): string {
    match kind
    case EMAIL => "EMAIL"
    case PHONE => "PHONE"
    case WHATSAPP => "WHATSAPP"
  }

  /** Line type and WhatsApp mark of the first contact of `owner` that may be called. */
  ghost predicate ShowsLine(db: Database, owner: Id, marks: bool, channels: Channels) {
    exists i :: FirstCandidate(db.contacts, db.tenant, i, owner, false)
      && channels.tipoLinha == LineName(db.contacts[i].value.kind)
      && channels.whatsapp
         == if db.contacts[i].value.kind.WHATSAPP? || (marks && db.contacts[i].value.whatsappCapable) then "SIM"
            else "NAO"
  }

  ghost predicate ShowsLineOf(db: Database, person: Id, company: Id, marks: bool, channels: Channels) {
    if Offers(db, person, false) then ShowsLine(db, person, marks, channels)
    else if Offers(db, company, false) then ShowsLine(db, company, marks, channels)
    else channels.tipoLinha == "" && channels.whatsapp == "NAO"
  }

  lemma LineShown(db: Database, owner: Id, email: Option<Contact>, marks: bool)
    ensures var phone := FirstServing(ContactsOf(db, owner), false);
      && (phone.Some? <==> Offers(db, owner, false))
      && (phone.Some? ==>
            ShowsLine(db, owner, marks, ChannelCells(email, phone, marks && phone.value.whatsappCapable)))
  {
    var i := FirstServingIsFirst(db.contacts, db.tenant, owner, false);
    var phone := FirstServing(ContactsOf(db, owner), false);
    assert phone == FirstServing(Owned(Usable(Where(db.contacts, db.tenant, {owner})), owner), false);
    hide FirstServing, ContactsOf;
    if phone.Some? { assert FirstCandidate(db.contacts, db.tenant, i, owner, false); }
  }

  /** The line columns of a decision-maker row: a contact marked as on WhatsApp counts as much as one of its kind. */
  lemma DecisionMakerLine(db: Database, level: Level, item: Item, k: nat)
    requires k < |ItemRelationships(db, level, item)|
    ensures |ItemRows(db, level, item)| == |ItemRelationships(db, level, item)| && item.entity.Some?
    ensures var row, rel := ItemRows(db, level, item)[k], ItemRelationships(db, level, item)[k];
      ShowsLineOf(db, rel.person.entity, item.entity.value, true, row.channels)
  {
    var rels := ItemRelationships(db, level, item);
    var person, company := rels[k].person.entity, item.entity.value;
    DecisorRowAt(db, item, rels, k);
    var email := Channel(ContactsOf(db, person), ContactsOf(db, company), true);
    LineShown(db, person, email, true);
    LineShown(db, company, email, true);
    hide ItemRegistry, ItemProcessing, ContactsOf, SocialsOf, FirstServing, Offers, ShowsLine, DecisorRows;
    hide FirstLinkedIn;
  }

  /** The line columns of a company row: only the kind of the contact counts. */
  lemma CompanyLine(db: Database, level: Level, item: Item)
    requires ItemRelationships(db, level, item) == [] && item.entity.Some?
    ensures |ItemRows(db, level, item)| == 1
    ensures ShowsLineOf(db, item.entity.value, item.entity.value, false, ItemRows(db, level, item)[0].channels)
  {
    var company := item.entity.value;
    LineShown(db, company, FirstServing(ContactsOf(db, company), true), false);
    hide ItemRegistry, ItemProcessing, ItemRelationships, ContactsOf, FirstServing, Offers, ShowsLine;
  }

  lemma ChannelColumns(row: LeadRow)
    ensures Field(row, "Email_Direto") == Some(row.channels.email)
    ensures Field(row, "Status_Email") == Some(row.channels.statusEmail)
    ensures Field(row, "Telefone_Direto") == Some(row.channels.telefone)
    ensures Field(row, "Tipo_Linha") == Some(row.channels.tipoLinha)
    ensures Field(row, "WhatsApp_Validado") == Some(row.channels.whatsapp)
    ensures Field(row, "Status_Telefone") == Some(row.channels.statusTelefone)
    ensures Field(row, "Qualidade_Geral") == Some(row.qualidade)
  {
  }

  // ----- the lines of the file -----

  lemma {:induction false} CellAt(row: LeadRow, columns: seq<string>, k: nat)
    requires k < |columns|
    ensures |ColumnCells(row, columns)| == |columns|
    ensures ColumnCells(row, columns)[k] == SanitizeCell(Field(row, columns[k]))
  {
    hide Field, SanitizeCell;
    if k > 0 {
      CellAt(row, columns[1..], k - 1);
    } else if |columns| > 1 {
      CellAt(row, columns[1..], 0);
    }
  }
}
