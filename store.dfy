/** The application store (lib/store.ts): one list per table, each replaced
    after the database confirms a write, and a feed of the last 50
    activities. A failed write leaves every list as it was (the error is
    passed on to the caller, here as `ok == false`). */
module Store {
  import opened Common
  import opened Text
  import opened Sorting
  import opened Tables
  import opened Records

  datatype ActivityType = Create | Update | Delete

  /** An entry of the store's activity feed. */
  datatype StoreActivity = StoreActivity(id: string, kind: ActivityType, table: string, description: string, timestamp: string)

  /** The random id and the current time an activity is given. */
  datatype Stamp = Stamp(id: string, timestamp: string)

  const MaxActivities: nat := 50

  /** `[activity, ...activities].slice(0, 50)` */
  function PushActivity(activities: seq<StoreActivity>, a: StoreActivity): seq<StoreActivity> {
    Slice([a] + activities, 0, MaxActivities)
  }

  /** The new entry comes first, the feed never passes 50 entries, and the
      rest is the start of the old feed. */
  lemma PushActivitySpec(activities: seq<StoreActivity>, a: StoreActivity)
    ensures var r := PushActivity(activities, a);
      |r| == Min(|activities| + 1, MaxActivities) && r[0] == a && r[1..] == activities[..|r| - 1]
  {
    SlicePrefix([a] + activities, MaxActivities);
  }

  /** A FAQ as the forms hand it over. */
  datatype FaqInput = FaqInput(title: string, category: string, description: Option<string>, author: Option<string>, images: Option<seq<Image>>)

  /** `value || null` for an optional string: the empty string counts as
      absent. */
  function NullIfEmpty(s: Option<string>): (r: Option<string>)
    ensures r.None? <==> s.None? || s.value == ""
    ensures r.Some? ==> r == s
  {
    if s.Some? && s.value != "" then s else None
  }

  /** `cleanFaqData`: description defaults to "", an empty author becomes
      null; title, category and images are sent as given (an array, even an
      empty one, is truthy). */
  function CleanFaqData(faq: FaqInput): (r: FaqFields)
    ensures r.title == faq.title && r.category == faq.category && r.images == faq.images
    ensures r.description == faq.description.GetOr("")
    ensures r.author == NullIfEmpty(faq.author)
  {
    FaqFields(faq.title, faq.category, faq.description.GetOr(""), NullIfEmpty(faq.author), faq.images)
  }

  /** An acesso as handed to `addAcesso`; every field may be missing. */
  datatype AcessoInput = AcessoInput(
    posto: Option<string>, maquina: Option<string>, usuario: Option<string>, senha: Option<string>,
    adquirente: Option<string>, trabalhoAndamento: Option<string>, statusMaquininha: Option<string>)

  /** `s?.trim() || ""` */
  function TrimRequired(s: Option<string>): string {
    if s.None? then "" else Trim(s.value)
  }

  /** `s?.trim() || null` */
  function TrimOptional(s: Option<string>): Option<string> {
    if s.None? then None else TrimOrNull(s.value)
  }

  lemma TrimRequiredSpec(s: Option<string>)
    ensures IsTrimmed(TrimRequired(s))
    ensures TrimRequired(s) == "" <==> s.None? || IsBlank(s.value)
    ensures s.Some? ==> TrimRequired(s) == Trim(s.value)
  {
    if s.Some? {
      TrimShape(s.value);
    }
  }

  lemma TrimOptionalSpec(s: Option<string>)
    ensures TrimOptional(s).None? <==> s.None? || IsBlank(s.value)
    ensures TrimOptional(s).Some? ==>
      TrimOptional(s).value == Trim(s.value) && TrimOptional(s).value != "" && IsTrimmed(TrimOptional(s).value)
  {
    if s.Some? {
      TrimShape(s.value);
    }
  }

  /** `cleanAcessoData` */
  function CleanAcessoData(a: AcessoInput): AcessoFields {
    AcessoFields(
      TrimRequired(a.posto), TrimRequired(a.maquina), TrimRequired(a.usuario), TrimRequired(a.senha),
      TrimOptional(a.adquirente), TrimOptional(a.trabalhoAndamento), TrimOptional(a.statusMaquininha), None)
  }

  /** A required field as cleaned: the trimmed value, "" exactly when the
      value is missing or blank. */
  predicate CleanRequired(s: Option<string>, c: string) {
    IsTrimmed(c) && (c == "" <==> s.None? || IsBlank(s.value)) && (s.Some? ==> c == Trim(s.value))
  }

  /** An optional field as cleaned: null exactly when the value is missing
      or blank, otherwise the trimmed, non-empty value. */
  predicate CleanOptional(s: Option<string>, c: Option<string>) {
    (c.None? <==> s.None? || IsBlank(s.value))
    && (c.Some? ==> c.value == Trim(s.value) && c.value != "" && IsTrimmed(c.value))
  }

  /** Every field is trimmed; a blank or missing required field becomes "",
      a blank or missing optional one becomes null; no client flag is set. */
  lemma CleanAcessoDataSpec(a: AcessoInput)
    ensures var c := CleanAcessoData(a);
      CleanRequired(a.posto, c.posto) && CleanRequired(a.maquina, c.maquina)
      && CleanRequired(a.usuario, c.usuario) && CleanRequired(a.senha, c.senha)
      && CleanOptional(a.adquirente, c.adquirente)
      && CleanOptional(a.trabalhoAndamento, c.trabalhoAndamento)
      && CleanOptional(a.statusMaquininha, c.statusMaquininha)
      && c.expandido.None?
  {
    TrimRequiredSpec(a.posto);
    TrimRequiredSpec(a.maquina);
    TrimRequiredSpec(a.usuario);
    TrimRequiredSpec(a.senha);
    TrimOptionalSpec(a.adquirente);
    TrimOptionalSpec(a.trabalhoAndamento);
    TrimOptionalSpec(a.statusMaquininha);
  }

  /** Cleaning data that is already clean changes nothing. */
  lemma CleanAcessoDataIdempotent(a: AcessoInput)
    ensures var c := CleanAcessoData(a);
      CleanAcessoData(AcessoInput(Some(c.posto), Some(c.maquina), Some(c.usuario), Some(c.senha),
                                  c.adquirente, c.trabalhoAndamento, c.statusMaquininha)) == c
  {
    var c := CleanAcessoData(a);
    TrimRequiredSpec(a.posto);
    TrimRequiredSpec(a.maquina);
    TrimRequiredSpec(a.usuario);
    TrimRequiredSpec(a.senha);
    TrimOptionalSpec(a.adquirente);
    TrimOptionalSpec(a.trabalhoAndamento);
    TrimOptionalSpec(a.statusMaquininha);
    TrimOfTrimmed(c.posto);
    TrimOfTrimmed(c.maquina);
    TrimOfTrimmed(c.usuario);
    TrimOfTrimmed(c.senha);
    if c.adquirente.Some? {
      TrimOfTrimmed(c.adquirente.value);
    }
    if c.trabalhoAndamento.Some? {
      TrimOfTrimmed(c.trabalhoAndamento.value);
    }
    if c.statusMaquininha.Some? {
      TrimOfTrimmed(c.statusMaquininha.value);
    }
  }

  /** `a.name.localeCompare(b.name) <= 0`, given the locale's order on names. */
  function ByName(localeLe: (string, string) -> bool): (Author, Author) -> bool {
    (a: Author, b: Author) => localeLe(a.val.name, b.val.name)
  }

  /** `[...autores, author].sort(byName)`: the same authors plus the new
      one, in the locale's order of names. */
  lemma AddAuthorSorted(autores: seq<Author>, author: Author, localeLe: (string, string) -> bool)
    requires TotalPreorder(localeLe)
    ensures var r := SortBy(ByName(localeLe), autores + [author]);
      SortedBy(ByName(localeLe), r) && multiset(r) == multiset(autores) + multiset{author}
      && forall i, j :: 0 <= i < j < |r| ==> localeLe(r[i].val.name, r[j].val.name)
  {
    var leq := ByName(localeLe);
    assert TotalPreorder(leq) by {
      forall a: Author, b: Author, c: Author | leq(a, b) && leq(b, c) ensures leq(a, c) {
        assert localeLe(a.val.name, b.val.name) && localeLe(b.val.name, c.val.name);
      }
      forall a: Author, b: Author ensures leq(a, b) || leq(b, a) {
        assert localeLe(a.val.name, b.val.name) || localeLe(b.val.name, a.val.name);
      }
    }
    SortBySorted(leq, autores + [author]);
    SortByPermutes(leq, autores + [author]);
  }

  /** `\`...${x}\`` of an optional value: a missing one prints as
      "undefined". */
  function OrUndefined(s: Option<string>): string {
    s.GetOr("undefined")
  }

  function Quote(s: string): string {
    "\"" + s + "\""
  }

  class AppStore {
    var faqs: seq<Faq>
    var pendencias: seq<Pendencia>
    var acessos: seq<Acesso>
    var autores: seq<Author>
    var activities: seq<StoreActivity>

    /** The feed is capped at 50 entries. */
    predicate Valid()
      reads this
    {
      |activities| <= MaxActivities
    }

    constructor()
      ensures faqs == [] && pendencias == [] && acessos == [] && autores == [] && activities == []
      ensures Valid()
    {
      faqs := [];
      pendencias := [];
      acessos := [];
      autores := [];
      activities := [];
    }

    /** `addActivity`: the entry gets its id and time from `stamp`. */
    method AddActivity(kind: ActivityType, table: string, description: string, stamp: Stamp)
      modifies this
      ensures activities == PushActivity(old(activities), StoreActivity(stamp.id, kind, table, description, stamp.timestamp))
      ensures Valid()
      ensures faqs == old(faqs) && pendencias == old(pendencias) && acessos == old(acessos) && autores == old(autores)
    {
      activities := Slice([StoreActivity(stamp.id, kind, table, description, stamp.timestamp)] + activities, 0, MaxActivities);
      SlicePrefix([StoreActivity(stamp.id, kind, table, description, stamp.timestamp)] + activities, MaxActivities);
    }

    // -------------------------------------------------------------------
    // FAQs

    /** `addFaq(faq)`: `reply` is the row the database created from the
        cleaned data (`sent`). */
    method AddFaq(faq: FaqInput, reply: Reply<Faq>, stamp: Stamp) returns (sent: FaqFields, ok: bool)
      requires Valid()
      modifies this
      ensures Valid() && sent == CleanFaqData(faq) && ok == reply.Ok?
      ensures pendencias == old(pendencias) && acessos == old(acessos) && autores == old(autores)
      ensures !ok ==> faqs == old(faqs) && activities == old(activities)
      ensures ok ==> (faqs == [reply.value] + old(faqs)
        && activities == PushActivity(old(activities), StoreActivity(stamp.id, Create, "faqs", "FAQ " + Quote(faq.title) + " foi criado", stamp.timestamp)))
    {
      sent := CleanFaqData(faq);
      if reply.Err? {
        return sent, false;
      }
      faqs := [reply.value] + faqs;
      AddActivity(Create, "faqs", "FAQ " + Quote(faq.title) + " foi criado", stamp);
      ok := true;
    }

    /** `updateFaq(id, changes)`: the rows with the id are replaced by the
        row the database returns. */
    method UpdateFaq(id: int, reply: Reply<Faq>, stamp: Stamp) returns (ok: bool)
      requires Valid()
      modifies this
      ensures Valid() && ok == reply.Ok?
      ensures pendencias == old(pendencias) && acessos == old(acessos) && autores == old(autores)
      ensures !ok ==> faqs == old(faqs) && activities == old(activities)
      ensures ok ==> (faqs == ReplaceById(old(faqs), id, reply.value)
        && activities == PushActivity(old(activities), StoreActivity(stamp.id, Update, "faqs", "FAQ " + Quote(reply.value.val.title) + " foi atualizado", stamp.timestamp)))
    {
      if reply.Err? {
        return false;
      }
      faqs := ReplaceById(faqs, id, reply.value);
      AddActivity(Update, "faqs", "FAQ " + Quote(reply.value.val.title) + " foi atualizado", stamp);
      ok := true;
    }

    /** `deleteFaq(id)`: the title for the feed is looked up before the
        call. */
    method DeleteFaq(id: int, serverOk: bool, stamp: Stamp) returns (ok: bool)
      requires Valid()
      modifies this
      ensures Valid() && ok == serverOk
      ensures pendencias == old(pendencias) && acessos == old(acessos) && autores == old(autores)
      ensures !ok ==> faqs == old(faqs) && activities == old(activities)
      ensures ok ==> (faqs == RemoveById(old(faqs), id)
        && var title := match FindById(old(faqs), id) case Some(f) => Some(f.val.title) case None => None;
           activities == PushActivity(old(activities), StoreActivity(stamp.id, Delete, "faqs", "FAQ " + Quote(OrUndefined(title)) + " foi removido", stamp.timestamp)))
    {
      var faq := FindById(faqs, id);
      if !serverOk {
        return false;
      }
      faqs := RemoveById(faqs, id);
      var title := match faq case Some(f) => Some(f.val.title) case None => None;
      AddActivity(Delete, "faqs", "FAQ " + Quote(OrUndefined(title)) + " foi removido", stamp);
      ok := true;
    }

    // -------------------------------------------------------------------
    // Pendências

    method AddPendencia(pendencia: PendenciaFields, reply: Reply<Pendencia>, stamp: Stamp) returns (ok: bool)
      requires Valid()
      modifies this
      ensures Valid() && ok == reply.Ok?
      ensures faqs == old(faqs) && acessos == old(acessos) && autores == old(autores)
      ensures !ok ==> pendencias == old(pendencias) && activities == old(activities)
      ensures ok ==> (pendencias == [reply.value] + old(pendencias)
        && activities == PushActivity(old(activities), StoreActivity(stamp.id, Create, "pendencias", "Pendência " + Quote(pendencia.titulo) + " foi criada", stamp.timestamp)))
    {
      if reply.Err? {
        return false;
      }
      pendencias := [reply.value] + pendencias;
      AddActivity(Create, "pendencias", "Pendência " + Quote(pendencia.titulo) + " foi criada", stamp);
      ok := true;
    }

    method UpdatePendencia(id: int, reply: Reply<Pendencia>, stamp: Stamp) returns (ok: bool)
      requires Valid()
      modifies this
      ensures Valid() && ok == reply.Ok?
      ensures faqs == old(faqs) && acessos == old(acessos) && autores == old(autores)
      ensures !ok ==> pendencias == old(pendencias) && activities == old(activities)
      ensures ok ==> (pendencias == ReplaceById(old(pendencias), id, reply.value)
        && activities == PushActivity(old(activities), StoreActivity(stamp.id, Update, "pendencias", "Pendência " + Quote(reply.value.val.titulo) + " foi atualizada", stamp.timestamp)))
    {
      if reply.Err? {
        return false;
      }
      pendencias := ReplaceById(pendencias, id, reply.value);
      AddActivity(Update, "pendencias", "Pendência " + Quote(reply.value.val.titulo) + " foi atualizada", stamp);
      ok := true;
    }

    method DeletePendencia(id: int, serverOk: bool, stamp: Stamp) returns (ok: bool)
      requires Valid()
      modifies this
      ensures Valid() && ok == serverOk
      ensures faqs == old(faqs) && acessos == old(acessos) && autores == old(autores)
      ensures !ok ==> pendencias == old(pendencias) && activities == old(activities)
      ensures ok ==> (pendencias == RemoveById(old(pendencias), id)
        && var titulo := match FindById(old(pendencias), id) case Some(p) => Some(p.val.titulo) case None => None;
           activities == PushActivity(old(activities), StoreActivity(stamp.id, Delete, "pendencias", "Pendência " + Quote(OrUndefined(titulo)) + " foi removida", stamp.timestamp)))
    {
      var pendencia := FindById(pendencias, id);
      if !serverOk {
        return false;
      }
      pendencias := RemoveById(pendencias, id);
      var titulo := match pendencia case Some(p) => Some(p.val.titulo) case None => None;
      AddActivity(Delete, "pendencias", "Pendência " + Quote(OrUndefined(titulo)) + " foi removida", stamp);
      ok := true;
    }

    // -------------------------------------------------------------------
    // Acessos

    /** `addAcesso(acesso)`: the cleaned data (`sent`) is inserted; the feed
        names the posto as it was given, untrimmed. */
    method AddAcesso(acesso: AcessoInput, reply: Reply<Acesso>, stamp: Stamp) returns (sent: AcessoFields, ok: bool)
      requires Valid()
      modifies this
      ensures Valid() && sent == CleanAcessoData(acesso) && ok == reply.Ok?
      ensures faqs == old(faqs) && pendencias == old(pendencias) && autores == old(autores)
      ensures !ok ==> acessos == old(acessos) && activities == old(activities)
      ensures ok ==> (acessos == [reply.value] + old(acessos)
        && activities == PushActivity(old(activities), StoreActivity(stamp.id, Create, "acessos", "Acesso para " + Quote(OrUndefined(acesso.posto)) + " foi criado", stamp.timestamp)))
    {
      sent := CleanAcessoData(acesso);
      if reply.Err? {
        return sent, false;
      }
      acessos := [reply.value] + acessos;
      AddActivity(Create, "acessos", "Acesso para " + Quote(OrUndefined(acesso.posto)) + " foi criado", stamp);
      ok := true;
    }

    method UpdateAcesso(id: int, reply: Reply<Acesso>, stamp: Stamp) returns (ok: bool)
      requires Valid()
      modifies this
      ensures Valid() && ok == reply.Ok?
      ensures faqs == old(faqs) && pendencias == old(pendencias) && autores == old(autores)
      ensures !ok ==> acessos == old(acessos) && activities == old(activities)
      ensures ok ==> (acessos == ReplaceById(old(acessos), id, reply.value)
        && activities == PushActivity(old(activities), StoreActivity(stamp.id, Update, "acessos", "Acesso para " + Quote(reply.value.val.posto) + " foi atualizado", stamp.timestamp)))
    {
      if reply.Err? {
        return false;
      }
      acessos := ReplaceById(acessos, id, reply.value);
      AddActivity(Update, "acessos", "Acesso para " + Quote(reply.value.val.posto) + " foi atualizado", stamp);
      ok := true;
    }

    method DeleteAcesso(id: int, serverOk: bool, stamp: Stamp) returns (ok: bool)
      requires Valid()
      modifies this
      ensures Valid() && ok == serverOk
      ensures faqs == old(faqs) && pendencias == old(pendencias) && autores == old(autores)
      ensures !ok ==> acessos == old(acessos) && activities == old(activities)
      ensures ok ==> (acessos == RemoveById(old(acessos), id)
        && var posto := match FindById(old(acessos), id) case Some(a) => Some(a.val.posto) case None => None;
           activities == PushActivity(old(activities), StoreActivity(stamp.id, Delete, "acessos", "Acesso para " + Quote(OrUndefined(posto)) + " foi removido", stamp.timestamp)))
    {
      var acesso := FindById(acessos, id);
      if !serverOk {
        return false;
      }
      acessos := RemoveById(acessos, id);
      var posto := match acesso case Some(a) => Some(a.val.posto) case None => None;
      AddActivity(Delete, "acessos", "Acesso para " + Quote(OrUndefined(posto)) + " foi removido", stamp);
      ok := true;
    }

    // -------------------------------------------------------------------
    // Authors

    /** `addAuthor({ name })`: the created row is appended and the list
        sorted by name with the locale's comparison `localeLe`. */
    method AddAuthor(name: string, reply: Reply<Author>, localeLe: (string, string) -> bool, stamp: Stamp) returns (ok: bool)
      requires Valid()
      modifies this
      ensures Valid() && ok == reply.Ok?
      ensures faqs == old(faqs) && pendencias == old(pendencias) && acessos == old(acessos)
      ensures !ok ==> autores == old(autores) && activities == old(activities)
      ensures ok ==> (autores == SortBy(ByName(localeLe), old(autores) + [reply.value])
        && activities == PushActivity(old(activities), StoreActivity(stamp.id, Create, "authors", "Autor " + Quote(name) + " foi adicionado", stamp.timestamp)))
    {
      if reply.Err? {
        return false;
      }
      autores := SortBy(ByName(localeLe), autores + [reply.value]);
      AddActivity(Create, "authors", "Autor " + Quote(name) + " foi adicionado", stamp);
      ok := true;
    }

    method DeleteAuthor(id: int, serverOk: bool, stamp: Stamp) returns (ok: bool)
      requires Valid()
      modifies this
      ensures Valid() && ok == serverOk
      ensures faqs == old(faqs) && pendencias == old(pendencias) && acessos == old(acessos)
      ensures !ok ==> autores == old(autores) && activities == old(activities)
      ensures ok ==> (autores == RemoveById(old(autores), id)
        && var name := match FindById(old(autores), id) case Some(a) => Some(a.val.name) case None => None;
           activities == PushActivity(old(activities), StoreActivity(stamp.id, Delete, "authors", "Autor " + Quote(OrUndefined(name)) + " foi removido", stamp.timestamp)))
    {
      var author := FindById(autores, id);
      if !serverOk {
        return false;
      }
      autores := RemoveById(autores, id);
      var name := match author case Some(a) => Some(a.val.name) case None => None;
      AddActivity(Delete, "authors", "Autor " + Quote(OrUndefined(name)) + " foi removido", stamp);
      ok := true;
    }
  }
}
