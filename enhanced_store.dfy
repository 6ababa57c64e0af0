/** The persisted application store with realtime activity tracking
    (lib/enhanced-store.ts): its activity feed, the queries and payloads it
    builds, the per-day SPED summary, and what it writes to local storage. */
module EnhancedStore {
  import opened Common
  import opened Text
  import opened Lists
  import opened Tables
  import opened Records
  import opened Activities

  const MaxActivities: nat := 50

  /** What a caller gives `addActivity`; id and time are added. */
  datatype ActivityInput = ActivityInput(title: string, description: Option<string>, kind: string, author: Option<string>, action: string)

  /** `[{ ...activity, id, timestamp, isNew: true }, ...activities.slice(0, 49)]` */
  function PushNew(activities: seq<ActivityItem>, a: ActivityInput, id: string, timestamp: int): seq<ActivityItem> {
    [ActivityItem(id, a.title, a.description, a.kind, timestamp, a.author, Some(true), Some(a.action))]
      + Slice(activities, 0, MaxActivities - 1)
  }

  /** The new entry is first and highlighted, the rest is the start of the
      old feed, and the feed holds at most 50 entries. */
  lemma PushNewSpec(activities: seq<ActivityItem>, a: ActivityInput, id: string, timestamp: int)
    ensures var r := PushNew(activities, a, id, timestamp);
      1 <= |r| <= MaxActivities && |r| == Min(|activities| + 1, MaxActivities)
      && r[0].id == id && r[0].isNew == Some(true) && r[0].title == a.title
      && r[1..] == activities[..|r| - 1]
  {
    SlicePrefix(activities, MaxActivities - 1);
  }

  /** The two stores cap their feeds differently (`[a, ...s].slice(0, 50)`
      and `[a, ...s.slice(0, 49)]`) with the same result. */
  lemma CapsAgree<T>(x: T, s: seq<T>)
    ensures Slice([x] + s, 0, 50) == [x] + Slice(s, 0, 49)
  {
    SliceAfterPrepend(x, s, 50);
  }

  // ---------------------------------------------------------------------
  // Queries and payloads

  /** `getFaqsByCategory(category)` */
  function FaqsByCategory(faqs: seq<Faq>, category: string): seq<Faq> {
    if category == "all" then faqs else Filter(faqs, (f: Faq) => f.val.category == category)
  }

  /** "all" gives every FAQ; any other category exactly the FAQs in it, in
      their order. */
  lemma FaqsByCategorySpec(faqs: seq<Faq>, category: string)
    ensures category == "all" ==> FaqsByCategory(faqs, category) == faqs
    ensures category != "all" ==>
      (forall f :: f in FaqsByCategory(faqs, category) <==> f in faqs && f.val.category == category)
      && Subsequence(FaqsByCategory(faqs, category), faqs)
  {
    if category != "all" {
      var p := (f: Faq) => f.val.category == category;
      forall f ensures f in Filter(faqs, p) <==> f in faqs && p(f) {
        FilterMembers(faqs, p, f);
      }
      FilterSubsequence(faqs, p);
    }
  }

  /** The image list `addImageToFaq` sends: none for an unknown FAQ (the
      call returns before writing), otherwise the FAQ's images, or none,
      followed by the new one. */
  function AddImagePayload(faqs: seq<Faq>, faqId: int, image: Image): Option<seq<Image>> {
    match FindById(faqs, faqId)
    case None => None
    case Some(faq) => Some(faq.val.images.GetOr([]) + [image])
  }

  lemma AddImagePayloadSpec(faqs: seq<Faq>, faqId: int, image: Image)
    ensures AddImagePayload(faqs, faqId, image).None? <==> !HasId(faqs, faqId)
    ensures AddImagePayload(faqs, faqId, image).Some? ==>
      var imgs := AddImagePayload(faqs, faqId, image).value;
      var faq := FindById(faqs, faqId).value;
      faq in faqs && faq.id == faqId
      && |imgs| >= 1 && imgs[|imgs| - 1] == image && imgs[..|imgs| - 1] == faq.val.images.GetOr([])
  {
    FindByIdSpec(faqs, faqId);
  }

  /** The fields `updateAcesso` may be given, by their camelCase names. */
  datatype AcessoPatch = AcessoPatch(
    posto: Option<string>, maquina: Option<string>, usuario: Option<string>, senha: Option<string>,
    adquirente: Option<string>, trabalhoAndamento: Option<string>, statusMaquininha: Option<string>)

  predicate Truthy(s: Option<string>) {
    s.Some? && s.value != ""
  }

  /** `if (s) payload[column] = s` */
  function PutIfTruthy(payload: map<string, string>, column: string, s: Option<string>): map<string, string> {
    if Truthy(s) then payload[column := s.value] else payload
  }

  /** The `updateData` object of `updateAcesso` */
  function AcessoUpdatePayload(p: AcessoPatch): map<string, string> {
    var m0: map<string, string> := map[];
    var m1 := PutIfTruthy(m0, "posto", p.posto);
    var m2 := PutIfTruthy(m1, "maquina", p.maquina);
    var m3 := PutIfTruthy(m2, "usuario", p.usuario);
    var m4 := PutIfTruthy(m3, "senha", p.senha);
    var m5 := PutIfTruthy(m4, "adquirente", p.adquirente);
    var m6 := PutIfTruthy(m5, "trabalho_andamento", p.trabalhoAndamento);
    PutIfTruthy(m6, "status_maquininha", p.statusMaquininha)
  }

  /** Only truthy fields are sent, each under its snake_case column. */
  lemma AcessoUpdatePayloadSpec(p: AcessoPatch)
    ensures var m := AcessoUpdatePayload(p);
      m.Keys <= {"posto", "maquina", "usuario", "senha", "adquirente", "trabalho_andamento", "status_maquininha"}
      && ("posto" in m <==> Truthy(p.posto)) && ("posto" in m ==> m["posto"] == p.posto.value)
      && ("maquina" in m <==> Truthy(p.maquina)) && ("maquina" in m ==> m["maquina"] == p.maquina.value)
      && ("usuario" in m <==> Truthy(p.usuario)) && ("usuario" in m ==> m["usuario"] == p.usuario.value)
      && ("senha" in m <==> Truthy(p.senha)) && ("senha" in m ==> m["senha"] == p.senha.value)
      && ("adquirente" in m <==> Truthy(p.adquirente)) && ("adquirente" in m ==> m["adquirente"] == p.adquirente.value)
      && ("trabalho_andamento" in m <==> Truthy(p.trabalhoAndamento))
      && ("trabalho_andamento" in m ==> m["trabalho_andamento"] == p.trabalhoAndamento.value)
      && ("status_maquininha" in m <==> Truthy(p.statusMaquininha))
      && ("status_maquininha" in m ==> m["status_maquininha"] == p.statusMaquininha.value)
  {
  }

  /** The fields `updateSped` may be given. */
  datatype SpedPatch = SpedPatch(date: Option<string>, author: Option<string>, count: Option<int>)

  /** The object `updateSped` sends; an absent field is a key not sent. */
  datatype SpedUpdate = SpedUpdate(date: Option<string>, author: Option<string>, count: Option<int>)

  /** `{ ...(date && { date }), ...(author && { author }), ...(count !== undefined && { count }) }` */
  function SpedUpdatePayload(p: SpedPatch): SpedUpdate {
    SpedUpdate(if Truthy(p.date) then p.date else None, if Truthy(p.author) then p.author else None, p.count)
  }

  /** `count` is sent whenever it is given, 0 included, but an empty date or
      author is not. */
  lemma SpedUpdatePayloadSpec(p: SpedPatch)
    ensures SpedUpdatePayload(p).count == p.count
    ensures SpedUpdatePayload(p).date.Some? <==> Truthy(p.date)
    ensures SpedUpdatePayload(p).author.Some? <==> Truthy(p.author)
    ensures SpedUpdatePayload(p).date.Some? ==> SpedUpdatePayload(p).date == p.date
    ensures SpedUpdatePayload(p).author.Some? ==> SpedUpdatePayload(p).author == p.author
    ensures SpedUpdatePayload(SpedPatch(Some(""), Some(""), Some(0))) == SpedUpdate(None, None, Some(0))
  {
  }

  /** The word `updatePendenciaStatus` puts in the feed for a status. */
  function StatusText(status: string): (r: string)
    ensures r == "concluída" <==> status == Concluido
    ensures r == "em andamento" <==> status == EmAndamento
    ensures r == "pendente" <==> status != Concluido && status != EmAndamento
  {
    if status == Concluido then "concluída" else if status == EmAndamento then "em andamento" else "pendente"
  }

  // ---------------------------------------------------------------------
  // Daily SPED summary

  datatype SpedFields = SpedFields(date: string, author: string, count: int)

  type Sped = Row<SpedFields>

  /** `byAuthor`: each author once, with a count. */
  type Tally = seq<(string, int)>

  datatype DailySpedSummary = DailySpedSummary(date: string, totalCount: int, byAuthor: Tally)

  /** `speds.filter((s) => s.date === date)` */
  function DailySpeds(speds: seq<Sped>, date: string): seq<Sped> {
    Filter(speds, (s: Sped) => s.val.date == date)
  }

  /** The sum of the counts. */
  function Total(s: seq<Sped>): int
    decreases |s|
  {
    if s == [] then 0 else Total(s[..|s| - 1]) + s[|s| - 1].val.count
  }

  /** The sum of one author's counts. */
  function AuthorTotal(s: seq<Sped>, author: string): int
    decreases |s|
  {
    if s == [] then 0
    else AuthorTotal(s[..|s| - 1], author) + (if s[|s| - 1].val.author == author then s[|s| - 1].val.count else 0)
  }

  predicate HasAuthor(s: seq<Sped>, author: string) {
    exists i :: 0 <= i < |s| && s[i].val.author == author
  }

  function Lookup(t: Tally, author: string): Option<int>
    decreases |t|
  {
    if t == [] then None else if t[0].0 == author then Some(t[0].1) else Lookup(t[1..], author)
  }

  function SumValues(t: Tally): int
    decreases |t|
  {
    if t == [] then 0 else t[0].1 + SumValues(t[1..])
  }

  /** No author appears twice in the tally. */
  predicate DistinctKeys(t: Tally)
    decreases |t|
  {
    t == [] || (Lookup(t[1..], t[0].0).None? && DistinctKeys(t[1..]))
  }

  /** `byAuthor[author] = (byAuthor[author] || 0) + count` */
  function Bump(t: Tally, author: string, count: int): Tally
    decreases |t|
  {
    if t == [] then [(author, count)]
    else if t[0].0 == author then [(author, t[0].1 + count)] + t[1..]
    else [t[0]] + Bump(t[1..], author, count)
  }

  /** The `forEach` over the day's SPEDs, one `Bump` per SPED. */
  function TallyOf(s: seq<Sped>): Tally
    decreases |s|
  {
    if s == [] then [] else Bump(TallyOf(s[..|s| - 1]), s[|s| - 1].val.author, s[|s| - 1].val.count)
  }

  /** A bump adds its count to the tally's sum. */
  lemma {:induction false} BumpSum(t: Tally, author: string, count: int)
    ensures SumValues(Bump(t, author, count)) == SumValues(t) + count
    decreases |t|
  {
    if t != [] && t[0].0 != author {
      BumpSum(t[1..], author, count);
      assert Bump(t, author, count)[1..] == Bump(t[1..], author, count);
    } else if t != [] {
      assert Bump(t, author, count)[1..] == t[1..];
    }
  }

  /** A bump adds its count to its author's entry, or makes one, and leaves
      every other author's entry. */
  lemma {:induction false} BumpLookup(t: Tally, author: string, count: int, b: string)
    ensures Lookup(Bump(t, author, count), b) ==
      if b == author then Some(Lookup(t, author).GetOr(0) + count) else Lookup(t, b)
    decreases |t|
  {
    if t != [] && t[0].0 != author {
      BumpLookup(t[1..], author, count, b);
      assert Bump(t, author, count)[1..] == Bump(t[1..], author, count);
    } else if t != [] {
      assert Bump(t, author, count)[1..] == t[1..];
    }
  }

  /** A bump never makes an author appear twice. */
  lemma {:induction false} BumpDistinct(t: Tally, author: string, count: int)
    requires DistinctKeys(t)
    ensures DistinctKeys(Bump(t, author, count))
    decreases |t|
  {
    if t != [] && t[0].0 != author {
      BumpDistinct(t[1..], author, count);
      BumpLookup(t[1..], author, count, t[0].0);
      assert Bump(t, author, count)[1..] == Bump(t[1..], author, count);
    } else if t != [] {
      assert Bump(t, author, count)[1..] == t[1..];
    }
  }

  /** A key of the tally is the author of one of the SPEDs. */
  lemma {:induction false} TallyKeys(s: seq<Sped>, k: string)
    ensures Lookup(TallyOf(s), k).Some? <==> HasAuthor(s, k)
    ensures Lookup(TallyOf(s), k) == if HasAuthor(s, k) then Some(AuthorTotal(s, k)) else None
    decreases |s|
  {
    if s != [] {
      var init := s[..|s| - 1];
      var last := s[|s| - 1];
      TallyKeys(init, k);
      BumpLookup(TallyOf(init), last.val.author, last.val.count, k);
      assert HasAuthor(s, k) <==> HasAuthor(init, k) || last.val.author == k by {
        if HasAuthor(s, k) && last.val.author != k {
          var i :| 0 <= i < |s| && s[i].val.author == k;
          assert init[i] == s[i];
        }
        if HasAuthor(init, k) {
          var i :| 0 <= i < |init| && init[i].val.author == k;
          assert s[i] == init[i];
        }
      }
      if last.val.author == k && !HasAuthor(init, k) {
        AuthorTotalAbsent(init, k);
      }
    }
  }

  /** An author with no SPED has a total of 0. */
  lemma {:induction false} AuthorTotalAbsent(s: seq<Sped>, k: string)
    requires !HasAuthor(s, k)
    ensures AuthorTotal(s, k) == 0
    decreases |s|
  {
    if s != [] {
      var init := s[..|s| - 1];
      assert !HasAuthor(init, k) by {
        forall i | 0 <= i < |init| ensures init[i].val.author != k {
          assert init[i] == s[i];
        }
      }
      AuthorTotalAbsent(init, k);
    }
  }

  /** The tally's counts add up to the day's total, it names each author
      once, and each author's count is the sum of that author's SPEDs. */
  lemma {:induction false} TallyAddsUp(s: seq<Sped>)
    ensures SumValues(TallyOf(s)) == Total(s)
    ensures DistinctKeys(TallyOf(s))
    ensures forall k :: Lookup(TallyOf(s), k) == if HasAuthor(s, k) then Some(AuthorTotal(s, k)) else None
    decreases |s|
  {
    if s != [] {
      var init := s[..|s| - 1];
      TallyAddsUp(init);
      BumpSum(TallyOf(init), s[|s| - 1].val.author, s[|s| - 1].val.count);
      BumpDistinct(TallyOf(init), s[|s| - 1].val.author, s[|s| - 1].val.count);
    }
    forall k ensures Lookup(TallyOf(s), k) == if HasAuthor(s, k) then Some(AuthorTotal(s, k)) else None {
      TallyKeys(s, k);
    }
  }

  /** `getDailySummary(date)`: the SPEDs of the day are summed with a
      `reduce` and tallied per author with a `forEach`. */
  method GetDailySummary(speds: seq<Sped>, date: string) returns (summary: DailySpedSummary)
    ensures summary.date == date
    ensures summary.totalCount == Total(DailySpeds(speds, date))
    ensures summary.byAuthor == TallyOf(DailySpeds(speds, date))
  {
    var daily := DailySpeds(speds, date);
    var totalCount := 0;
    for i := 0 to |daily|
      invariant totalCount == Total(daily[..i])
    {
      assert daily[..i + 1][..i] == daily[..i];
      totalCount := totalCount + daily[i].val.count;
    }
    var byAuthor: Tally := [];
    for i := 0 to |daily|
      invariant byAuthor == TallyOf(daily[..i])
    {
      assert daily[..i + 1][..i] == daily[..i];
      byAuthor := Bump(byAuthor, daily[i].val.author, daily[i].val.count);
    }
    assert daily[..|daily|] == daily;
    summary := DailySpedSummary(date, totalCount, byAuthor);
  }

  // ---------------------------------------------------------------------
  // What is persisted

  /** The data part of the store's state. */
  datatype StoreState = StoreState(
    theme: string,
    activities: seq<ActivityItem>,
    isConnected: bool,
    faqs: seq<Faq>,
    autores: seq<Author>,
    acessos: seq<Acesso>,
    pendencias: seq<Pendencia>,
    speds: seq<Sped>)

  /** A FAQ without its images. */
  datatype PersistedFaq = PersistedFaq(id: int, title: string, category: string, description: string, author: Option<string>)

  datatype PersistedState = PersistedState(
    faqs: seq<PersistedFaq>,
    autores: seq<Author>,
    acessos: seq<Acesso>,
    pendencias: seq<Pendencia>,
    speds: seq<Sped>)

  function StripImages(f: Faq): PersistedFaq {
    PersistedFaq(f.id, f.val.title, f.val.category, f.val.description, f.val.author)
  }

  /** `partialize`: drops the feed, the connection flag and the theme, and
      every FAQ's images. */
  function Partialize(s: StoreState): PersistedState {
    PersistedState(seq(|s.faqs|, i requires 0 <= i < |s.faqs| => StripImages(s.faqs[i])), s.autores, s.acessos, s.pendencias, s.speds)
  }

  /** Two states are persisted alike exactly when they agree on everything
      but the feed, the connection flag, the theme and the FAQ images. */
  lemma PartializeForgetsExactly(s: StoreState, t: StoreState)
    ensures Partialize(s) == Partialize(t) <==>
      s.autores == t.autores && s.acessos == t.acessos && s.pendencias == t.pendencias && s.speds == t.speds
      && |s.faqs| == |t.faqs|
      && forall i :: 0 <= i < |s.faqs| ==>
        s.faqs[i].id == t.faqs[i].id && s.faqs[i].val.(images := None) == t.faqs[i].val.(images := None)
  {
    if Partialize(s) == Partialize(t) {
      assert |Partialize(s).faqs| == |s.faqs|;
      forall i | 0 <= i < |s.faqs|
        ensures s.faqs[i].id == t.faqs[i].id && s.faqs[i].val.(images := None) == t.faqs[i].val.(images := None)
      {
        assert Partialize(s).faqs[i] == Partialize(t).faqs[i];
      }
    }
  }

  class EnhancedAppStore {
    var activities: seq<ActivityItem>
    var pendencias: seq<Pendencia>

    predicate Valid()
      reads this
    {
      |activities| <= MaxActivities
    }

    constructor()
      ensures activities == [] && pendencias == [] && Valid()
    {
      activities := [];
      pendencias := [];
    }

    /** `addActivity(activity)`; `id` and `timestamp` are the generated id
        and the current time. */
    method AddActivity(a: ActivityInput, id: string, timestamp: int)
      modifies this
      ensures activities == PushNew(old(activities), a, id, timestamp)
      ensures pendencias == old(pendencias)
      ensures Valid()
    {
      activities := [ActivityItem(id, a.title, a.description, a.kind, timestamp, a.author, Some(true), Some(a.action))]
        + Slice(activities, 0, MaxActivities - 1);
      SlicePrefix(old(activities), MaxActivities - 1);
    }

    /** The timer that follows `addActivity`: the entry is no longer new. */
    method ClearNewFlag(id: string)
      requires Valid()
      modifies this
      ensures activities == SetNewFlag(old(activities), id, false)
      ensures pendencias == old(pendencias)
      ensures Valid()
    {
      activities := SetNewFlag(activities, id, false);
    }

    method ClearActivities()
      modifies this
      ensures activities == [] && pendencias == old(pendencias) && Valid()
    {
      activities := [];
    }

    /** `updatePendenciaStatus(id, status)`: only the server row changes;
        locally a feed entry is added, titled with the status word and
        described by the pendência's title (looked up before the call) or
        "Status atualizado". */
    method UpdatePendenciaStatus(id: int, status: string, serverOk: bool, activityId: string, timestamp: int) returns (ok: bool)
      modifies this
      ensures ok == serverOk && pendencias == old(pendencias)
      ensures !ok ==> activities == old(activities)
      ensures ok ==>
        var p := FindById(old(pendencias), id);
        var titulo := if p.Some? then p.value.val.titulo else "";
        var author := if p.Some? then p.value.val.author else None;
        activities == PushNew(old(activities),
          ActivityInput("Pendência " + StatusText(status), Some(OrElse(titulo, "Status atualizado")), "pendencia", author, "updated"),
          activityId, timestamp)
    {
      var pendencia := FindById(pendencias, id);
      if !serverOk {
        return false;
      }
      var titulo := if pendencia.Some? then pendencia.value.val.titulo else "";
      var author := if pendencia.Some? then pendencia.value.val.author else None;
      AddActivity(ActivityInput("Pendência " + StatusText(status), Some(OrElse(titulo, "Status atualizado")), "pendencia", author, "updated"),
        activityId, timestamp);
      ok := true;
    }
  }
}
