/** The knowledge-base page (app/base-conhecimento/page.tsx): the FAQ
    search by text and category, the new-FAQ form and what it submits, and
    the category names shown on the cards. */
module KnowledgePage {
  import opened Common
  import opened Text
  import opened Lists
  import opened Records
  import opened Store

  // ---------------------------------------------------------------------
  // filteredFaqs

  /** The title or the description contains the term (ignoring case), and
      the category tab is "all" or the FAQ's own category. */
  predicate FaqShown(f: Faq, term: string, activeCategory: string) {
    (MatchesTerm(f.val.title, term) || MatchesTerm(f.val.description, term))
    && (activeCategory == "all" || f.val.category == activeCategory)
  }

  /** `faqs?.filter(...)`: no list gives no result. */
  function FilteredFaqs(faqs: Option<seq<Faq>>, term: string, activeCategory: string): Option<seq<Faq>> {
    match faqs
    case None => None
    case Some(rows) => Some(Filter(rows, (f: Faq) => FaqShown(f, term, activeCategory)))
  }

  /** A FAQ is shown exactly when it matches both the search and the tab;
      the shown ones keep their order, and on the "all" tab with no search
      every FAQ is shown. */
  lemma FilteredFaqsSpec(faqs: Option<seq<Faq>>, term: string, activeCategory: string)
    ensures FilteredFaqs(faqs, term, activeCategory).None? <==> faqs.None?
    ensures faqs.Some? ==>
      var r := FilteredFaqs(faqs, term, activeCategory).value;
      (forall f :: f in r <==> f in faqs.value && FaqShown(f, term, activeCategory))
      && Subsequence(r, faqs.value)
      && (term == "" && activeCategory == "all" ==> r == faqs.value)
  {
    if faqs.Some? {
      var p := (f: Faq) => FaqShown(f, term, activeCategory);
      forall f ensures f in Filter(faqs.value, p) <==> f in faqs.value && p(f) {
        FilterMembers(faqs.value, p, f);
      }
      FilterSubsequence(faqs.value, p);
      if term == "" && activeCategory == "all" {
        forall i | 0 <= i < |faqs.value| ensures p(faqs.value[i]) {
          EmptyTermMatches(faqs.value[i].val.title);
        }
        FilterLength(faqs.value, p);
      }
    }
  }

  // ---------------------------------------------------------------------
  // The new-FAQ form

  datatype FaqForm = FaqForm(title: string, category: string, description: string, author: string, images: seq<Image>)

  const EmptyFaqForm := FaqForm("", "", "", "", [])

  /** The text inputs `handleInputChange` is called for. */
  datatype FaqFormField = Title | Category | Description | Author

  function FieldValue(form: FaqForm, field: FaqFormField): string {
    match field
    case Title => form.title
    case Category => form.category
    case Description => form.description
    case Author => form.author
  }

  /** `{ ...formData, [field]: value }` */
  function WithField(form: FaqForm, field: FaqFormField, value: string): FaqForm {
    match field
    case Title => form.(title := value)
    case Category => form.(category := value)
    case Description => form.(description := value)
    case Author => form.(author := value)
  }

  /** The named field takes the value; every other field, the images
      included, stays; setting a field to what it holds changes nothing. */
  lemma WithFieldSpec(form: FaqForm, field: FaqFormField, value: string)
    ensures FieldValue(WithField(form, field, value), field) == value
    ensures forall other :: other != field ==> FieldValue(WithField(form, field, value), other) == FieldValue(form, other)
    ensures WithField(form, field, value).images == form.images
    ensures WithField(form, field, FieldValue(form, field)) == form
  {
  }

  /** What `handleSubmit` hands to `addFaq`: an empty title becomes
      "Novo FAQ", an empty description "Descrição do novo FAQ". */
  function FaqSubmission(form: FaqForm): FaqInput {
    FaqInput(
      OrElse(form.title, "Novo FAQ"),
      form.category,
      Some(OrElse(form.description, "Descrição do novo FAQ")),
      Some(form.author),
      Some(form.images))
  }

  /** The row the store writes for a submission has a title and a
      description, both as typed unless empty, and a null author exactly
      when none was typed. */
  lemma FaqSubmissionSpec(form: FaqForm)
    ensures var row := CleanFaqData(FaqSubmission(form));
      row.title != "" && row.description != ""
      && (form.title != "" ==> row.title == form.title)
      && (form.title == "" ==> row.title == "Novo FAQ")
      && (form.description != "" ==> row.description == form.description)
      && (form.description == "" ==> row.description == "Descrição do novo FAQ")
      && row.category == form.category && row.images == Some(form.images)
      && (row.author.None? <==> form.author == "")
  {
  }

  /** The save button is enabled only with a title and a category. */
  predicate SaveEnabled(form: FaqForm) {
    form.title != "" && form.category != ""
  }

  /** Through the button, the default title is never used and the title
      typed is the one written. */
  lemma SaveEnabledKeepsTitle(form: FaqForm)
    requires SaveEnabled(form)
    ensures FaqSubmission(form).title == form.title && CleanFaqData(FaqSubmission(form)).title == form.title
  {
  }

  class FaqFormState {
    var formData: FaqForm

    constructor()
      ensures formData == EmptyFaqForm
    {
      formData := EmptyFaqForm;
    }

    method HandleInputChange(field: FaqFormField, value: string)
      modifies this
      ensures formData == WithField(old(formData), field, value)
    {
      formData := WithField(formData, field, value);
    }

    /** `handleSubmit()`: the submission is sent to `addFaq`; `addOk` is
        whether that succeeded. On success the form is emptied; on failure
        it stays. */
    method HandleSubmit(addOk: bool) returns (sent: FaqInput)
      modifies this
      ensures sent == FaqSubmission(old(formData))
      ensures addOk ==> formData == EmptyFaqForm
      ensures !addOk ==> formData == old(formData)
    {
      sent := FaqSubmission(formData);
      if addOk {
        formData := EmptyFaqForm;
      }
    }
  }

  // ---------------------------------------------------------------------
  // Category names

  /** The categories of the tabs, as (id, name). */
  const Categories: seq<(string, string)> := [
    ("gerente", "Gerente"),
    ("pdv", "PDV"),
    ("pdv-movel", "PDV Móvel"),
    ("instalacao", "Instalação"),
    ("automacao", "Automação"),
    ("integracao", "Integração"),
    ("impressoras", "Impressoras"),
    ("pinpad", "PINPAD")]

  /** `categories.find((c) => c.id === id)` */
  function FindCategory(cats: seq<(string, string)>, id: string): Option<(string, string)>
    decreases |cats|
  {
    if cats == [] then None else if cats[0].0 == id then Some(cats[0]) else FindCategory(cats[1..], id)
  }

  /** `(find(...) || { id, name: id }).name` */
  function CategoryName(id: string): string {
    match FindCategory(Categories, id)
    case Some(c) => c.1
    case None => id
  }

  lemma {:induction false} FindCategorySpec(cats: seq<(string, string)>, id: string)
    ensures FindCategory(cats, id).None? <==> forall i :: 0 <= i < |cats| ==> cats[i].0 != id
    ensures FindCategory(cats, id).Some? ==>
      exists i :: (0 <= i < |cats| && cats[i] == FindCategory(cats, id).value && cats[i].0 == id
        && forall j :: 0 <= j < i ==> cats[j].0 != id)
    decreases |cats|
  {
    if cats != [] && cats[0].0 != id {
      FindCategorySpec(cats[1..], id);
      if FindCategory(cats, id).Some? {
        var i :| 0 <= i < |cats[1..]| && cats[1..][i] == FindCategory(cats, id).value && cats[1..][i].0 == id
          && forall j :: 0 <= j < i ==> cats[1..][j].0 != id;
        assert cats[i + 1] == cats[1..][i];
        assert forall j :: 0 <= j < i + 1 ==> cats[j].0 != id by {
          forall j | 0 <= j < i + 1 ensures cats[j].0 != id {
            if j > 0 {
              assert cats[j] == cats[1..][j - 1];
            }
          }
        }
      }
      assert forall i :: 0 < i < |cats| ==> cats[i] == cats[1..][i - 1];
    } else if cats != [] {
      assert cats[0] == FindCategory(cats, id).value;
    }
  }

  /** A listed id shows its listed name; any other id shows itself. */
  lemma CategoryNameSpec(id: string)
    ensures forall i :: 0 <= i < |Categories| && Categories[i].0 == id ==> CategoryName(id) == Categories[i].1
    ensures (forall i :: 0 <= i < |Categories| ==> Categories[i].0 != id) ==> CategoryName(id) == id
    ensures CategoryName("pdv-movel") == "PDV Móvel" && CategoryName("pinpad") == "PINPAD"
  {
    FindCategorySpec(Categories, id);
    assert forall i, j :: 0 <= i < j < |Categories| ==> Categories[i].0 != Categories[j].0;
    FindCategorySpec(Categories, "pdv-movel");
    FindCategorySpec(Categories, "pinpad");
    assert Categories[2] == ("pdv-movel", "PDV Móvel") && Categories[7] == ("pinpad", "PINPAD");
  }
}
