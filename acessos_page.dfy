/** The acessos page (app/acessos/page.tsx): the search over the realtime
    list, the expand/collapse flag of a row, and the new-acesso and
    edit-acesso forms. */
module AcessosPage {
  import opened Common
  import opened Text
  import opened Lists
  import opened Tables
  import opened Records
  import opened Store

  // ---------------------------------------------------------------------
  // filteredAcessos

  /** The posto, the maquina or the usuario contains the term, ignoring
      case. */
  predicate AcessoMatches(a: Acesso, term: string) {
    MatchesTerm(a.val.posto, term) || MatchesTerm(a.val.maquina, term) || MatchesTerm(a.val.usuario, term)
  }

  /** `acessos?.filter(matches) || []`: no list gives an empty result. */
  function FilteredAcessos(acessos: Option<seq<Acesso>>, term: string): seq<Acesso> {
    match acessos
    case None => []
    case Some(rows) => Filter(rows, (a: Acesso) => AcessoMatches(a, term))
  }

  /** The result holds exactly the matching acessos of the list, in their
      order; with no list it is empty, and an empty term keeps the whole
      list. */
  lemma FilteredAcessosSpec(acessos: Option<seq<Acesso>>, term: string)
    ensures acessos.None? ==> FilteredAcessos(acessos, term) == []
    ensures acessos.Some? ==>
      (forall a :: a in FilteredAcessos(acessos, term) <==> a in acessos.value && AcessoMatches(a, term))
      && Subsequence(FilteredAcessos(acessos, term), acessos.value)
      && (term == "" ==> FilteredAcessos(acessos, term) == acessos.value)
  {
    if acessos.Some? {
      var f := (a: Acesso) => AcessoMatches(a, term);
      forall a ensures a in Filter(acessos.value, f) <==> a in acessos.value && AcessoMatches(a, term) {
        FilterMembers(acessos.value, f, a);
      }
      FilterSubsequence(acessos.value, f);
      if term == "" {
        forall i | 0 <= i < |acessos.value| ensures f(acessos.value[i]) {
          EmptyTermMatches(acessos.value[i].val.posto);
        }
        FilterLength(acessos.value, f);
      }
    }
  }

  // ---------------------------------------------------------------------
  // toggleExpansao

  /** `!acesso.expandido`: a missing flag reads as false. */
  function Toggled(f: AcessoFields): AcessoFields {
    f.(expandido := Some(f.expandido != Some(true)))
  }

  /** `acessos.map((a) => (a.id === id ? { ...a, expandido: !a.expandido } : a))` */
  function ToggleExpansaoOf(rows: seq<Acesso>, id: int): seq<Acesso> {
    UpdateById(rows, id, Toggled)
  }

  /** Only the rows with the id change, and only in their flag, which is
      flipped. Toggling twice gives the list back, except that a missing
      flag comes back as an explicit false (it is shown the same). */
  lemma ToggleExpansaoSpec(rows: seq<Acesso>, id: int)
    ensures var r := ToggleExpansaoOf(rows, id);
      |r| == |rows|
      && (forall i :: 0 <= i < |rows| && rows[i].id != id ==> r[i] == rows[i])
      && (forall i :: 0 <= i < |rows| && rows[i].id == id ==>
            r[i].id == id && r[i].val.(expandido := rows[i].val.expandido) == rows[i].val
            && (r[i].val.expandido == Some(true) <==> rows[i].val.expandido != Some(true)))
    ensures var rr := ToggleExpansaoOf(ToggleExpansaoOf(rows, id), id);
      |rr| == |rows|
      && (forall i :: 0 <= i < |rows| ==>
            rr[i].id == rows[i].id && rr[i].val.(expandido := rows[i].val.expandido) == rows[i].val
            && (rr[i].val.expandido == Some(true) <==> rows[i].val.expandido == Some(true)))
      && ((forall i :: 0 <= i < |rows| ==> rows[i].val.expandido.Some?) ==> rr == rows)
  {
    var r := ToggleExpansaoOf(rows, id);
    var rr := ToggleExpansaoOf(r, id);
    forall i | 0 <= i < |rows| && rows[i].id == id
      ensures r[i].id == id && r[i].val == Toggled(rows[i].val)
      ensures rr[i].id == id && rr[i].val == Toggled(Toggled(rows[i].val))
    {
    }
    forall i | 0 <= i < |rows|
      ensures rr[i].id == rows[i].id && rr[i].val.(expandido := rows[i].val.expandido) == rows[i].val
      ensures rr[i].val.expandido == Some(true) <==> rows[i].val.expandido == Some(true)
      ensures rows[i].val.expandido.Some? ==> rr[i] == rows[i]
    {
      if rows[i].id == id && rows[i].val.expandido.Some? {
        var v := rows[i].val;
        if v.expandido == Some(true) {
          assert Toggled(v).expandido == Some(false);
        } else {
          assert v.expandido.Some? && !v.expandido.value;
          assert v.expandido == Some(false);
          assert Toggled(v).expandido == Some(true);
        }
        assert Toggled(Toggled(v)) == v.(expandido := v.expandido) == v;
      }
    }
  }

  // ---------------------------------------------------------------------
  // The new-acesso form

  /** The text inputs of the form. */
  datatype AcessoForm = AcessoForm(
    posto: string, maquina: string, usuario: string, senha: string,
    adquirente: string, trabalhoAndamento: string, statusMaquininha: string)

  const EmptyForm := AcessoForm("", "", "", "", "", "", "")

  datatype RequiredField = Posto | Maquina | Usuario | Senha

  /** The field whose check stops `handleSubmit`: the checks run on posto,
      maquina, usuario and senha in this order, and the first blank one
      ends the submission. */
  function FirstBlank(f: AcessoForm): Option<RequiredField> {
    if IsBlank(f.posto) then Some(Posto)
    else if IsBlank(f.maquina) then Some(Maquina)
    else if IsBlank(f.usuario) then Some(Usuario)
    else if IsBlank(f.senha) then Some(Senha)
    else None
  }

  function FieldText(f: AcessoForm, k: RequiredField): string {
    match k
    case Posto => f.posto
    case Maquina => f.maquina
    case Usuario => f.usuario
    case Senha => f.senha
  }

  function Rank(k: RequiredField): nat {
    match k
    case Posto => 0
    case Maquina => 1
    case Usuario => 2
    case Senha => 3
  }

  /** The field reported is blank and every field checked before it is
      not; no report means no required field is blank. */
  lemma FirstBlankSpec(f: AcessoForm)
    ensures FirstBlank(f).Some? ==>
      IsBlank(FieldText(f, FirstBlank(f).value))
      && forall k: RequiredField :: Rank(k) < Rank(FirstBlank(f).value) ==> !IsBlank(FieldText(f, k))
    ensures FirstBlank(f).None? <==>
      !IsBlank(f.posto) && !IsBlank(f.maquina) && !IsBlank(f.usuario) && !IsBlank(f.senha)
  {
  }

  /** `acessoData`: every field trimmed, a blank optional field null. */
  function AcessoData(f: AcessoForm): AcessoInput {
    AcessoInput(
      Some(Trim(f.posto)), Some(Trim(f.maquina)), Some(Trim(f.usuario)), Some(Trim(f.senha)),
      TrimOrNull(f.adquirente), TrimOrNull(f.trabalhoAndamento), TrimOrNull(f.statusMaquininha))
  }

  /** The store's own cleaning of what the page sends (`addAcesso`)
      changes nothing: the page already sends clean data, and the row
      written is exactly the trimmed form. */
  lemma AcessoDataIsClean(f: AcessoForm)
    ensures CleanAcessoData(AcessoData(f)) ==
      AcessoFields(Trim(f.posto), Trim(f.maquina), Trim(f.usuario), Trim(f.senha),
        TrimOrNull(f.adquirente), TrimOrNull(f.trabalhoAndamento), TrimOrNull(f.statusMaquininha), None)
  {
    var d := AcessoData(f);
    TrimIdempotent(f.posto);
    TrimIdempotent(f.maquina);
    TrimIdempotent(f.usuario);
    TrimIdempotent(f.senha);
    forall s | s in [f.adquirente, f.trabalhoAndamento, f.statusMaquininha]
      ensures TrimOptional(TrimOrNull(s)) == TrimOrNull(s)
    {
      if TrimOrNull(s).Some? {
        TrimIdempotent(s);
      }
    }
  }

  /** The fields of the edit dialog (app/acessos/page.tsx:528-582). */
  datatype EditField = EditPosto | EditMaquina | EditUsuario | EditSenha
    | EditAdquirente | EditTrabalhoAndamento | EditStatusMaquininha

  /** What the dialog's input for `k` holds, null for an unset optional
      field. */
  function EditedText(a: AcessoFields, k: EditField): Option<string> {
    match k
    case EditPosto => Some(a.posto)
    case EditMaquina => Some(a.maquina)
    case EditUsuario => Some(a.usuario)
    case EditSenha => Some(a.senha)
    case EditAdquirente => a.adquirente
    case EditTrabalhoAndamento => a.trabalhoAndamento
    case EditStatusMaquininha => a.statusMaquininha
  }

  /** `{ ...editandoAcesso, [k]: value }` */
  function WithEdit(a: AcessoFields, k: EditField, value: string): AcessoFields {
    match k
    case EditPosto => a.(posto := value)
    case EditMaquina => a.(maquina := value)
    case EditUsuario => a.(usuario := value)
    case EditSenha => a.(senha := value)
    case EditAdquirente => a.(adquirente := Some(value))
    case EditTrabalhoAndamento => a.(trabalhoAndamento := Some(value))
    case EditStatusMaquininha => a.(statusMaquininha := Some(value))
  }

  /** An edit sets the named field to the text typed and leaves every other
      field, and the expansion flag, as it was. */
  lemma WithEditSpec(a: AcessoFields, k: EditField, value: string)
    ensures EditedText(WithEdit(a, k, value), k) == Some(value)
    ensures forall j: EditField :: j != k ==> EditedText(WithEdit(a, k, value), j) == EditedText(a, j)
    ensures WithEdit(a, k, value).expandido == a.expandido
  {
  }

  class AcessosPageState {
    /** The realtime list the page shows. */
    var acessos: seq<Acesso>
    var form: AcessoForm
    var isDialogOpen: bool
    /** The acesso open in the edit dialog, if any. */
    var editando: Option<Acesso>

    constructor(initial: seq<Acesso>)
      ensures acessos == initial && form == EmptyForm && !isDialogOpen && editando == None
    {
      acessos := initial;
      form := EmptyForm;
      isDialogOpen := false;
      editando := None;
    }

    /** The settings button of a card: `setEditandoAcesso({ ...acesso })`
        opens the edit dialog on a copy of that acesso. */
    method Editar(a: Acesso)
      modifies this
      ensures editando == Some(a)
      ensures acessos == old(acessos) && form == old(form) && isDialogOpen == old(isDialogOpen)
    {
      editando := Some(a);
    }

    /** Typing in a field of the edit dialog, which is open only while an
        acesso is being edited: that field of the copy takes the text. */
    method EditarCampo(k: EditField, value: string)
      modifies this
      ensures old(editando).None? ==> unchanged(this)
      ensures old(editando).Some? ==>
        editando == Some(old(editando).value.(val := WithEdit(old(editando).value.val, k, value)))
      ensures acessos == old(acessos) && form == old(form) && isDialogOpen == old(isDialogOpen)
    {
      if editando.Some? {
        editando := Some(editando.value.(val := WithEdit(editando.value.val, k, value)));
      }
    }

    /** Closing the edit dialog discards the copy. */
    method FecharEdicao()
      modifies this
      ensures editando == None
      ensures acessos == old(acessos) && form == old(form) && isDialogOpen == old(isDialogOpen)
    {
      editando := None;
    }

    method ToggleExpansao(id: int)
      modifies this
      ensures acessos == ToggleExpansaoOf(old(acessos), id)
      ensures form == old(form) && isDialogOpen == old(isDialogOpen) && editando == old(editando)
    {
      acessos := ToggleExpansaoOf(acessos, id);
    }

    /** `handleSubmit()`. A blank required field is reported and nothing is
        sent or changed. Otherwise the clean data is sent to `addAcesso`;
        `addOk` is whether that succeeded. On success the form is emptied
        and the dialog closed, on failure both stay. */
    method HandleSubmit(addOk: bool) returns (blank: Option<RequiredField>, sent: Option<AcessoInput>)
      modifies this
      ensures blank == FirstBlank(old(form))
      ensures blank.Some? ==> sent == None && unchanged(this)
      ensures blank.None? ==> sent == Some(AcessoData(old(form)))
      ensures blank.None? && addOk ==> form == EmptyForm && !isDialogOpen && acessos == old(acessos) && editando == old(editando)
      ensures blank.None? && !addOk ==> unchanged(this)
    {
      if IsBlank(form.posto) {
        return Some(Posto), None;
      }
      if IsBlank(form.maquina) {
        return Some(Maquina), None;
      }
      if IsBlank(form.usuario) {
        return Some(Usuario), None;
      }
      if IsBlank(form.senha) {
        return Some(Senha), None;
      }
      blank := None;
      sent := Some(AcessoData(form));
      if addOk {
        form := EmptyForm;
        isDialogOpen := false;
      }
    }

    /** `handleUpdateAcesso()`: with no acesso being edited nothing is sent
        and nothing changes. Otherwise its id and fields (without the
        client-side flag) are sent to `updateAcesso`, and on success the
        edit dialog is closed. */
    method HandleUpdateAcesso(updateOk: bool) returns (sent: Option<(int, AcessoFields)>)
      modifies this
      ensures old(editando).None? ==> sent == None && unchanged(this)
      ensures old(editando).Some? ==>
        sent == Some((old(editando).value.id, old(editando).value.val.(expandido := None)))
      ensures old(editando).Some? && updateOk ==> editando == None
      ensures old(editando).Some? && !updateOk ==> editando == old(editando)
      ensures acessos == old(acessos) && form == old(form) && isDialogOpen == old(isDialogOpen)
    {
      if editando.None? {
        return None;
      }
      sent := Some((editando.value.id, editando.value.val.(expandido := None)));
      if updateOk {
        editando := None;
      }
    }
  }
}
