/** The pendências page (app/pendencias/page.tsx): the search and the
    "urgent first, then newest" order of the list shown, the counters above
    it, the CSV export, and the new-pendência form. */
module PendenciasPage {
  import opened Common
  import opened Text
  import opened Lists
  import opened Sorting
  import opened Tables
  import opened Records

  // ---------------------------------------------------------------------
  // filteredPendencias

  /** The titulo or the descricao contains the term, ignoring case. */
  predicate Matches(p: Pendencia, term: string) {
    MatchesTerm(p.val.titulo, term) || MatchesTerm(p.val.descricao, term)
  }

  /** The page's comparator, `compare(a, b) <= 0`: urgent ones first, then
      by `data`, newest first. */
  predicate UrgentFirst(a: Pendencia, b: Pendencia) {
    if a.val.urgente != b.val.urgente then a.val.urgente else a.val.data >= b.val.data
  }

  lemma UrgentFirstIsPreorder()
    ensures TotalPreorder(UrgentFirst)
  {
  }

  /** `pendencias.filter(matches).sort(urgentFirst)` */
  function FilteredPendencias(rows: seq<Pendencia>, term: string): seq<Pendencia> {
    SortBy(UrgentFirst, Filter(rows, (p: Pendencia) => Matches(p, term)))
  }

  /** The list shown holds exactly the matching pendências, each as often as
      in the list; an empty term keeps all of them. Every urgent one comes
      before every other, and within each group the newer comes first. */
  lemma FilteredPendenciasSpec(rows: seq<Pendencia>, term: string)
    ensures var r := FilteredPendencias(rows, term);
      (forall p :: p in r <==> p in rows && Matches(p, term))
      && multiset(r) == multiset(Filter(rows, (p: Pendencia) => Matches(p, term)))
      && (term == "" ==> multiset(r) == multiset(rows))
      && (forall i, j :: 0 <= i < j < |r| ==> r[i].val.urgente || !r[j].val.urgente)
      && (forall i, j :: 0 <= i < j < |r| && r[i].val.urgente == r[j].val.urgente ==> r[i].val.data >= r[j].val.data)
  {
    var f := (p: Pendencia) => Matches(p, term);
    var kept := Filter(rows, f);
    var r := SortBy(UrgentFirst, kept);
    SortByPermutes(UrgentFirst, kept);
    UrgentFirstIsPreorder();
    SortBySorted(UrgentFirst, kept);
    forall p ensures p in r <==> p in rows && Matches(p, term) {
      FilterMembers(rows, f, p);
      assert p in r <==> p in multiset(r);
      assert p in kept <==> p in multiset(kept);
    }
    if term == "" {
      forall i | 0 <= i < |rows| ensures f(rows[i]) {
        EmptyTermMatches(rows[i].val.titulo);
      }
      FilterLength(rows, f);
    }
    forall i, j | 0 <= i < j < |r| ensures r[i].val.urgente || !r[j].val.urgente {
      assert UrgentFirst(r[i], r[j]);
    }
  }

  // ---------------------------------------------------------------------
  // stats

  datatype Stats = Stats(total: nat, urgentes: nat, concluidas: nat, emAndamento: nat, naoConcluidas: nat)

  function HasStatus(status: string): Pendencia -> bool {
    (p: Pendencia) => p.val.status == status
  }

  function ComputeStats(rows: seq<Pendencia>): Stats {
    Stats(
      |rows|,
      |Filter(rows, (p: Pendencia) => p.val.urgente)|,
      |Filter(rows, HasStatus(Concluido))|,
      |Filter(rows, HasStatus(EmAndamento))|,
      |Filter(rows, HasStatus(NaoConcluido))|)
  }

  /** Three filters by pairwise exclusive conditions keep at most all the
      elements between them. */
  lemma {:induction false} DisjointFilters<T>(s: seq<T>, p: T -> bool, q: T -> bool, r: T -> bool)
    requires forall x :: !(p(x) && q(x)) && !(p(x) && r(x)) && !(q(x) && r(x))
    ensures |Filter(s, p)| + |Filter(s, q)| + |Filter(s, r)| <= |s|
    decreases |s|
  {
    if s != [] {
      DisjointFilters(s[1..], p, q, r);
    }
  }

  /** The total is the list's length, no counter exceeds it, and the three
      status counters add up to at most the total (rows with another
      status are counted by none of them). */
  lemma StatsAddUp(rows: seq<Pendencia>)
    ensures var s := ComputeStats(rows);
      s.total == |rows| && s.urgentes <= s.total
      && s.concluidas + s.emAndamento + s.naoConcluidas <= s.total
      && ((forall i :: 0 <= i < |rows| ==> rows[i].val.status in {Concluido, EmAndamento, NaoConcluido}) ==>
            s.concluidas + s.emAndamento + s.naoConcluidas == s.total)
  {
    FilterLength(rows, (p: Pendencia) => p.val.urgente);
    DisjointFilters(rows, HasStatus(Concluido), HasStatus(EmAndamento), HasStatus(NaoConcluido));
    if forall i :: 0 <= i < |rows| ==> rows[i].val.status in {Concluido, EmAndamento, NaoConcluido} {
      CoveringFilters(rows, HasStatus(Concluido), HasStatus(EmAndamento), HasStatus(NaoConcluido));
    }
  }

  /** When every element satisfies exactly one of three conditions, the
      three filters share the elements out. */
  lemma {:induction false} CoveringFilters<T>(s: seq<T>, p: T -> bool, q: T -> bool, r: T -> bool)
    requires forall x :: !(p(x) && q(x)) && !(p(x) && r(x)) && !(q(x) && r(x))
    requires forall i :: 0 <= i < |s| ==> p(s[i]) || q(s[i]) || r(s[i])
    ensures |Filter(s, p)| + |Filter(s, q)| + |Filter(s, r)| == |s|
    decreases |s|
  {
    if s != [] {
      assert forall i :: 0 <= i < |s[1..]| ==> s[1..][i] == s[i + 1];
      CoveringFilters(s[1..], p, q, r);
    }
  }

  // ---------------------------------------------------------------------
  // CSV export

  /** `formatarStatus`: the label of a known status; any other value is
      shown as it is. */
  function FormatarStatus(status: string): (r: string)
    ensures status == NaoConcluido ==> r == "Não Concluído"
    ensures status == EmAndamento ==> r == "Em Andamento"
    ensures status == Concluido ==> r == "Concluído"
    ensures status !in {NaoConcluido, EmAndamento, Concluido} ==> r == status
  {
    if status == NaoConcluido then "Não Concluído"
    else if status == EmAndamento then "Em Andamento"
    else if status == Concluido then "Concluído"
    else status
  }

  const CsvHeaders := ["ID", "Título", "Descrição", "Status", "Urgência", "Data", "Autor"]

  const CsvHeader := Join(CsvHeaders, ",")

  /** `"${s}"`: wrapped in double quotes, the quotes inside left as they
      are. */
  function Wrapped(s: string): string {
    "\"" + s + "\""
  }

  /** The seven fields of a line as the export writes them; `formatDate`
      stands for `new Date(data).toLocaleString("pt-BR")`. Only the title and
      the description have their quotes doubled: the status and the author
      are wrapped as they are. */
  function CsvFieldsAsWritten(p: Pendencia, formatDate: int -> string): seq<string> {
    [IntToString(p.id),
     QuotedField(p.val.titulo),
     QuotedField(p.val.descricao),
     Wrapped(FormatarStatus(p.val.status)),
     if p.val.urgente then "Urgente" else "Normal",
     formatDate(p.val.data),
     Wrapped(p.val.author.GetOr(""))]
  }

  function CsvRowAsWritten(p: Pendencia, formatDate: int -> string): string {
    Join(CsvFieldsAsWritten(p, formatDate), ",")
  }

  /** The seven fields with every quoted field escaped alike, as the title
      and the description already are. */
  function CsvFields(p: Pendencia, formatDate: int -> string): seq<string> {
    [IntToString(p.id),
     QuotedField(p.val.titulo),
     QuotedField(p.val.descricao),
     QuotedField(FormatarStatus(p.val.status)),
     if p.val.urgente then "Urgente" else "Normal",
     formatDate(p.val.data),
     QuotedField(p.val.author.GetOr(""))]
  }

  function CsvRow(p: Pendencia, formatDate: int -> string): string {
    Join(CsvFields(p, formatDate), ",")
  }

  function CsvLines(rows: seq<Pendencia>, formatDate: int -> string): seq<string> {
    [CsvHeader] + seq(|rows|, i requires 0 <= i < |rows| => CsvRow(rows[i], formatDate))
  }

  /** The file's text, lines joined by line feeds. */
  function Csv(rows: seq<Pendencia>, formatDate: int -> string): string {
    Join(CsvLines(rows, formatDate), "\n")
  }

  /** The header and the rows as the export writes them. */
  function CsvLinesAsWritten(rows: seq<Pendencia>, formatDate: int -> string): seq<string> {
    [CsvHeader] + seq(|rows|, i requires 0 <= i < |rows| => CsvRowAsWritten(rows[i], formatDate))
  }

  /** The text the export builds at app/pendencias/page.tsx:203-216. */
  function CsvAsWritten(rows: seq<Pendencia>, formatDate: int -> string): string {
    Join(CsvLinesAsWritten(rows, formatDate), "\n")
  }

  /** A text holds a character zero times exactly when it does not hold it. */
  lemma {:induction false} CountZero(s: string, c: char)
    ensures Count(s, c) == 0 <==> c !in s
    decreases |s|
  {
    if s != [] {
      CountZero(s[1..], c);
      assert s == [s[0]] + s[1..];
    }
  }

  lemma {:induction false} JoinWithout(parts: seq<string>, sep: string, c: char)
    requires c !in sep
    requires forall i :: 0 <= i < |parts| ==> c !in parts[i]
    ensures c !in Join(parts, sep)
    decreases |parts|
  {
    if |parts| > 1 {
      JoinWithout(parts[1..], sep, c);
    }
  }

  /** Quoting adds no character but the quote. */
  lemma QuotedFieldWithout(s: string, c: char)
    requires c != '"' && c !in s
    ensures c !in QuotedField(s)
  {
    CountZero(s, c);
    EscapeQuotesCount(s, c);
    CountZero(EscapeQuotes(s), c);
  }

  /** The fields of a pendência whose texts hold no line feed. */
  predicate NoLineFeeds(p: Pendencia, formatDate: int -> string) {
    '\n' !in p.val.titulo && '\n' !in p.val.descricao && '\n' !in p.val.status
    && '\n' !in p.val.author.GetOr("") && '\n' !in formatDate(p.val.data)
  }

  lemma FieldOneLine(p: Pendencia, formatDate: int -> string, i: int)
    requires NoLineFeeds(p, formatDate)
    requires 0 <= i < 7
    ensures '\n' !in CsvFields(p, formatDate)[i]
  {
    if i == 0 {
      var n := if p.id < 0 then -p.id else p.id;
      NatToStringRoundTrip(n);
      assert '\n' !in NatToString(n);
    } else if i == 1 {
      QuotedFieldWithout(p.val.titulo, '\n');
    } else if i == 2 {
      QuotedFieldWithout(p.val.descricao, '\n');
    } else if i == 3 {
      QuotedFieldWithout(FormatarStatus(p.val.status), '\n');
    } else if i == 6 {
      QuotedFieldWithout(p.val.author.GetOr(""), '\n');
    }
  }

  /** A line feed in neither a text field nor a rendered date: the row is
      one line. */
  lemma CsvRowOneLine(p: Pendencia, formatDate: int -> string)
    requires NoLineFeeds(p, formatDate)
    ensures '\n' !in CsvRow(p, formatDate)
  {
    var f := CsvFields(p, formatDate);
    forall i | 0 <= i < |f| ensures '\n' !in f[i] {
      FieldOneLine(p, formatDate, i);
    }
    JoinWithout(f, ",", '\n');
  }

  /** The same holds for the row as written: wrapping adds only quotes. */
  lemma CsvRowAsWrittenOneLine(p: Pendencia, formatDate: int -> string)
    requires NoLineFeeds(p, formatDate)
    ensures '\n' !in CsvRowAsWritten(p, formatDate)
  {
    var f := CsvFieldsAsWritten(p, formatDate);
    forall i | 0 <= i < |f| ensures '\n' !in f[i] {
      if i != 3 && i != 6 {
        FieldOneLine(p, formatDate, i);
        assert f[i] == CsvFields(p, formatDate)[i];
      }
    }
    JoinWithout(f, ",", '\n');
  }

  /** The header is one line. */
  lemma HeaderOneLine()
    ensures Count(CsvHeader, '\n') == 0
  {
    assert '\n' !in CsvHeader;
    CountZero(CsvHeader, '\n');
  }

  lemma LinesOneLine(rows: seq<Pendencia>, formatDate: int -> string, i: int)
    requires forall i :: 0 <= i < |rows| ==> NoLineFeeds(rows[i], formatDate)
    requires 0 <= i < |rows| + 1
    ensures Count(CsvLines(rows, formatDate)[i], '\n') == 0
    ensures Count(CsvLinesAsWritten(rows, formatDate)[i], '\n') == 0
  {
    if i == 0 {
      HeaderOneLine();
    } else {
      var row := CsvLines(rows, formatDate)[i];
      assert row == CsvRow(rows[i - 1], formatDate);
      CsvRowOneLine(rows[i - 1], formatDate);
      CountZero(row, '\n');
      var written := CsvLinesAsWritten(rows, formatDate)[i];
      assert written == CsvRowAsWritten(rows[i - 1], formatDate);
      CsvRowAsWrittenOneLine(rows[i - 1], formatDate);
      CountZero(written, '\n');
    }
  }

  /** One header line plus one line per pendência: with `n` pendências whose
      fields hold no line feed, the text holds exactly `n` line feeds, both
      as the export writes it and with every field escaped. */
  lemma CsvLineCount(rows: seq<Pendencia>, formatDate: int -> string)
    requires forall i :: 0 <= i < |rows| ==> NoLineFeeds(rows[i], formatDate)
    ensures |CsvLinesAsWritten(rows, formatDate)| == |CsvLines(rows, formatDate)| == |rows| + 1
    ensures Count(CsvAsWritten(rows, formatDate), '\n') == |rows|
    ensures Count(Csv(rows, formatDate), '\n') == |rows|
  {
    var lines := CsvLines(rows, formatDate);
    var written := CsvLinesAsWritten(rows, formatDate);
    forall i | 0 <= i < |rows| + 1 ensures Count(lines[i], '\n') == 0 && Count(written[i], '\n') == 0 {
      LinesOneLine(rows, formatDate, i);
    }
    JoinCount(lines, '\n');
    JoinCount(written, '\n');
  }

  lemma JoinCons(x: string, rest: seq<string>, sep: string)
    requires rest != []
    ensures Join([x] + rest, sep) == x + sep + Join(rest, sep)
  {
    assert ([x] + rest)[1..] == rest;
  }

  /** In a row of seven fields starting with the id and the escaped title,
      the title follows the id and its comma and reads back exactly. */
  lemma TitleAfterId(f: seq<string>, p: Pendencia)
    requires |f| == 7 && f[0] == IntToString(p.id) && f[1] == QuotedField(p.val.titulo)
    ensures var row := Join(f, ",");
      var k := |IntToString(p.id)| + 1;
      k < |row| && row[..k] == IntToString(p.id) + ","
      && ReadQuoted(row[k + 1..]).Some? && ReadQuoted(row[k + 1..]).value.0 == p.val.titulo
  {
    var a := IntToString(p.id);
    var q := QuotedField(p.val.titulo);
    var tail := f[2..];
    assert f == [a] + ([q] + tail);
    JoinCons(q, tail, ",");
    JoinCons(a, [q] + tail, ",");
    var rest := "," + Join(tail, ",");
    var row := Join(f, ",");
    assert row == a + "," + (q + rest);
    QuotedFieldRoundTrip(p.val.titulo, rest);
    assert row[|a| + 2..] == (q + rest)[1..];
  }

  /** The title is written quoted right after the id and its comma, and a
      CSV reader gets it back exactly, quotes and commas included: in the
      row as the export writes it, and in the row with every field
      escaped. */
  lemma CsvTitleReadsBack(p: Pendencia, formatDate: int -> string)
    ensures var row := CsvRowAsWritten(p, formatDate);
      var k := |IntToString(p.id)| + 1;
      k < |row| && row[..k] == IntToString(p.id) + ","
      && ReadQuoted(row[k + 1..]).Some? && ReadQuoted(row[k + 1..]).value.0 == p.val.titulo
    ensures var row := CsvRow(p, formatDate);
      var k := |IntToString(p.id)| + 1;
      k < |row| && row[..k] == IntToString(p.id) + ","
      && ReadQuoted(row[k + 1..]).Some? && ReadQuoted(row[k + 1..]).value.0 == p.val.titulo
  {
    TitleAfterId(CsvFieldsAsWritten(p, formatDate), p);
    TitleAfterId(CsvFields(p, formatDate), p);
  }

  lemma {:induction false} JoinSnoc(parts: seq<string>, x: string, sep: string)
    requires parts != []
    ensures Join(parts + [x], sep) == Join(parts, sep) + sep + x
    decreases |parts|
  {
    if |parts| == 1 {
      assert (parts + [x])[1..] == [x];
    } else {
      assert (parts + [x])[1..] == parts[1..] + [x];
      JoinSnoc(parts[1..], x, sep);
    }
  }

  /** A row as the export writes it, with an author whose name holds a
      quote: the author field, the last one, is `"a"b"`, which a CSV reader
      reads as the text `a` followed by stray characters, not as the name. */
  lemma AuthorQuoteMisread(p: Pendencia, formatDate: int -> string)
    requires p.val.author == Some("a\"b")
    ensures var row := CsvRowAsWritten(p, formatDate);
      var k := |row| - |Wrapped("a\"b")|;
      0 <= k < |row| && row[k..] == Wrapped("a\"b")
      && ReadQuoted(row[k + 1..]) == Some(("a", "b\""))
      && ReadQuoted(row[k + 1..]) != Some((p.val.author.value, ""))
  {
    var f := CsvFieldsAsWritten(p, formatDate);
    assert f == f[..6] + [Wrapped("a\"b")];
    JoinSnoc(f[..6], Wrapped("a\"b"), ",");
    var row := CsvRowAsWritten(p, formatDate);
    var k := |row| - |Wrapped("a\"b")|;
    var t := "a\"b\"";
    assert row[k + 1..] == t;
    assert t[1..] == "\"b\"";
    assert ReadQuoted(t[1..]) == Some(("", "b\""));
    assert [t[0]] + "" == "a";
  }

  /** With every quoted field escaped, the author field, the last one of
      the row, reads back as the author's name, quotes included. */
  lemma CsvAuthorReadsBack(p: Pendencia, formatDate: int -> string)
    ensures var row := CsvRow(p, formatDate);
      var q := QuotedField(p.val.author.GetOr(""));
      var k := |row| - |q|;
      0 <= k < |row| && row[k..] == q
      && ReadQuoted(row[k + 1..]) == Some((p.val.author.GetOr(""), ""))
  {
    var f := CsvFields(p, formatDate);
    var q := QuotedField(p.val.author.GetOr(""));
    assert f == f[..6] + [q];
    JoinSnoc(f[..6], q, ",");
    QuotedFieldRoundTrip(p.val.author.GetOr(""), "");
    assert q + "" == q;
  }

  // ---------------------------------------------------------------------
  // The new-pendência form

  /** The record `handleSubmit` hands to `addPendenciaOptimistic`; `now`
      is the submission instant. The author is sent as typed (not
      trimmed), or null when empty. */
  function NewPendenciaPayload(titulo: string, descricao: string, urgente: bool, author: string, now: int): (r: PendenciaFields)
    ensures r.titulo == Trim(titulo) && IsTrimmed(r.titulo)
    ensures IsBlank(descricao) ==> r.descricao == "Sem descrição"
    ensures !IsBlank(descricao) ==> r.descricao == Trim(descricao) && IsTrimmed(r.descricao) && r.descricao != ""
    ensures r.status == NaoConcluido && r.urgente == urgente && r.data == now
    ensures r.author == None <==> author == ""
    ensures r.author.Some? ==> r.author.value == author
  {
    TrimShape(titulo);
    TrimShape(descricao);
    PendenciaFields(Trim(titulo), OrElse(Trim(descricao), "Sem descrição"), NaoConcluido, urgente, now,
      if author != "" then Some(author) else None)
  }

  class PendenciaForm {
    var titulo: string
    var descricao: string
    var urgente: bool
    var author: string
    var isDialogOpen: bool

    constructor()
      ensures titulo == "" && descricao == "" && !urgente && author == "" && !isDialogOpen
    {
      titulo, descricao, urgente, author := "", "", false, "";
      isDialogOpen := false;
    }

    predicate IsEmpty()
      reads this
    {
      titulo == "" && descricao == "" && !urgente && author == ""
    }

    /** `handleSubmit()`: a blank title submits nothing and changes nothing.
        Otherwise the payload is submitted; `addOk` is whether the add
        succeeded. After a success the form is emptied and the dialog
        closed; after a failure both stay as they were. */
    method HandleSubmit(now: int, addOk: bool) returns (submitted: Option<PendenciaFields>)
      modifies this
      ensures IsBlank(old(titulo)) ==> submitted == None && unchanged(this)
      ensures !IsBlank(old(titulo)) ==>
        submitted == Some(NewPendenciaPayload(old(titulo), old(descricao), old(urgente), old(author), now))
        && submitted.value.titulo != ""
      ensures !IsBlank(old(titulo)) && addOk ==> IsEmpty() && !isDialogOpen
      ensures !IsBlank(old(titulo)) && !addOk ==> unchanged(this)
    {
      if IsBlank(titulo) {
        return None;
      }
      submitted := Some(NewPendenciaPayload(titulo, descricao, urgente, author, now));
      if addOk {
        titulo, descricao, urgente, author := "", "", false, "";
        isDialogOpen := false;
      }
    }
  }
}
