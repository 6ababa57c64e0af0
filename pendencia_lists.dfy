/** The list updates the two pendência hooks share: rows kept newest `data`
    first, a new row sorted into place, and the realtime change events
    (hooks/use-enhanced-pendencias.ts and hooks/use-dynamic-pendencias.ts
    handle them identically, apart from the hash the first one keeps). */
module PendenciaLists {
  import opened Common
  import opened Lists
  import opened Sorting
  import opened Tables
  import opened Records

  lemma NewestFirstIsPreorder()
    ensures TotalPreorder(NewestFirst)
  {
  }

  /** `[p, ...rows].sort((a, b) => b.data - a.data)` */
  function SortedWith(rows: seq<Pendencia>, p: Pendencia): seq<Pendencia> {
    SortBy(NewestFirst, [p] + rows)
  }

  /** A realtime INSERT: skipped when the id is present, otherwise prepended
      and the list re-sorted. */
  function InsertSorted(rows: seq<Pendencia>, p: Pendencia): seq<Pendencia> {
    if HasId(rows, p.id) then rows else SortedWith(rows, p)
  }

  /** The list after one realtime event. An INSERT or UPDATE without a `new`
      row, a DELETE without an `old` row and any other event type change
      nothing. */
  function ApplyRealtime(rows: seq<Pendencia>, eventType: string, newRow: Option<Pendencia>, oldId: Option<int>): seq<Pendencia> {
    if eventType == "INSERT" && newRow.Some? then InsertSorted(rows, newRow.value)
    else if eventType == "UPDATE" && newRow.Some? then ReplaceById(rows, newRow.value.id, newRow.value)
    else if eventType == "DELETE" && oldId.Some? then RemoveById(rows, oldId.value)
    else rows
  }

  /** `[p, ...rows]` sorted holds exactly the old rows and `p`, newest
      first, one longer; with a fresh id the ids stay unique. */
  lemma SortedWithSpec(rows: seq<Pendencia>, p: Pendencia)
    ensures multiset(SortedWith(rows, p)) == multiset(rows) + multiset{p}
    ensures |SortedWith(rows, p)| == |rows| + 1
    ensures p in SortedWith(rows, p)
    ensures SortedBy(NewestFirst, SortedWith(rows, p))
    ensures UniqueIds(rows) && !HasId(rows, p.id) ==> UniqueIds(SortedWith(rows, p))
  {
    var s := [p] + rows;
    SortByPermutes(NewestFirst, s);
    assert multiset(s) == multiset(rows) + multiset{p};
    assert p in multiset(SortedWith(rows, p));
    NewestFirstIsPreorder();
    SortBySorted(NewestFirst, s);
    SortByIds(NewestFirst, s);
    PrependNewSpec(rows, p);
  }

  /** A realtime INSERT of a present id changes nothing; otherwise the new
      row is in the list, which is newest first and holds the old rows. */
  lemma InsertSortedSpec(rows: seq<Pendencia>, p: Pendencia)
    ensures HasId(rows, p.id) ==> InsertSorted(rows, p) == rows
    ensures !HasId(rows, p.id) ==>
      p in InsertSorted(rows, p) && SortedBy(NewestFirst, InsertSorted(rows, p))
      && multiset(InsertSorted(rows, p)) == multiset(rows) + multiset{p}
    ensures UniqueIds(rows) ==> UniqueIds(InsertSorted(rows, p))
  {
    SortedWithSpec(rows, p);
  }

  /** An UPDATE keeps the length and the rows with other ids; a DELETE keeps
      exactly the rows with other ids, in order. Neither breaks unique ids. */
  lemma UpdateDeleteSpec(rows: seq<Pendencia>, p: Pendencia, id: int)
    ensures |ApplyRealtime(rows, "UPDATE", Some(p), None)| == |rows|
    ensures forall i :: 0 <= i < |rows| && rows[i].id != p.id ==> ApplyRealtime(rows, "UPDATE", Some(p), None)[i] == rows[i]
    ensures forall x :: x in ApplyRealtime(rows, "DELETE", None, Some(id)) <==> x in rows && x.id != id
    ensures Subsequence(ApplyRealtime(rows, "DELETE", None, Some(id)), rows)
    ensures UniqueIds(rows) ==>
      UniqueIds(ApplyRealtime(rows, "UPDATE", Some(p), None)) && UniqueIds(ApplyRealtime(rows, "DELETE", None, Some(id)))
  {
    ReplaceByIdSpec(rows, p);
    forall x ensures x in RemoveById(rows, id) <==> x in rows && x.id != id {
      RemoveByIdMembers(rows, id, x);
    }
    RemoveByIdKeepsOrder(rows, id);
    if UniqueIds(rows) {
      RemoveByIdUnique(rows, id);
    }
  }

  /** Every realtime event keeps the ids unique. */
  lemma RealtimeKeepsUniqueIds(rows: seq<Pendencia>, eventType: string, newRow: Option<Pendencia>, oldId: Option<int>)
    requires UniqueIds(rows)
    ensures UniqueIds(ApplyRealtime(rows, eventType, newRow, oldId))
  {
    if newRow.Some? {
      InsertSortedSpec(rows, newRow.value);
      ReplaceByIdSpec(rows, newRow.value);
    }
    if oldId.Some? {
      RemoveByIdUnique(rows, oldId.value);
    }
  }

  /** The optimistic status change `{ ...p, status }` on the rows with the
      id: ids, length and every other column stay, other rows are untouched. */
  lemma SetStatusSpec(rows: seq<Pendencia>, id: int, status: string)
    ensures |UpdateById(rows, id, WithStatus(status))| == |rows|
    ensures forall i :: 0 <= i < |rows| ==>
      var r := UpdateById(rows, id, WithStatus(status))[i];
      r.id == rows[i].id
      && (rows[i].id == id ==> r.val == rows[i].val.(status := status))
      && (rows[i].id != id ==> r == rows[i])
    ensures UniqueIds(rows) ==> UniqueIds(UpdateById(rows, id, WithStatus(status)))
  {
    UpdateByIdSpec(rows, id, WithStatus(status));
  }
}
