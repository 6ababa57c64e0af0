/** The simpler pendência hook (hooks/use-dynamic-pendencias.ts): the same
    realtime handling without a hash, an optimistic add without a duplicate
    check, a failed status change undone by fetching the list again, and a
    failed delete undone by putting the removed row back and re-sorting. */
module DynamicPendencias {
  import opened Common
  import opened Sorting
  import opened Tables
  import opened Records
  import opened PendenciaLists

  class DynamicPendenciasHook {
    var pendencias: seq<Pendencia>
    var isConnected: bool

    constructor()
      ensures pendencias == [] && !isConnected
    {
      pendencias := [];
      isConnected := false;
    }

    method OnSubscribeStatus(status: string)
      modifies this
      ensures isConnected == (status == "SUBSCRIBED") && pendencias == old(pendencias)
    {
      isConnected := status == "SUBSCRIBED";
    }

    /** `fetchPendencias()`: the fetched rows (null read as empty) replace
        the list; an error leaves it. */
    method FetchPendencias(reply: Reply<Option<seq<Pendencia>>>) returns (ok: bool)
      modifies this
      ensures isConnected == old(isConnected)
      ensures ok == reply.Ok?
      ensures reply.Ok? ==> pendencias == reply.value.GetOr([])
      ensures reply.Err? ==> pendencias == old(pendencias)
    {
      if reply.Ok? {
        pendencias := reply.value.GetOr([]);
      }
      ok := reply.Ok?;
    }

    method HandleRealtimeEvent(eventType: string, newRow: Option<Pendencia>, oldId: Option<int>)
      modifies this
      ensures isConnected == old(isConnected)
      ensures pendencias == ApplyRealtime(old(pendencias), eventType, newRow, oldId)
    {
      if eventType == "INSERT" && newRow.Some? {
        if !HasId(pendencias, newRow.value.id) {
          pendencias := SortedWith(pendencias, newRow.value);
        }
      } else if eventType == "UPDATE" && newRow.Some? {
        pendencias := ReplaceById(pendencias, newRow.value.id, newRow.value);
      } else if eventType == "DELETE" && oldId.Some? {
        pendencias := RemoveById(pendencias, oldId.value);
      }
    }

    /** `addPendenciaOptimistic`: while disconnected, the created row is put
        in front and the list re-sorted, whether or not its id is already
        there. */
    method AddPendenciaOptimistic(reply: Reply<Pendencia>) returns (ok: bool)
      modifies this
      ensures isConnected == old(isConnected)
      ensures ok == reply.Ok?
      ensures ok && !isConnected ==> pendencias == SortedWith(old(pendencias), reply.value)
      ensures !ok || isConnected ==> pendencias == old(pendencias)
    {
      if reply.Err? {
        return false;
      }
      ok := true;
      if !isConnected {
        pendencias := SortedWith(pendencias, reply.value);
      }
    }

    /** `updateStatusOptimistic(id, status)`: on a server error the list is
        fetched again (`refetch` is that fetch's reply). If that fetch fails
        as well, the optimistic change stays. */
    method UpdateStatusOptimistic(id: int, status: string, serverOk: bool, refetch: Reply<Option<seq<Pendencia>>>) returns (ok: bool)
      modifies this
      ensures isConnected == old(isConnected)
      ensures ok == serverOk
      ensures serverOk || refetch.Err? ==> pendencias == UpdateById(old(pendencias), id, WithStatus(status))
      ensures !serverOk && refetch.Ok? ==> pendencias == refetch.value.GetOr([])
    {
      pendencias := UpdateById(pendencias, id, WithStatus(status));
      if !serverOk {
        var _ := FetchPendencias(refetch);
      }
      ok := serverOk;
    }

    /** `removePendenciaOptimistic(id)`: the first row with the id is kept
        aside before every row with it is removed; on a server error it is
        appended again and the list re-sorted, newest first. */
    method RemovePendenciaOptimistic(id: int, serverOk: bool) returns (ok: bool)
      modifies this
      ensures isConnected == old(isConnected)
      ensures ok == serverOk
      ensures serverOk || FindById(old(pendencias), id).None? ==> pendencias == RemoveById(old(pendencias), id)
      ensures !serverOk && FindById(old(pendencias), id).Some? ==>
        pendencias == SortBy(NewestFirst, RemoveById(old(pendencias), id) + [FindById(old(pendencias), id).value])
    {
      var removed := FindById(pendencias, id);
      pendencias := RemoveById(pendencias, id);
      if !serverOk && removed.Some? {
        pendencias := SortBy(NewestFirst, pendencias + [removed.value]);
      }
      ok := serverOk;
    }
  }

  /** A disconnected add always grows the list by exactly one and leaves it
      newest first, even when the id was already there. */
  lemma AddGrowsByOne(rows: seq<Pendencia>, p: Pendencia)
    ensures |SortedWith(rows, p)| == |rows| + 1
    ensures SortedBy(NewestFirst, SortedWith(rows, p))
    ensures HasId(rows, p.id) ==> CountId(SortedWith(rows, p), p.id) >= 2
  {
    SortedWithSpec(rows, p);
    if HasId(rows, p.id) {
      var i :| 0 <= i < |rows| && rows[i].id == p.id;
      var r := SortedWith(rows, p);
      var q := rows[i];
      assert multiset(r)[p] >= 1 && multiset(r)[q] >= 1;
      if p == q {
        assert multiset(r)[p] >= 2;
      }
      CountAtLeast(r, p, q);
    }
  }

  /** Two occurrences (or two different rows) with the same id count twice. */
  lemma {:induction false} CountAtLeast(r: seq<Pendencia>, p: Pendencia, q: Pendencia)
    requires p.id == q.id
    requires if p == q then multiset(r)[p] >= 2 else p in r && q in r
    ensures CountId(r, p.id) >= 2
    decreases |r|
  {
    assert r == [r[0]] + r[1..];
    assert multiset(r) == multiset{r[0]} + multiset(r[1..]);
    if r[0] == p || r[0] == q {
      var other := if r[0] == p then q else p;
      assert other in multiset(r[1..]);
      CountIdSpec(r[1..], p.id);
      var k :| 0 <= k < |r[1..]| && r[1..][k] == other;
      assert r[1..][k].id == p.id;
    } else {
      CountAtLeast(r[1..], p, q);
    }
  }

  /** A failed delete of a present row gives back the same rows (ids being
      unique), newest first; a failed delete of an absent id re-adds
      nothing and leaves the list as it was. */
  lemma FailedRemoveRestores(rows: seq<Pendencia>, id: int)
    requires UniqueIds(rows)
    ensures FindById(rows, id).Some? ==>
      var r := SortBy(NewestFirst, RemoveById(rows, id) + [FindById(rows, id).value]);
      multiset(r) == multiset(rows) && SortedBy(NewestFirst, r)
    ensures FindById(rows, id).None? ==> RemoveById(rows, id) == rows
  {
    FindByIdSpec(rows, id);
    if FindById(rows, id).Some? {
      var s := RemoveById(rows, id) + [FindById(rows, id).value];
      RemoveFoundRestores(rows, id);
      SortByPermutes(NewestFirst, s);
      NewestFirstIsPreorder();
      SortBySorted(NewestFirst, s);
    } else {
      RemoveAbsent(rows, id);
    }
  }
}
