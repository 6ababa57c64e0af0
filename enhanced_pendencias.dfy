/** The pendência hook with realtime, polling and change detection
    (hooks/use-enhanced-pendencias.ts). Besides the list it keeps the hash of
    the last list it showed, and a polling fetch replaces the list only when
    the hash of the fetched rows differs from it. Server writes are made
    optimistically: the list is changed first and put back from a snapshot
    when the server reports an error. */
module EnhancedPendencias {
  import opened Common
  import opened Tables
  import opened Records
  import opened PendenciaLists

  /** One entry of the hash: the columns it is computed from. */
  datatype HashEntry = HashEntry(id: int, status: string, titulo: string)

  /** `generateDataHash`: the JSON text of each row's `{ id, status, titulo }`.
      Equal texts mean equal projections, so the projection itself stands
      for the text. */
  function DataHash(rows: seq<Pendencia>): seq<HashEntry> {
    seq(|rows|, i requires 0 <= i < |rows| => HashEntry(rows[i].id, rows[i].val.status, rows[i].val.titulo))
  }

  /** Two lists have the same hash exactly when they agree, row by row, on
      id, status and titulo; the other columns are not looked at. */
  lemma DataHashEqual(a: seq<Pendencia>, b: seq<Pendencia>)
    ensures DataHash(a) == DataHash(b) <==>
      |a| == |b| && forall i :: 0 <= i < |a| ==>
        a[i].id == b[i].id && a[i].val.status == b[i].val.status && a[i].val.titulo == b[i].val.titulo
  {
    if DataHash(a) == DataHash(b) {
      assert |a| == |DataHash(a)|;
      forall i | 0 <= i < |a|
        ensures a[i].id == b[i].id && a[i].val.status == b[i].val.status && a[i].val.titulo == b[i].val.titulo
      {
        assert DataHash(a)[i] == DataHash(b)[i];
      }
    }
  }

  /** A change to any other column, such as the description or the urgency,
      leaves the hash as it was, so a polling fetch does not pick it up. */
  lemma HashIgnoresDescription(rows: seq<Pendencia>, i: int, descricao: string, urgente: bool)
    requires 0 <= i < |rows|
    ensures DataHash(rows[i := Row(rows[i].id, rows[i].val.(descricao := descricao, urgente := urgente))]) == DataHash(rows)
  {
    DataHashEqual(rows[i := Row(rows[i].id, rows[i].val.(descricao := descricao, urgente := urgente))], rows);
  }

  class EnhancedPendenciasHook {
    var pendencias: seq<Pendencia>
    /** `lastDataHashRef`; `None` is its initial value `""`, which no hash
        equals. */
    var lastDataHash: Option<seq<HashEntry>>
    var isConnected: bool

    /** The stored hash is the hash of the list shown, except before the
        first load, when the list is still empty. */
    predicate Valid()
      reads this
    {
      lastDataHash == Some(DataHash(pendencias)) || (lastDataHash == None && pendencias == [])
    }

    constructor()
      ensures pendencias == [] && lastDataHash == None && !isConnected
      ensures Valid()
    {
      pendencias := [];
      lastDataHash := None;
      isConnected := false;
    }

    /** The channel's status callback: connected exactly when subscribed. */
    method OnSubscribeStatus(status: string)
      modifies this
      ensures isConnected == (status == "SUBSCRIBED")
      ensures pendencias == old(pendencias) && lastDataHash == old(lastDataHash)
    {
      isConnected := status == "SUBSCRIBED";
    }

    /** `fetchPendencias(isPollingUpdate)`. `reply` is the database's answer
        (`data` may be null, read as empty). An error changes nothing. A
        non-polling fetch always replaces the list; a polling one only when
        the hash differs, and when it does not, the list shown already agrees
        with the fetched one on every hashed column. */
    method FetchPendencias(isPollingUpdate: bool, reply: Reply<Option<seq<Pendencia>>>) returns (replaced: bool)
      requires Valid()
      modifies this
      ensures Valid()
      ensures isConnected == old(isConnected)
      ensures reply.Err? ==> !replaced && pendencias == old(pendencias) && lastDataHash == old(lastDataHash)
      ensures reply.Ok? ==>
        var fetched := reply.value.GetOr([]);
        replaced == (!isPollingUpdate || old(lastDataHash) != Some(DataHash(fetched)))
        && (replaced ==> pendencias == fetched && lastDataHash == Some(DataHash(fetched)))
        && (!replaced ==> pendencias == old(pendencias) && lastDataHash == old(lastDataHash)
                          && DataHash(pendencias) == DataHash(fetched))
    {
      if reply.Err? {
        return false;
      }
      var fetched := reply.value.GetOr([]);
      var newDataHash := DataHash(fetched);
      var hasChanges := Some(newDataHash) != lastDataHash;
      if hasChanges || !isPollingUpdate {
        pendencias := fetched;
        lastDataHash := Some(newDataHash);
        replaced := true;
      } else {
        replaced := false;
      }
    }

    /** The realtime callback. The list follows `ApplyRealtime`; the hash is
        recomputed whenever the list was (re)built, that is for every
        UPDATE and DELETE and for an INSERT of a new id. */
    method HandleRealtimeEvent(eventType: string, newRow: Option<Pendencia>, oldId: Option<int>)
      requires Valid()
      modifies this
      ensures Valid()
      ensures isConnected == old(isConnected)
      ensures pendencias == ApplyRealtime(old(pendencias), eventType, newRow, oldId)
      ensures lastDataHash ==
        if (eventType == "INSERT" && newRow.Some? && !HasId(old(pendencias), newRow.value.id))
           || (eventType == "UPDATE" && newRow.Some?) || (eventType == "DELETE" && oldId.Some?)
        then Some(DataHash(pendencias)) else old(lastDataHash)
    {
      if eventType == "INSERT" && newRow.Some? {
        if !HasId(pendencias, newRow.value.id) {
          pendencias := SortedWith(pendencias, newRow.value);
          lastDataHash := Some(DataHash(pendencias));
        }
      } else if eventType == "UPDATE" && newRow.Some? {
        pendencias := ReplaceById(pendencias, newRow.value.id, newRow.value);
        lastDataHash := Some(DataHash(pendencias));
      } else if eventType == "DELETE" && oldId.Some? {
        pendencias := RemoveById(pendencias, oldId.value);
        lastDataHash := Some(DataHash(pendencias));
      }
    }

    /** `addPendenciaOptimistic`. `reply` is the row the database created
        (or its error, which is passed on as `ok == false` with nothing
        changed). Only while realtime is disconnected is the row put into
        the list by hand, and never a second time. */
    method AddPendenciaOptimistic(reply: Reply<Pendencia>) returns (ok: bool)
      requires Valid()
      modifies this
      ensures Valid()
      ensures isConnected == old(isConnected)
      ensures ok == reply.Ok?
      ensures !ok || isConnected || HasId(old(pendencias), reply.value.id) ==>
        pendencias == old(pendencias) && lastDataHash == old(lastDataHash)
      ensures ok && !isConnected && !HasId(old(pendencias), reply.value.id) ==>
        pendencias == SortedWith(old(pendencias), reply.value) && lastDataHash == Some(DataHash(pendencias))
    {
      if reply.Err? {
        return false;
      }
      ok := true;
      if !isConnected && !HasId(pendencias, reply.value.id) {
        pendencias := SortedWith(pendencias, reply.value);
        lastDataHash := Some(DataHash(pendencias));
      }
    }

    /** `updateStatusOptimistic(id, status)`. The status of the rows with the
        id is changed at once; when the server reports an error (`serverOk`
        false) the list is put back exactly as it was and the hash follows
        it. */
    method UpdateStatusOptimistic(id: int, status: string, serverOk: bool) returns (ok: bool)
      requires Valid()
      modifies this
      ensures Valid()
      ensures isConnected == old(isConnected)
      ensures ok == serverOk
      ensures serverOk ==> pendencias == UpdateById(old(pendencias), id, WithStatus(status))
      ensures !serverOk ==> pendencias == old(pendencias)
      ensures lastDataHash == Some(DataHash(pendencias))
    {
      var previous := pendencias;
      pendencias := UpdateById(pendencias, id, WithStatus(status));
      lastDataHash := Some(DataHash(pendencias));
      if !serverOk {
        pendencias := previous;
        lastDataHash := Some(DataHash(previous));
      }
      ok := serverOk;
    }

    /** `removePendenciaOptimistic(id)`: the rows with the id are removed at
        once and put back, exactly as the list was, on a server error. */
    method RemovePendenciaOptimistic(id: int, serverOk: bool) returns (ok: bool)
      requires Valid()
      modifies this
      ensures Valid()
      ensures isConnected == old(isConnected)
      ensures ok == serverOk
      ensures serverOk ==> pendencias == RemoveById(old(pendencias), id) && !HasId(pendencias, id)
      ensures !serverOk ==> pendencias == old(pendencias)
      ensures lastDataHash == Some(DataHash(pendencias))
    {
      var previous := pendencias;
      pendencias := RemoveById(pendencias, id);
      RemoveByIdGone(previous, id);
      lastDataHash := Some(DataHash(pendencias));
      if !serverOk {
        pendencias := previous;
        lastDataHash := Some(DataHash(previous));
      }
      ok := serverOk;
    }
  }
}
