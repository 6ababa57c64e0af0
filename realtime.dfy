/** The generic realtime table hook (hooks/use-supabase-realtime.ts): a list
    of rows of one table, loaded once ordered by a column, then kept in step
    with the change events the database pushes. Each event replaces the list
    by a spread, a `map` or a `filter` of the current one. */
module SupabaseRealtime {
  import opened Common
  import opened Lists
  import opened Tables

  /** The column a table is ordered by when the caller gives none. */
  function GetOrderColumn(tableName: string): (r: string)
    ensures r == "data" <==> tableName == "pendencias"
    ensures r == "created_at" <==> tableName in {"faqs", "acessos", "authors"}
    ensures r == "id" <==> tableName !in {"faqs", "acessos", "authors", "pendencias"}
  {
    match tableName
    case "faqs" => "created_at"
    case "acessos" => "created_at"
    case "authors" => "created_at"
    case "pendencias" => "data"
    case _ => "id"
  }

  /** `orderBy || getOrderColumn(table)`: an explicit, non-empty `orderBy`
      wins over the table's default. */
  function OrderColumn(orderBy: Option<string>, tableName: string): (r: string)
    ensures orderBy.Some? && orderBy.value != "" ==> r == orderBy.value
    ensures orderBy.None? || orderBy.value == "" ==> r == GetOrderColumn(tableName)
  {
    if orderBy.Some? && orderBy.value != "" then orderBy.value else GetOrderColumn(tableName)
  }

  /** The list after one change event. `newItem` is the payload's `new` row
      (INSERT and UPDATE), `deletedId` the id of its `old` row (DELETE); any
      other event type leaves the list as it is. */
  function ApplyEvent<F>(data: seq<Row<F>>, eventType: string, newItem: Row<F>, deletedId: int): seq<Row<F>> {
    if eventType == "INSERT" then PrependNew(data, newItem)
    else if eventType == "UPDATE" then ReplaceById(data, newItem.id, newItem)
    else if eventType == "DELETE" then RemoveById(data, deletedId)
    else data
  }

  /** The state of one use of the hook. */
  class RealtimeTable<F> {
    const table: string
    const autoFetch: bool
    const orderBy: Option<string>
    var data: seq<Row<F>>
    var isLoading: bool
    var isConnected: bool
    var error: bool

    constructor(table: string, initialData: seq<Row<F>>, autoFetch: bool, orderBy: Option<string>)
      ensures this.table == table && this.autoFetch == autoFetch && this.orderBy == orderBy
      ensures data == initialData && isLoading == autoFetch && !isConnected && !error
    {
      this.table := table;
      this.autoFetch := autoFetch;
      this.orderBy := orderBy;
      data := initialData;
      isLoading := autoFetch;
      isConnected := false;
      error := false;
    }

    /** `updateLocalData(eventType, payload)` */
    method UpdateLocalData(eventType: string, newItem: Row<F>, deletedId: int)
      modifies this
      ensures data == ApplyEvent(old(data), eventType, newItem, deletedId)
      ensures isLoading == old(isLoading) && isConnected == old(isConnected) && error == old(error)
    {
      if eventType == "INSERT" {
        if !HasId(data, newItem.id) {
          data := [newItem] + data;
        }
      } else if eventType == "UPDATE" {
        data := ReplaceById(data, newItem.id, newItem);
      } else if eventType == "DELETE" {
        data := RemoveById(data, deletedId);
      }
    }

    /** `fetchInitialData()`: with `autoFetch` off nothing happens; otherwise
        the table is queried ordered by `OrderColumn` (returned here), and the
        rows the database sends replace the list, while an error only sets
        the error flag. */
    method FetchInitialData(reply: Reply<seq<Row<F>>>) returns (column: Option<string>)
      modifies this
      ensures !autoFetch ==> column == None && data == old(data) && isLoading == old(isLoading) && error == old(error)
      ensures autoFetch ==> column == Some(OrderColumn(orderBy, table)) && !isLoading
      ensures autoFetch && reply.Ok? ==> data == reply.value && !error
      ensures autoFetch && reply.Err? ==> data == old(data) && error
      ensures isConnected == old(isConnected)
    {
      if !autoFetch {
        return None;
      }
      isLoading := true;
      error := false;
      column := Some(OrderColumn(orderBy, table));
      if reply.Ok? {
        data := reply.value;
      } else {
        error := true;
      }
      isLoading := false;
    }

    /** The channel's status callback: connected exactly while the status is
        "SUBSCRIBED"; a "CHANNEL_ERROR" also sets the error, and no status
        clears one. */
    method OnSubscribeStatus(status: string)
      modifies this
      ensures isConnected <==> status == "SUBSCRIBED"
      ensures error <==> old(error) || status == "CHANNEL_ERROR"
      ensures data == old(data) && isLoading == old(isLoading)
    {
      isConnected := status == "SUBSCRIBED";
      if status == "CHANNEL_ERROR" {
        error := true;
      }
    }
  }

  // ---------------------------------------------------------------------
  // What each event does to the list

  /** An INSERT of an id already present changes nothing; one of a new id
      puts the row at the front, one longer, with the old rows behind it in
      their order. */
  lemma InsertEvent<F>(data: seq<Row<F>>, newItem: Row<F>, deletedId: int)
    ensures HasId(data, newItem.id) ==> ApplyEvent(data, "INSERT", newItem, deletedId) == data
    ensures !HasId(data, newItem.id) ==>
      var r := ApplyEvent(data, "INSERT", newItem, deletedId);
      |r| == |data| + 1 && r[0] == newItem && r[1..] == data
  {
    PrependNewSpec(data, newItem);
  }

  /** An UPDATE puts the new row in place of every row with its id, and
      leaves the length and every other row as they were. */
  lemma UpdateEvent<F>(data: seq<Row<F>>, newItem: Row<F>, deletedId: int)
    ensures |ApplyEvent(data, "UPDATE", newItem, deletedId)| == |data|
    ensures forall i :: 0 <= i < |data| && data[i].id == newItem.id ==> ApplyEvent(data, "UPDATE", newItem, deletedId)[i] == newItem
    ensures forall i :: 0 <= i < |data| && data[i].id != newItem.id ==> ApplyEvent(data, "UPDATE", newItem, deletedId)[i] == data[i]
  {
    ReplaceByIdSpec(data, newItem);
  }

  /** A DELETE keeps exactly the rows with another id, in their order, so the
      list shrinks by the number of rows that had the id. */
  lemma DeleteEvent<F>(data: seq<Row<F>>, newItem: Row<F>, deletedId: int)
    ensures forall x :: x in ApplyEvent(data, "DELETE", newItem, deletedId) <==> x in data && x.id != deletedId
    ensures Subsequence(ApplyEvent(data, "DELETE", newItem, deletedId), data)
    ensures |ApplyEvent(data, "DELETE", newItem, deletedId)| == |data| - CountId(data, deletedId)
  {
    forall x ensures x in RemoveById(data, deletedId) <==> x in data && x.id != deletedId {
      RemoveByIdMembers(data, deletedId, x);
    }
    RemoveByIdKeepsOrder(data, deletedId);
    RemoveByIdLength(data, deletedId);
  }

  /** Any other event type leaves the list untouched. */
  lemma OtherEvent<F>(data: seq<Row<F>>, eventType: string, newItem: Row<F>, deletedId: int)
    requires eventType !in {"INSERT", "UPDATE", "DELETE"}
    ensures ApplyEvent(data, eventType, newItem, deletedId) == data
  {
  }

  /** Whatever the event, a list without duplicate ids stays without them,
      and its length changes by 0, +1 or minus the deleted rows. */
  lemma EventKeepsUniqueIds<F>(data: seq<Row<F>>, eventType: string, newItem: Row<F>, deletedId: int)
    requires UniqueIds(data)
    ensures UniqueIds(ApplyEvent(data, eventType, newItem, deletedId))
    ensures var d := |ApplyEvent(data, eventType, newItem, deletedId)| - |data|;
      d == 0 || (eventType == "INSERT" && d == 1) || (eventType == "DELETE" && d == -1)
  {
    PrependNewSpec(data, newItem);
    ReplaceByIdSpec(data, newItem);
    RemoveByIdUnique(data, deletedId);
    RemoveByIdLength(data, deletedId);
  }
}
