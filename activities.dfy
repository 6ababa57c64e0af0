/** The realtime activity entries shown in the activity feed
    (lib/enhanced-store.ts and components/real-time-activity-list.tsx), and
    the step that clears the "new" highlight of one entry. */
module Activities {
  import opened Common

  /** `action` is absent in the component's own entries. */
  datatype ActivityItem = ActivityItem(
    id: string,
    title: string,
    description: Option<string>,
    kind: string,
    timestamp: int,
    author: Option<string>,
    isNew: Option<bool>,
    action: Option<string>)

  /** `items.map((a) => (a.id === id ? { ...a, isNew: flag } : a))` */
  function SetNewFlag(items: seq<ActivityItem>, id: string, flag: bool): seq<ActivityItem> {
    seq(|items|, i requires 0 <= i < |items| => if items[i].id == id then items[i].(isNew := Some(flag)) else items[i])
  }

  /** Clearing the highlight touches only the `isNew` of the entries with
      that id; everything else, order and length included, stays. */
  lemma ClearNewFlagSpec(items: seq<ActivityItem>, id: string)
    ensures |SetNewFlag(items, id, false)| == |items|
    ensures forall i :: 0 <= i < |items| && items[i].id != id ==> SetNewFlag(items, id, false)[i] == items[i]
    ensures forall i :: 0 <= i < |items| && items[i].id == id ==>
      SetNewFlag(items, id, false)[i].isNew == Some(false)
      && SetNewFlag(items, id, false)[i].(isNew := items[i].isNew) == items[i]
  {
  }
}
