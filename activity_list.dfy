/** The activity feed card (components/real-time-activity-list.tsx): the
    relative-time label of an entry, and the bounded list of entries shown,
    where a new entry goes first and is highlighted until a later step
    clears its flag. */
module ActivityList {
  import opened Common
  import opened Text
  import opened Activities

  const MsPerMinute := 60000
  const MsPerHour := 3600000
  const MsPerDay := 86400000

  // ---------------------------------------------------------------------
  // formatTimestamp

  /** The bucket an elapsed time falls in. */
  datatype Elapsed = JustNow | MinutesAgo(minutes: int) | HoursAgo(hours: int) | DaysAgo(days: int)

  /** The buckets of `formatTimestamp`; `diffMs` is `now - timestamp` in
      milliseconds and each `Math.floor` division is `/` on integers (a
      floor for a positive divisor). */
  function ElapsedOf(diffMs: int): Elapsed {
    var minutes := diffMs / MsPerMinute;
    if minutes < 1 then JustNow
    else if minutes < 60 then MinutesAgo(minutes)
    else
      var hours := minutes / 60;
      if hours < 24 then HoursAgo(hours)
      else DaysAgo(hours / 24)
  }

  function RenderElapsed(e: Elapsed): string {
    match e
    case JustNow => "Agora mesmo"
    case MinutesAgo(m) => IntToString(m) + "m atrás"
    case HoursAgo(h) => IntToString(h) + "h atrás"
    case DaysAgo(d) => IntToString(d) + "d atrás"
  }

  function FormatTimestamp(diffMs: int): string {
    RenderElapsed(ElapsedOf(diffMs))
  }

  /** The buckets in milliseconds: under a minute (a future instant
      included) is "now"; then whole minutes below an hour, whole hours
      below a day, and whole days. The ranges do not overlap and leave no
      gap. */
  lemma ElapsedBuckets(diffMs: int)
    ensures diffMs < MsPerMinute ==> ElapsedOf(diffMs) == JustNow
    ensures MsPerMinute <= diffMs < MsPerHour ==>
      ElapsedOf(diffMs) == MinutesAgo(diffMs / MsPerMinute) && 1 <= diffMs / MsPerMinute < 60
    ensures MsPerHour <= diffMs < MsPerDay ==>
      ElapsedOf(diffMs) == HoursAgo(diffMs / MsPerHour) && 1 <= diffMs / MsPerHour < 24
    ensures MsPerDay <= diffMs ==> ElapsedOf(diffMs) == DaysAgo(diffMs / MsPerDay) && diffMs / MsPerDay >= 1
  {
    var minutes := diffMs / MsPerMinute;
    if diffMs >= MsPerHour {
      FloorOfFloor(diffMs, MsPerMinute, 60);
      assert minutes / 60 == diffMs / MsPerHour;
      if diffMs >= MsPerDay {
        FloorOfFloor(diffMs, MsPerHour, 24);
      }
    }
  }

  /** `Math.floor(Math.floor(x / a) / b) == Math.floor(x / (a * b))` for
      the divisors used here. */
  lemma FloorOfFloor(x: int, a: int, b: int)
    requires (a, b) in {(MsPerMinute, 60), (MsPerHour, 24)}
    ensures (x / a) / b == x / (a * b)
  {
    var q := x / a;
    var q2 := q / b;
    assert a * b * q2 <= a * q <= x;
    assert x < a * (q + 1) <= a * b * (q2 + 1);
  }

  /** The label names its bucket: different buckets, or the same bucket
      with different counts, never show the same text. */
  lemma RenderElapsedInjective(e1: Elapsed, e2: Elapsed)
    requires Count(e1) >= 0 && Count(e2) >= 0
    ensures RenderElapsed(e1) == RenderElapsed(e2) ==> e1 == e2
  {
    if RenderElapsed(e1) == RenderElapsed(e2) {
      var s := RenderElapsed(e1);
      UnitChar(e1);
      UnitChar(e2);
      if !e1.JustNow? && !e2.JustNow? {
        var n1 := Count(e1);
        var n2 := Count(e2);
        var t1 := NatToString(n1);
        var t2 := NatToString(n2);
        assert s == t1 + [s[|s| - 7]] + " atrás";
        assert t1 == s[..|s| - 7] == t2;
        NatToStringInjective(n1, n2);
      }
    }
  }

  /** The number shown in the label (none for "now"). */
  function Count(e: Elapsed): int {
    match e
    case JustNow => 0
    case MinutesAgo(n) => n
    case HoursAgo(n) => n
    case DaysAgo(n) => n
  }

  /** The character in front of " atrás" tells the unit. */
  lemma UnitChar(e: Elapsed)
    requires Count(e) >= 0
    ensures |RenderElapsed(e)| >= 7
    ensures RenderElapsed(e)[|RenderElapsed(e)| - 7] ==
      match e case JustNow => 'a' case MinutesAgo(_) => 'm' case HoursAgo(_) => 'h' case DaysAgo(_) => 'd'
    ensures !e.JustNow? ==>
      RenderElapsed(e) == NatToString(Count(e)) + [RenderElapsed(e)[|RenderElapsed(e)| - 7]] + " atrás"
  {
    if !e.JustNow? {
      var t := NatToString(Count(e));
      NatToStringRoundTrip(Count(e));
    }
  }

  // ---------------------------------------------------------------------
  // The entries shown

  class ActivityListState {
    var displayed: seq<ActivityItem>
    const maxItems: int

    /** With a positive `maxItems`, at most that many entries are shown. */
    predicate Valid()
      reads this
    {
      maxItems < 1 || |displayed| <= maxItems
    }

    /** `useState(activities.slice(0, maxItems))` */
    constructor(activities: seq<ActivityItem>, maxItems: int)
      ensures this.maxItems == maxItems && displayed == Slice(activities, 0, maxItems)
      ensures maxItems >= 0 ==> displayed == activities[..Min(maxItems, |activities|)]
      ensures Valid()
    {
      this.maxItems := maxItems;
      displayed := Slice(activities, 0, maxItems);
      if maxItems >= 0 {
        SlicePrefix(activities, maxItems);
      }
    }

    /** `addNewActivity(item)`: the item goes first, highlighted, followed
        by the first `maxItems - 1` entries shown before. */
    method AddNewActivity(item: ActivityItem)
      requires Valid()
      modifies this
      ensures displayed == [item.(isNew := Some(true))] + Slice(old(displayed), 0, maxItems - 1)
      ensures maxItems >= 1 ==>
        displayed[1..] == old(displayed)[..|displayed| - 1] && |displayed| == Min(|old(displayed)| + 1, maxItems)
      ensures Valid()
    {
      displayed := [item.(isNew := Some(true))] + Slice(displayed, 0, maxItems - 1);
      if maxItems >= 1 {
        SlicePrefix(old(displayed), maxItems - 1);
      }
    }

    /** The step that follows `addNewActivity`: the entries with that id
        are no longer highlighted; nothing else changes. */
    method ClearNewFlag(id: string)
      requires Valid()
      modifies this
      ensures displayed == SetNewFlag(old(displayed), id, false)
      ensures Valid()
    {
      displayed := SetNewFlag(displayed, id, false);
    }
  }
}
