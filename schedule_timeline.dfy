/**
 * The schedule timeline (components/dashboard/ScheduleTimeline.tsx): the day's
 * blocks ordered by start, each marked past and/or current against the time now.
 */
module ScheduleTimeline {
  import opened Wrappers
  import opened Clock
  import opened Records
  import opened StableSort

  /** The comparator's key: the start instant. */
  function StartOrder(item: ScheduleItem): SortKey {
    At(item.start)
  }

  /** `[...items].sort((a, b) => start(a) - start(b))`: a stable reordering by start. */
  function Sorted(items: seq<ScheduleItem>): (r: seq<ScheduleItem>)
    ensures multiset(r) == multiset(items) && |r| == |items|
    ensures forall i, j :: 0 <= i < j < |r| ==> r[i].start <= r[j].start
    ensures SameTieOrder(r, items, StartOrder)
  {
    var r := SortByKey(items, StartOrder);
    assert forall i, j :: 0 <= i < j < |r| ==> KeyLe(StartOrder(r[i]), StartOrder(r[j]));
    assert |r| == |multiset(r)| == |items|;
    r
  }

  /** `start.isBefore(now) && (!end || end.isBefore(now))`. */
  predicate IsPast(item: ScheduleItem, now: Timestamp) {
    item.start < now && (item.end.None? || item.end.value < now)
  }

  /**
   * `start.isBefore(now) && end ? now.isBefore(end) : start.isSame(now, "minute")`:
   * `&&` binds tighter than `?:`, so the test is on both the start and the end.
   */
  predicate IsCurrent(item: ScheduleItem, now: Timestamp) {
    if item.start < now && item.end.Some? then now < item.end.value else SameMinute(item.start, now)
  }

  /** A block with an end is never marked both past and current. */
  lemma NeverPastAndCurrentWithEnd(item: ScheduleItem, now: Timestamp)
    requires item.end.Some?
    ensures !(IsPast(item, now) && IsCurrent(item, now))
  {
  }

  /** Without an end, a block that began earlier in the current minute is both. */
  lemma PastAndCurrentWithoutEnd()
    ensures var item := ScheduleItem("b", "Focus", 60000, None, None, None);
            IsPast(item, 90000) && IsCurrent(item, 90000)
  {
  }

  /** Without an end, a block that began in an earlier minute is past and not current. */
  lemma OpenBlockEndsWithItsMinute(item: ScheduleItem, now: Timestamp)
    requires item.end.None? && MinuteOf(item.start) < MinuteOf(now)
    ensures IsPast(item, now) && !IsCurrent(item, now)
  {
  }

  /** A block that has not started is current only within its starting minute, whatever its end. */
  lemma UpcomingIsCurrentOnlyInItsMinute(item: ScheduleItem, now: Timestamp)
    requires now <= item.start
    ensures !IsPast(item, now)
    ensures IsCurrent(item, now) <==> SameMinute(item.start, now)
  {
  }

  datatype TimelineRow = TimelineRow(item: ScheduleItem, past: bool, current: bool)

  datatype TimelineView = EmptyState | Blocks(rows: seq<TimelineRow>)

  /** The component: the empty state, or one row per block in start order, carrying its two flags. */
  function Render(items: seq<ScheduleItem>, now: Timestamp): (v: TimelineView)
    ensures v.EmptyState? <==> items == []
    ensures v.Blocks? ==>
              var sorted := Sorted(items);
              |v.rows| == |items|
              && forall i :: 0 <= i < |v.rows| ==>
                   v.rows[i] == TimelineRow(sorted[i], IsPast(sorted[i], now), IsCurrent(sorted[i], now))
  {
    if items == [] then EmptyState
    else
      var sorted := Sorted(items);
      Blocks(seq(|sorted|, i requires 0 <= i < |sorted| =>
        TimelineRow(sorted[i], IsPast(sorted[i], now), IsCurrent(sorted[i], now))))
  }

  /** The rendered rows show the input's blocks, earliest start first. */
  lemma RenderedInStartOrder(items: seq<ScheduleItem>, now: Timestamp)
    ensures var v := Render(items, now);
            v.Blocks? ==>
              && (forall i, j :: 0 <= i < j < |v.rows| ==> v.rows[i].item.start <= v.rows[j].item.start)
              && (forall i :: 0 <= i < |v.rows| ==> v.rows[i].item in items)
  {
    var v := Render(items, now);
    if v.Blocks? {
      var sorted := Sorted(items);
      forall i | 0 <= i < |v.rows| ensures v.rows[i].item in items {
        assert v.rows[i].item == sorted[i];
        assert sorted[i] in multiset(items);
      }
    }
  }
}
