/**
 * The summary cards (components/dashboard/OverviewSummary.tsx): four counters
 * over the dashboard's collections, taken against today's local day.
 */
module OverviewSummary {
  import opened Wrappers
  import opened Clock
  import opened Records
  import opened Seqs

  /** `xs.filter(p).length`. */
  function CountWhere<T>(s: seq<T>, p: T -> bool): (n: nat)
    ensures n <= |s|
  {
    |Filter(s, p)|
  }

  /** Everything counts when every element passes, and nothing when none does. */
  lemma CountAllOrNone<T>(s: seq<T>, p: T -> bool)
    ensures (forall i :: 0 <= i < |s| ==> p(s[i])) ==> CountWhere(s, p) == |s|
    ensures (forall i :: 0 <= i < |s| ==> !p(s[i])) ==> CountWhere(s, p) == 0
  {
    if forall i :: 0 <= i < |s| ==> p(s[i]) {
      FilterKeepsAll(s, p);
    }
    if forall i :: 0 <= i < |s| ==> !p(s[i]) {
      FilterKeepsNone(s, p);
    }
  }

  lemma CountAppend<T>(a: seq<T>, b: seq<T>, p: T -> bool)
    ensures CountWhere(a + b, p) == CountWhere(a, p) + CountWhere(b, p)
  {
    FilterAppend(a, b, p);
  }

  /** Adding an element the predicate rejects leaves the count unchanged. */
  lemma CountSkips<T>(s: seq<T>, x: T, p: T -> bool)
    requires !p(x)
    ensures CountWhere(s + [x], p) == CountWhere(s, p)
  {
    CountAppend(s, [x], p);
    assert CountWhere([x], p) == 0;
  }

  /** `isBetween(todayStart, todayEnd, null, "[]")`: both ends included. */
  predicate InWindow(t: Timestamp, todayStart: Timestamp, todayEnd: Timestamp) {
    todayStart <= t <= todayEnd
  }

  /** `now.startOf("day")` and `now.endOf("day")`: the first and last millisecond of today's local day. */
  function TodayStart(now: Timestamp, offset: int): (t: Timestamp)
    ensures t <= now < t + MsPerDay
  {
    LocalMidnight(LocalDay(now, offset), offset)
  }

  function TodayEnd(now: Timestamp, offset: int): (t: Timestamp)
    ensures t == TodayStart(now, offset) + MsPerDay - 1
  {
    LocalMidnight(LocalDay(now, offset), offset) + MsPerDay - 1
  }

  /** An instant is in today's window exactly when it falls on the same local day as now. */
  lemma TodayIsLocalDay(t: Timestamp, now: Timestamp, offset: int)
    ensures InWindow(t, TodayStart(now, offset), TodayEnd(now, offset)) <==> LocalDay(t, offset) == LocalDay(now, offset)
  {
    var d := LocalDay(now, offset);
    var w := t + offset;
    assert w == w / MsPerDay * MsPerDay + w % MsPerDay;
    if LocalDay(t, offset) == d {
      assert d * MsPerDay <= w < d * MsPerDay + MsPerDay;
    } else if LocalDay(t, offset) < d {
      assert w < (LocalDay(t, offset) + 1) * MsPerDay <= d * MsPerDay;
    } else {
      assert w >= LocalDay(t, offset) * MsPerDay >= (d + 1) * MsPerDay;
    }
  }

  predicate StartsToday(item: ScheduleItem, todayStart: Timestamp, todayEnd: Timestamp) {
    InWindow(item.start, todayStart, todayEnd)
  }

  predicate DueToday(due: Option<Timestamp>, todayStart: Timestamp, todayEnd: Timestamp) {
    due.Some? && InWindow(due.value, todayStart, todayEnd)
  }

  /** `goal.progress >= 50 && goal.status !== "complete"`. */
  predicate OnTrack(goal: Goal) {
    goal.progress >= 50 && goal.status != Complete
  }

  /** The four counters: focus blocks, deadlines, goals on track and reminders due today. */
  datatype Summary = Summary(blocksToday: nat, deadlinesToday: nat, goalsOnTrack: nat, remindersToday: nat)

  function Summarize(state: DashboardState, todayStart: Timestamp, todayEnd: Timestamp): (s: Summary)
    ensures s.blocksToday <= |state.schedule|
    ensures s.deadlinesToday <= |state.assignments|
    ensures s.goalsOnTrack <= |state.goals|
    ensures s.remindersToday <= |state.reminders|
    ensures s.goalsOnTrack == CountWhere(state.goals, OnTrack)
    ensures s.deadlinesToday == CountWhere(state.assignments, (a: Assignment) => DueToday(a.dueDate, todayStart, todayEnd))
    ensures s.remindersToday == CountWhere(state.reminders, (r: Reminder) => DueToday(r.dueDate, todayStart, todayEnd))
    ensures s.blocksToday == CountWhere(state.schedule, (b: ScheduleItem) => StartsToday(b, todayStart, todayEnd))
  {
    Summary(
      CountWhere(state.schedule, (b: ScheduleItem) => StartsToday(b, todayStart, todayEnd)),
      CountWhere(state.assignments, (a: Assignment) => DueToday(a.dueDate, todayStart, todayEnd)),
      CountWhere(state.goals, OnTrack),
      CountWhere(state.reminders, (r: Reminder) => DueToday(r.dueDate, todayStart, todayEnd)))
  }

  /**
   * Against today's window, the three dated counters count exactly the
   * blocks and due dates on now's local day.
   */
  lemma SummarizeCountsLocalDay(state: DashboardState, now: Timestamp, offset: int)
    ensures var s := Summarize(state, TodayStart(now, offset), TodayEnd(now, offset));
            && s.blocksToday == CountWhere(state.schedule, (b: ScheduleItem) => LocalDay(b.start, offset) == LocalDay(now, offset))
            && s.deadlinesToday == CountWhere(state.assignments, (a: Assignment) => a.dueDate.Some? && LocalDay(a.dueDate.value, offset) == LocalDay(now, offset))
            && s.remindersToday == CountWhere(state.reminders, (r: Reminder) => r.dueDate.Some? && LocalDay(r.dueDate.value, offset) == LocalDay(now, offset))
  {
    var lo, hi := TodayStart(now, offset), TodayEnd(now, offset);
    forall t: Timestamp
      ensures InWindow(t, lo, hi) <==> LocalDay(t, offset) == LocalDay(now, offset)
    {
      TodayIsLocalDay(t, now, offset);
    }
    FilterAgrees(state.schedule, (b: ScheduleItem) => StartsToday(b, lo, hi),
                 (b: ScheduleItem) => LocalDay(b.start, offset) == LocalDay(now, offset));
    FilterAgrees(state.assignments, (a: Assignment) => DueToday(a.dueDate, lo, hi),
                 (a: Assignment) => a.dueDate.Some? && LocalDay(a.dueDate.value, offset) == LocalDay(now, offset));
    FilterAgrees(state.reminders, (r: Reminder) => DueToday(r.dueDate, lo, hi),
                 (r: Reminder) => r.dueDate.Some? && LocalDay(r.dueDate.value, offset) == LocalDay(now, offset));
  }

  /** A complete goal never counts as on track, whatever its progress. */
  lemma CompleteGoalNotOnTrack(state: DashboardState, goal: Goal, todayStart: Timestamp, todayEnd: Timestamp)
    requires goal.status == Complete
    ensures Summarize(state.(goals := state.goals + [goal]), todayStart, todayEnd).goalsOnTrack
            == Summarize(state, todayStart, todayEnd).goalsOnTrack
  {
    CountSkips(state.goals, goal, OnTrack);
  }

  /** An undated assignment or reminder never counts as due today. */
  lemma UndatedNotDueToday(state: DashboardState, a: Assignment, r: Reminder, todayStart: Timestamp, todayEnd: Timestamp)
    requires a.dueDate.None? && r.dueDate.None?
    ensures var next := state.(assignments := state.assignments + [a], reminders := state.reminders + [r]);
            Summarize(next, todayStart, todayEnd).deadlinesToday == Summarize(state, todayStart, todayEnd).deadlinesToday
            && Summarize(next, todayStart, todayEnd).remindersToday == Summarize(state, todayStart, todayEnd).remindersToday
  {
    CountSkips(state.assignments, a, (x: Assignment) => DueToday(x.dueDate, todayStart, todayEnd));
    CountSkips(state.reminders, r, (x: Reminder) => DueToday(x.dueDate, todayStart, todayEnd));
  }

  /** Blocks starting exactly at the first and at the last millisecond of today both count. */
  lemma WindowIsInclusive(first: ScheduleItem, last: ScheduleItem, todayStart: Timestamp, todayEnd: Timestamp)
    requires todayStart <= todayEnd && first.start == todayStart && last.start == todayEnd
    ensures Summarize(InitialState.(schedule := [first, last]), todayStart, todayEnd).blocksToday == 2
  {
    CountAllOrNone([first, last], (b: ScheduleItem) => StartsToday(b, todayStart, todayEnd));
  }
}
