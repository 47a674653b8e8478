/**
 * The dashboard page (app/page.tsx): the state updaters it hands to the
 * persistent store, the save handlers of its four forms, the calendar import,
 * the selected-day schedule filter, and the store itself.
 */
module Dashboard {
  import opened Wrappers
  import opened Clock
  import opened Records
  import opened Seqs
  import opened Upsert
  import opened Status
  import opened Reconcile
  import KeyedMerge
  import N = Normalize
  import AF = AssignmentForm
  import GF = GoalForm
  import RF = ReminderForm
  import SF = ScheduleForm
  import ReminderList

  /** `collection.filter(entry => entry.id !== id)`. */
  function WithoutId<T>(collection: seq<T>, id: Id, idOf: T -> Id): (r: seq<T>)
    ensures forall i :: 0 <= i < |r| ==> idOf(r[i]) != id
    ensures forall i :: 0 <= i < |collection| && idOf(collection[i]) != id ==> collection[i] in r
    ensures IsSubsequence(r, collection)
  {
    Filter(collection, (entry: T) => idOf(entry) != id)
  }

  /** Deleting an id no entry carries changes nothing. */
  lemma WithoutAbsentId<T>(collection: seq<T>, id: Id, idOf: T -> Id)
    requires !HasId(collection, id, idOf)
    ensures WithoutId(collection, id, idOf) == collection
  {
    FilterKeepsAll(collection, (entry: T) => idOf(entry) != id);
  }

  /** Deleting twice is deleting once. */
  lemma WithoutIdIdempotent<T>(collection: seq<T>, id: Id, idOf: T -> Id)
    ensures WithoutId(WithoutId(collection, id, idOf), id, idOf) == WithoutId(collection, id, idOf)
  {
    var once := WithoutId(collection, id, idOf);
    WithoutAbsentId(once, id, idOf);
  }

  function DeleteSchedule(prev: DashboardState, id: Id): (next: DashboardState)
    ensures next == prev.(schedule := next.schedule)
    ensures forall i :: 0 <= i < |next.schedule| ==> next.schedule[i].id != id
    ensures forall i :: 0 <= i < |prev.schedule| && prev.schedule[i].id != id ==> prev.schedule[i] in next.schedule
    ensures IsSubsequence(next.schedule, prev.schedule)
  {
    prev.(schedule := WithoutId(prev.schedule, id, ScheduleId))
  }

  function DeleteAssignment(prev: DashboardState, id: Id): (next: DashboardState)
    ensures next == prev.(assignments := next.assignments)
    ensures forall i :: 0 <= i < |next.assignments| ==> next.assignments[i].id != id
    ensures forall i :: 0 <= i < |prev.assignments| && prev.assignments[i].id != id ==> prev.assignments[i] in next.assignments
    ensures IsSubsequence(next.assignments, prev.assignments)
  {
    prev.(assignments := WithoutId(prev.assignments, id, AssignmentId))
  }

  function DeleteGoal(prev: DashboardState, id: Id): (next: DashboardState)
    ensures next == prev.(goals := next.goals)
    ensures forall i :: 0 <= i < |next.goals| ==> next.goals[i].id != id
    ensures forall i :: 0 <= i < |prev.goals| && prev.goals[i].id != id ==> prev.goals[i] in next.goals
    ensures IsSubsequence(next.goals, prev.goals)
  {
    prev.(goals := WithoutId(prev.goals, id, GoalId))
  }

  function DeleteReminder(prev: DashboardState, id: Id): (next: DashboardState)
    ensures next == prev.(reminders := next.reminders)
    ensures forall i :: 0 <= i < |next.reminders| ==> next.reminders[i].id != id
    ensures forall i :: 0 <= i < |prev.reminders| && prev.reminders[i].id != id ==> prev.reminders[i] in next.reminders
    ensures IsSubsequence(next.reminders, prev.reminders)
  {
    prev.(reminders := WithoutId(prev.reminders, id, ReminderId))
  }

  /**
   * Deleting an assignment keeps the reminders that point at it; their link is
   * then dangling and the reminder list shows none.
   */
  lemma DeletedAssignmentUnlinks(prev: DashboardState, id: Id, reminder: Reminder)
    requires reminder.relatedId == Some(id)
    ensures DeleteAssignment(prev, id).reminders == prev.reminders
    ensures ReminderList.Related(reminder, DeleteAssignment(prev, id).assignments) == None
  {
    ReminderList.DanglingRelatedId(reminder, DeleteAssignment(prev, id).assignments);
  }

  /** `collection.map(entry => entry.id === id ? f(entry) : entry)`. */
  function UpdateWhere<T>(collection: seq<T>, id: Id, idOf: T -> Id, f: T -> T): (r: seq<T>)
    ensures |r| == |collection|
    ensures forall i :: 0 <= i < |r| ==> r[i] == if idOf(collection[i]) == id then f(collection[i]) else collection[i]
  {
    seq(|collection|, i requires 0 <= i < |collection| =>
      if idOf(collection[i]) == id then f(collection[i]) else collection[i])
  }

  function Advanced(a: Assignment): Assignment {
    a.(status := NextStatus(a.status))
  }

  /** The "advance status" button: assignments with the id move one step round the status cycle. */
  function AdvanceStatus(prev: DashboardState, id: Id): (next: DashboardState)
    ensures next == prev.(assignments := next.assignments)
    ensures |next.assignments| == |prev.assignments|
    ensures forall i :: 0 <= i < |prev.assignments| ==>
              var a, b := prev.assignments[i], next.assignments[i];
              if a.id == id then b == a.(status := NextStatus(a.status)) && b.status in StatusOrder
              else b == a
  {
    prev.(assignments := UpdateWhere(prev.assignments, id, AssignmentId, Advanced))
  }

  /** Four presses restore an assignment whose status is one of the four states. */
  lemma AdvanceFourTimes(prev: DashboardState, id: Id)
    requires forall i :: 0 <= i < |prev.assignments| ==> prev.assignments[i].status in StatusOrder
    ensures AdvanceStatus(AdvanceStatus(AdvanceStatus(AdvanceStatus(prev, id), id), id), id) == prev
  {
    var s1 := AdvanceStatus(prev, id);
    var s2 := AdvanceStatus(s1, id);
    var s3 := AdvanceStatus(s2, id);
    var s4 := AdvanceStatus(s3, id);
    forall i | 0 <= i < |prev.assignments| ensures s4.assignments[i] == prev.assignments[i] {
      NextStatusFourTimes(prev.assignments[i].status);
    }
  }

  function Toggled(g: Goal): Goal {
    if g.status == Complete then g.(status := InProgress) else g.(status := Complete, progress := 100)
  }

  /**
   * The goal "complete" toggle: a complete goal goes back to in progress with its
   * progress kept; any other goal becomes complete at 100.
   */
  function ToggleGoal(prev: DashboardState, id: Id): (next: DashboardState)
    ensures next == prev.(goals := next.goals)
    ensures |next.goals| == |prev.goals|
    ensures forall i :: 0 <= i < |prev.goals| ==>
              var g, h := prev.goals[i], next.goals[i];
              if g.id != id then h == g
              else if g.status == Complete then h == g.(status := InProgress)
              else h == g.(status := Complete, progress := 100)
  {
    prev.(goals := UpdateWhere(prev.goals, id, GoalId, Toggled))
  }

  /** Toggling twice is not the identity: an in-progress goal at 40 comes back in progress at 100. */
  lemma ToggleGoalTwice()
    ensures var g := Goal("g", "Run", None, None, InProgress, 40, []);
            var s := InitialState.(goals := [g]);
            ToggleGoal(ToggleGoal(s, "g"), "g").goals == [g.(progress := 100)]
  {
  }

  function Flipped(r: Reminder): Reminder {
    r.(completed := !r.completed)
  }

  /** The reminder check box: reminders with the id flip `completed`. */
  function ToggleReminder(prev: DashboardState, id: Id): (next: DashboardState)
    ensures next == prev.(reminders := next.reminders)
    ensures |next.reminders| == |prev.reminders|
    ensures forall i :: 0 <= i < |prev.reminders| ==>
              var r, q := prev.reminders[i], next.reminders[i];
              if r.id == id then q == r.(completed := !r.completed) else q == r
  {
    prev.(reminders := UpdateWhere(prev.reminders, id, ReminderId, Flipped))
  }

  lemma ToggleReminderInvolution(prev: DashboardState, id: Id)
    ensures ToggleReminder(ToggleReminder(prev, id), id) == prev
  {
    var next := ToggleReminder(ToggleReminder(prev, id), id);
    assert next.reminders == prev.reminders;
  }

  /** Each event as a new assignment: a fresh id, status planned, priority medium, source canvas. */
  function MapEvents(events: seq<CalendarEvent>, ids: seq<Id>): (mapped: seq<Assignment>)
    requires |ids| == |events|
    ensures |mapped| == |events|
    ensures forall i :: 0 <= i < |events| ==>
              var e := events[i];
              mapped[i] == Assignment(ids[i], e.title, e.course, e.dueDate, e.description,
                                      Planned, Medium, e.link, Some(Canvas))
  {
    seq(|events|, i requires 0 <= i < |events| =>
      var e := events[i];
      Assignment(ids[i], e.title, e.course, e.dueDate, e.description, Planned, Medium, e.link, Some(Canvas)))
  }

  /** The import callback: nothing for an empty feed, otherwise the mapped events merged in. */
  function ImportEvents(prev: DashboardState, events: seq<CalendarEvent>, ids: seq<Id>): (next: DashboardState)
    requires |ids| == |events|
    ensures next == prev.(assignments := next.assignments)
    ensures events == [] ==> next == prev
  {
    if events == [] then prev
    else prev.(assignments := Reconciled(prev.assignments, MapEvents(events, ids)))
  }

  /** Every assignment an import adds is a canvas item, planned, at medium priority. */
  lemma ImportAddsCanvasItems(prev: DashboardState, events: seq<CalendarEvent>, ids: seq<Id>)
    requires |ids| == |events|
    ensures var next := ImportEvents(prev, events, ids);
            |prev.assignments| <= |next.assignments|
            && next.assignments[..|prev.assignments|] == prev.assignments
            && forall i :: |prev.assignments| <= i < |next.assignments| ==>
                 var a := next.assignments[i];
                 a.source == Some(Canvas) && a.status == Planned && a.priority == Medium
  {
    if events != [] {
      var mapped := MapEvents(events, ids);
      var next := ImportEvents(prev, events, ids);
      KeyedMerge.MergeShape(Signature, prev.assignments, mapped);
      var added := next.assignments[|prev.assignments|..];
      SubsequenceMembers(added, mapped);
      forall i | |prev.assignments| <= i < |next.assignments|
        ensures next.assignments[i].source == Some(Canvas)
        ensures next.assignments[i].status == Planned && next.assignments[i].priority == Medium
      {
        assert next.assignments[i] == added[i - |prev.assignments|];
        assert next.assignments[i] in mapped;
      }
    }
  }

  lemma MappedSignaturesAgree(events: seq<CalendarEvent>, ids1: seq<Id>, ids2: seq<Id>)
    requires |ids1| == |events| && |ids2| == |events|
    ensures forall j :: 0 <= j < |events| ==>
              Signature(MapEvents(events, ids2)[j]) == Signature(MapEvents(events, ids1)[j])
  {
  }

  /** Importing the same feed again, with whatever new ids, adds nothing. */
  lemma ReimportAddsNothing(prev: DashboardState, events: seq<CalendarEvent>, ids1: seq<Id>, ids2: seq<Id>)
    requires |ids1| == |events| && |ids2| == |events|
    ensures ImportEvents(ImportEvents(prev, events, ids1), events, ids2) == ImportEvents(prev, events, ids1)
  {
    if events != [] {
      var once := ImportEvents(prev, events, ids1);
      var first, second := MapEvents(events, ids1), MapEvents(events, ids2);
      KeyedMerge.MergeCovers(Signature, prev.assignments, first);
      MappedSignaturesAgree(events, ids1, ids2);
      assert forall j :: 0 <= j < |second| ==> Signature(second[j]) in Signatures(once.assignments);
      KeyedMerge.AcceptAllSeen(Signature, Signatures(once.assignments), second);
    }
  }

  /** The id a save writes: the edited record's, or a fresh one for a new record. */
  function SaveId<T>(editing: Option<T>, idOf: T -> Id, freshId: Id): (id: Id)
    ensures editing.Some? ==> id == idOf(editing.value)
    ensures editing.None? ==> id == freshId
  {
    match editing
    case Some(item) => idOf(item)
    case None => freshId
  }

  /** The schedule form's submit: the normalised block upserted. */
  function SaveSchedule(prev: DashboardState, values: SF.ScheduleFormValues, editing: Option<ScheduleItem>,
                        freshId: Id, offset: int): (next: DashboardState)
    requires values.date.Some? && values.startTime.Some?
    ensures next == prev.(schedule := next.schedule)
    ensures N.NormalizeSchedule(values, SaveId(editing, ScheduleId, freshId), offset) in next.schedule
    ensures forall x :: x in prev.schedule && x.id != SaveId(editing, ScheduleId, freshId) ==> x in next.schedule
    ensures |next.schedule| == |prev.schedule| + (if HasId(prev.schedule, SaveId(editing, ScheduleId, freshId), ScheduleId) then 0 else 1)
  {
    var item := N.NormalizeSchedule(values, SaveId(editing, ScheduleId, freshId), offset);
    UpsertContains(prev.schedule, item, ScheduleId);
    UpsertKeepsOthers(prev.schedule, item, ScheduleId);
    prev.(schedule := Upsert.Upsert(prev.schedule, item, ScheduleId))
  }

  function SaveGoal(prev: DashboardState, values: GF.GoalFormValues, editing: Option<Goal>,
                    freshId: Id, offset: int): (next: DashboardState)
    ensures next == prev.(goals := next.goals)
    ensures N.NormalizeGoal(values, SaveId(editing, GoalId, freshId), offset) in next.goals
    ensures forall x :: x in prev.goals && x.id != SaveId(editing, GoalId, freshId) ==> x in next.goals
    ensures |next.goals| == |prev.goals| + (if HasId(prev.goals, SaveId(editing, GoalId, freshId), GoalId) then 0 else 1)
  {
    var goal := N.NormalizeGoal(values, SaveId(editing, GoalId, freshId), offset);
    UpsertContains(prev.goals, goal, GoalId);
    UpsertKeepsOthers(prev.goals, goal, GoalId);
    prev.(goals := Upsert.Upsert(prev.goals, goal, GoalId))
  }

  /** The source a save stamps: the edited record's, "manual" when it had none or for a new one. */
  function SaveSource(editing: Option<Assignment>): (source: Source)
    ensures editing.Some? && editing.value.source.Some? ==> source == editing.value.source.value
    ensures editing.None? || editing.value.source.None? ==> source == Manual
  {
    match editing
    case Some(a) => a.source.GetOr(Manual)
    case None => Manual
  }

  function SaveAssignment(prev: DashboardState, values: AF.AssignmentFormValues, editing: Option<Assignment>,
                          freshId: Id, offset: int): (next: DashboardState)
    ensures next == prev.(assignments := next.assignments)
    ensures N.NormalizeAssignment(values, SaveId(editing, AssignmentId, freshId), SaveSource(editing), offset) in next.assignments
    ensures forall x :: x in prev.assignments && x.id != SaveId(editing, AssignmentId, freshId) ==> x in next.assignments
    ensures |next.assignments| == |prev.assignments| + (if HasId(prev.assignments, SaveId(editing, AssignmentId, freshId), AssignmentId) then 0 else 1)
  {
    var a := N.NormalizeAssignment(values, SaveId(editing, AssignmentId, freshId), SaveSource(editing), offset);
    UpsertContains(prev.assignments, a, AssignmentId);
    UpsertKeepsOthers(prev.assignments, a, AssignmentId);
    prev.(assignments := Upsert.Upsert(prev.assignments, a, AssignmentId))
  }

  /** The `completed` flag a save keeps: the edited reminder's, false for a new one. */
  function SaveCompleted(editing: Option<Reminder>): (completed: bool)
    ensures editing.Some? ==> completed == editing.value.completed
    ensures editing.None? ==> !completed
  {
    match editing
    case Some(r) => r.completed
    case None => false
  }

  function SaveReminder(prev: DashboardState, values: RF.ReminderFormValues, editing: Option<Reminder>,
                        freshId: Id, offset: int): (next: DashboardState)
    ensures next == prev.(reminders := next.reminders)
    ensures N.NormalizeReminder(values, SaveId(editing, ReminderId, freshId), SaveCompleted(editing), offset) in next.reminders
    ensures forall x :: x in prev.reminders && x.id != SaveId(editing, ReminderId, freshId) ==> x in next.reminders
    ensures |next.reminders| == |prev.reminders| + (if HasId(prev.reminders, SaveId(editing, ReminderId, freshId), ReminderId) then 0 else 1)
  {
    var r := N.NormalizeReminder(values, SaveId(editing, ReminderId, freshId), SaveCompleted(editing), offset);
    UpsertContains(prev.reminders, r, ReminderId);
    UpsertKeepsOthers(prev.reminders, r, ReminderId);
    prev.(reminders := Upsert.Upsert(prev.reminders, r, ReminderId))
  }

  /**
   * Editing an assignment keeps its id, its place and its source; the list keeps
   * its length when the edited id is still present.
   */
  lemma EditAssignmentInPlace(prev: DashboardState, values: AF.AssignmentFormValues, i: nat, offset: int)
    requires i < |prev.assignments|
    ensures var a := prev.assignments[i];
            var next := SaveAssignment(prev, values, Some(a), "", offset);
            |next.assignments| == |prev.assignments|
            && next.assignments[i].id == a.id
            && next.assignments[i].source == Some(a.source.GetOr(Manual))
  {
    var a := prev.assignments[i];
    assert HasId(prev.assignments, a.id, AssignmentId);
  }

  /** Editing a reminder keeps its `completed` flag; a new reminder is not completed. */
  lemma SaveReminderKeepsCompleted(prev: DashboardState, values: RF.ReminderFormValues, editing: Option<Reminder>,
                                   freshId: Id, offset: int)
    ensures var next := SaveReminder(prev, values, editing, freshId, offset);
            exists r :: r in next.reminders && r.id == SaveId(editing, ReminderId, freshId)
                        && r.completed == (editing.Some? && editing.value.completed)
  {
    var r := N.NormalizeReminder(values, SaveId(editing, ReminderId, freshId), SaveCompleted(editing), offset);
    UpsertContains(prev.reminders, r, ReminderId);
  }

  /** `scheduleForDay`: the blocks that start on the selected local day, in stored order. */
  function ScheduleForDay(schedule: seq<ScheduleItem>, day: int, offset: int): (r: seq<ScheduleItem>)
    ensures forall i :: 0 <= i < |r| ==> LocalDay(r[i].start, offset) == day
    ensures forall i :: 0 <= i < |schedule| && LocalDay(schedule[i].start, offset) == day ==> schedule[i] in r
    ensures IsSubsequence(r, schedule)
  {
    Filter(schedule, (item: ScheduleItem) => LocalDay(item.start, offset) == day)
  }

  /** After a save the page selects the saved block's day, so the saved block is listed. */
  lemma SavedBlockIsShown(prev: DashboardState, values: SF.ScheduleFormValues, editing: Option<ScheduleItem>,
                          freshId: Id, offset: int)
    requires values.date.Some? && values.startTime.Some?
    ensures var item := N.NormalizeSchedule(values, SaveId(editing, ScheduleId, freshId), offset);
            var next := SaveSchedule(prev, values, editing, freshId, offset);
            item in ScheduleForDay(next.schedule, LocalDay(item.start, offset), offset)
  {
    var item := N.NormalizeSchedule(values, SaveId(editing, ScheduleId, freshId), offset);
    var next := SaveSchedule(prev, values, editing, freshId, offset);
    UpsertContains(prev.schedule, item, ScheduleId);
    var i :| 0 <= i < |next.schedule| && next.schedule[i] == item;
  }

  /**
   * The persistent store as the page uses it: it holds the current state, applies
   * each updater to it in turn, and can be reset. Device storage is not modelled.
   */
  class DashboardStore {
    var state: DashboardState

    constructor()
      ensures state == InitialState
    {
      state := InitialState;
    }

    /** `setDashboard(update)`. */
    method Mutate(update: DashboardState -> DashboardState)
      modifies this
      ensures state == update(old(state))
    {
      state := update(state);
    }

    /** The import button: an empty feed changes nothing, otherwise the merge runs. */
    method Import(events: seq<CalendarEvent>, ids: seq<Id>)
      requires |ids| == |events|
      modifies this
      ensures state == ImportEvents(old(state), events, ids)
    {
      if events == [] {
        return;
      }
      var merged := DedupeAssignments(state.assignments, MapEvents(events, ids));
      state := state.(assignments := merged);
    }

    /** `resetDashboard`. */
    method Reset()
      modifies this
      ensures state == InitialState
    {
      state := InitialState;
    }
  }
}
