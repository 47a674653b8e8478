/**
 * The reminder list (components/dashboard/ReminderList.tsx): reminders sorted by
 * due time with undated ones last, each shown with the assignment its `relatedId`
 * names when that assignment still exists.
 */
module ReminderList {
  import opened Wrappers
  import opened Records
  import opened StableSort

  /** The comparator's key: the due instant, or positive infinity without one. */
  function DueOrder(r: Reminder): (k: SortKey)
    ensures k.Infinity? <==> r.dueDate.None?
    ensures r.dueDate.Some? ==> k == At(r.dueDate.value)
  {
    match r.dueDate
    case Some(t) => At(t)
    case None => Infinity
  }

  /** `[...reminders].sort(...)`: dated reminders ascending, then the undated ones, stably. */
  function Sorted(reminders: seq<Reminder>): (r: seq<Reminder>)
    ensures multiset(r) == multiset(reminders) && |r| == |reminders|
    ensures forall i, j :: 0 <= i < j < |r| && r[j].dueDate.Some? ==>
              r[i].dueDate.Some? && r[i].dueDate.value <= r[j].dueDate.value
    ensures SameTieOrder(r, reminders, DueOrder)
  {
    var r := SortByKey(reminders, DueOrder);
    assert forall i, j :: 0 <= i < j < |r| ==> KeyLe(DueOrder(r[i]), DueOrder(r[j]));
    assert |r| == |multiset(r)| == |reminders|;
    r
  }

  /**
   * `new Map(assignments.map(a => [a.id, a]))`: entries are set in list order, so
   * for a repeated id the later assignment overwrites the earlier one.
   */
  function IndexById(assignments: seq<Assignment>): (index: map<Id, Assignment>)
    ensures forall i :: 0 <= i < |assignments| ==> assignments[i].id in index
    ensures forall id :: id in index ==> index[id].id == id && index[id] in assignments
    decreases |assignments|
  {
    if assignments == [] then map[]
    else
      var last := assignments[|assignments| - 1];
      var index := IndexById(assignments[..|assignments| - 1])[last.id := last];
      assert forall i :: 0 <= i < |assignments| - 1 ==> assignments[..|assignments| - 1][i] == assignments[i];
      index
  }

  /** The index holds exactly the ids some assignment carries. */
  lemma IndexKeys(assignments: seq<Assignment>, id: Id)
    ensures id in IndexById(assignments) <==> exists i :: 0 <= i < |assignments| && assignments[i].id == id
  {
    if id in IndexById(assignments) {
      var a := IndexById(assignments)[id];
      var i :| 0 <= i < |assignments| && assignments[i] == a;
    }
  }

  /** The last assignment carrying an id wins. */
  lemma {:induction false} IndexLastWins(assignments: seq<Assignment>, i: nat)
    requires i < |assignments|
    requires forall j :: i < j < |assignments| ==> assignments[j].id != assignments[i].id
    ensures IndexById(assignments)[assignments[i].id] == assignments[i]
    decreases |assignments|
  {
    if i < |assignments| - 1 {
      var front := assignments[..|assignments| - 1];
      assert forall j :: i < j < |front| ==> front[j] == assignments[j];
      IndexLastWins(front, i);
    }
  }

  /** `relatedId ? assignmentById.get(relatedId) : undefined`; an empty id is falsy. */
  function Related(reminder: Reminder, assignments: seq<Assignment>): (related: Option<Assignment>)
    ensures related.Some? ==> reminder.relatedId == Some(related.value.id) && related.value in assignments
    ensures related.None? ==> reminder.relatedId.None? || reminder.relatedId.value == ""
                              || reminder.relatedId.value !in IndexById(assignments)
  {
    match reminder.relatedId
    case Some(id) =>
      var index := IndexById(assignments);
      if id != "" && id in index then Some(index[id]) else None
    case None => None
  }

  /** A link is shown exactly when the reminder names a non-empty id that some assignment carries. */
  lemma RelatedIsDefined(reminder: Reminder, assignments: seq<Assignment>)
    ensures Related(reminder, assignments).Some? <==>
              reminder.relatedId.Some? && reminder.relatedId.value != ""
              && exists i :: 0 <= i < |assignments| && assignments[i].id == reminder.relatedId.value
  {
    if reminder.relatedId.Some? {
      IndexKeys(assignments, reminder.relatedId.value);
    }
  }

  /** A `relatedId` whose assignment is gone gives no link rather than a failure. */
  lemma DanglingRelatedId(reminder: Reminder, assignments: seq<Assignment>)
    requires reminder.relatedId.Some?
    requires forall i :: 0 <= i < |assignments| ==> assignments[i].id != reminder.relatedId.value
    ensures Related(reminder, assignments) == None
  {
    RelatedIsDefined(reminder, assignments);
  }

  /** With two assignments under one id, the link goes to the later one. */
  lemma DuplicateIdLinksLater(first: Assignment, second: Assignment, reminder: Reminder)
    requires first.id == second.id != "" && reminder.relatedId == Some(first.id)
    ensures Related(reminder, [first, second]) == Some(second)
  {
    IndexLastWins([first, second], 1);
  }

  datatype ReminderRow = ReminderRow(reminder: Reminder, related: Option<Assignment>)

  datatype ListView = EmptyState | Items(rows: seq<ReminderRow>)

  /** The component: the empty state, or the sorted reminders each paired with its link. */
  function Render(reminders: seq<Reminder>, assignments: seq<Assignment>): (v: ListView)
    ensures v.EmptyState? <==> reminders == []
    ensures v.Items? ==>
              |v.rows| == |reminders|
              && (forall i :: 0 <= i < |v.rows| ==>
                    v.rows[i].reminder == Sorted(reminders)[i]
                    && v.rows[i].related == Related(v.rows[i].reminder, assignments))
  {
    if reminders == [] then EmptyState
    else
      var sorted := Sorted(reminders);
      Items(seq(|sorted|, i requires 0 <= i < |sorted| => ReminderRow(sorted[i], Related(sorted[i], assignments))))
  }
}
