/**
 * The initial field values of the reminder form and the choices of its
 * assignment selector (components/forms/ReminderForm.tsx).
 */
module ReminderForm {
  import opened Wrappers
  import opened Clock
  import opened Records

  datatype ReminderFormValues = ReminderFormValues(
    title: string,
    dueDate: Option<int>,
    relatedId: Option<string>,
    notes: Option<string>)

  function PrefillWith(r: Reminder, due: Option<int>): ReminderFormValues {
    ReminderFormValues(r.title, due, Some(r.relatedId.GetOr("")), Some(r.notes.GetOr("")))
  }

  /** The edit prefill, with the due field at the local wall-clock minute of the stored due date. */
  function Prefill(r: Reminder, offset: int): (v: ReminderFormValues)
    ensures v.title == r.title
    ensures v.relatedId == Some(r.relatedId.GetOr("")) && v.notes == Some(r.notes.GetOr(""))
    ensures v.dueDate.Some? <==> r.dueDate.Some?
    ensures r.dueDate.Some? ==>
              MinuteAligned(v.dueDate.value)
              && FromLocal(v.dueDate.value, offset) <= r.dueDate.value < FromLocal(v.dueDate.value, offset) + MsPerMinute
  {
    match r.dueDate
    case None => PrefillWith(r, None)
    case Some(t) => PrefillWith(r, Some(LocalMinuteField(t, offset)))
  }

  /** The prefill as written: the UTC wall-clock minute (`dueDate.slice(0, 16)`). */
  function PrefillAsWritten(r: Reminder): (v: ReminderFormValues)
    ensures v.dueDate.Some? <==> r.dueDate.Some?
    ensures r.dueDate.Some? ==>
              MinuteAligned(v.dueDate.value)
              && v.dueDate.value <= r.dueDate.value < v.dueDate.value + MsPerMinute
  {
    match r.dueDate
    case None => PrefillWith(r, None)
    case Some(t) => PrefillWith(r, Some(IsoMinuteField(t)))
  }

  /**
   * The form's `defaultValues` as written: the `slice(0, 16)` prefill for an edit,
   * every field empty for a new reminder.
   */
  function InitialValues(initial: Option<Reminder>): (v: ReminderFormValues)
    ensures initial.Some? ==> v == PrefillAsWritten(initial.value)
    ensures initial.None? ==>
              v.title == "" && v.dueDate.None? && v.relatedId == Some("") && v.notes == Some("")
  {
    match initial
    case Some(r) => PrefillAsWritten(r)
    case None => ReminderFormValues("", None, Some(""), Some(""))
  }

  /** The `defaultValues` with the corrected prefill: only an edit's due field differs. */
  function CorrectedInitialValues(initial: Option<Reminder>, offset: int): (v: ReminderFormValues)
    ensures initial.Some? ==> v == Prefill(initial.value, offset)
    ensures initial.None? ==> v == InitialValues(initial)
    ensures v == InitialValues(initial).(dueDate := v.dueDate)
  {
    match initial
    case Some(r) => Prefill(r, offset)
    case None => InitialValues(None)
  }

  /** The `value`s of the assignment selector: "None" (`""`), then one per assignment in list order. */
  function RelatedChoices(assignments: seq<Assignment>): (choices: seq<string>)
    ensures |choices| == |assignments| + 1 && choices[0] == ""
    ensures forall i :: 0 <= i < |assignments| ==> choices[i + 1] == assignments[i].id
  {
    if assignments == [] then [""]
    else
      var rest := RelatedChoices(assignments[..|assignments| - 1]);
      rest + [assignments[|assignments| - 1].id]
  }

  /** A selectable value is `""` or the id of a current assignment, and every such id is selectable. */
  lemma RelatedChoiceIsKnown(assignments: seq<Assignment>, value: string)
    ensures value in RelatedChoices(assignments)
            <==> value == "" || exists a :: a in assignments && a.id == value
  {
    var choices := RelatedChoices(assignments);
    if value in choices && value != "" {
      var i :| 0 <= i < |choices| && choices[i] == value;
      assert assignments[i - 1] in assignments;
    }
    if exists a :: a in assignments && a.id == value {
      var a :| a in assignments && a.id == value;
      var i :| 0 <= i < |assignments| && assignments[i] == a;
      assert choices[i + 1] == value;
    }
  }
}
