/**
 * The initial field values of the assignment form (components/forms/AssignmentForm.tsx).
 * The due field is a `datetime-local` input: its value is a local wall-clock
 * minute, or `None` for an empty field.
 */
module AssignmentForm {
  import opened Wrappers
  import opened Clock
  import opened Records

  datatype AssignmentFormValues = AssignmentFormValues(
    title: string,
    course: Option<string>,
    dueDate: Option<int>,
    description: Option<string>,
    status: AssignmentStatus,
    priority: Priority,
    link: Option<string>)

  /** The edit prefill with a given value for the due field. */
  function PrefillWith(a: Assignment, due: Option<int>): AssignmentFormValues {
    AssignmentFormValues(a.title, Some(a.course.GetOr("")), due, Some(a.description.GetOr("")),
                         a.status, a.priority, Some(a.link.GetOr("")))
  }

  /** The due field shown for an edit: the local wall-clock minute of the stored due date. */
  function Prefill(a: Assignment, offset: int): (v: AssignmentFormValues)
    ensures v.title == a.title && v.status == a.status && v.priority == a.priority
    ensures v.course == Some(a.course.GetOr("")) && v.description == Some(a.description.GetOr(""))
    ensures v.link == Some(a.link.GetOr(""))
    ensures v.dueDate.Some? <==> a.dueDate.Some?
    ensures a.dueDate.Some? ==>
              MinuteAligned(v.dueDate.value)
              && FromLocal(v.dueDate.value, offset) <= a.dueDate.value < FromLocal(v.dueDate.value, offset) + MsPerMinute
  {
    match a.dueDate
    case None => PrefillWith(a, None)
    case Some(t) => PrefillWith(a, Some(LocalMinuteField(t, offset)))
  }

  /**
   * The prefill as written: `dueDate.slice(0, 16)` of the stored ISO text, which
   * is the UTC wall-clock minute, shown in a field that is read as local time.
   */
  function PrefillAsWritten(a: Assignment): (v: AssignmentFormValues)
    ensures v.dueDate.Some? <==> a.dueDate.Some?
    ensures a.dueDate.Some? ==>
              MinuteAligned(v.dueDate.value)
              && v.dueDate.value <= a.dueDate.value < v.dueDate.value + MsPerMinute
  {
    match a.dueDate
    case None => PrefillWith(a, None)
    case Some(t) => PrefillWith(a, Some(IsoMinuteField(t)))
  }

  /**
   * The form's `defaultValues` as written: the `slice(0, 16)` prefill for an edit;
   * for a new assignment an empty form with status planned and priority medium.
   */
  function InitialValues(initial: Option<Assignment>): (v: AssignmentFormValues)
    ensures initial.Some? ==> v == PrefillAsWritten(initial.value)
    ensures initial.None? ==>
              && v.title == "" && v.course == Some("") && v.dueDate.None?
              && v.description == Some("") && v.link == Some("")
              && v.status == Planned && v.priority == Medium
  {
    match initial
    case Some(a) => PrefillAsWritten(a)
    case None => AssignmentFormValues("", Some(""), None, Some(""), Planned, Medium, Some(""))
  }

  /** The `defaultValues` with the corrected prefill: only an edit's due field differs. */
  function CorrectedInitialValues(initial: Option<Assignment>, offset: int): (v: AssignmentFormValues)
    ensures initial.Some? ==> v == Prefill(initial.value, offset)
    ensures initial.None? ==> v == InitialValues(initial)
    ensures v == InitialValues(initial).(dueDate := v.dueDate)
  {
    match initial
    case Some(a) => Prefill(a, offset)
    case None => InitialValues(None)
  }
}
