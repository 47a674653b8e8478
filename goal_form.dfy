/**
 * The initial field values of the goal form (components/forms/GoalForm.tsx).
 * The deadline field is a `date` input: its value is a local calendar day
 * (days since 1970-01-01), or `None` for an empty field.
 */
module GoalForm {
  import opened Wrappers
  import opened Text
  import opened Clock
  import opened Records

  datatype GoalFormValues = GoalFormValues(
    title: string,
    description: Option<string>,
    deadline: Option<int>,
    status: GoalStatus,
    progress: int,
    tags: string)

  /** The tag field of an edit: the tags joined with `", "`. */
  function JoinTags(tags: seq<string>): string {
    Join(tags, ", ")
  }

  function PrefillWith(g: Goal, deadline: Option<int>): GoalFormValues {
    GoalFormValues(g.title, Some(g.description.GetOr("")), deadline, g.status, g.progress, JoinTags(g.tags))
  }

  /** The edit prefill, with the deadline field at the local calendar day of the stored deadline. */
  function Prefill(g: Goal, offset: int): (v: GoalFormValues)
    ensures v.title == g.title && v.status == g.status && v.progress == g.progress
    ensures v.description == Some(g.description.GetOr("")) && v.tags == JoinTags(g.tags)
    ensures v.deadline.Some? <==> g.deadline.Some?
    ensures g.deadline.Some? ==>
              LocalMidnight(v.deadline.value, offset) <= g.deadline.value
              < LocalMidnight(v.deadline.value, offset) + MsPerDay
  {
    match g.deadline
    case None => PrefillWith(g, None)
    case Some(t) => PrefillWith(g, Some(LocalDay(t, offset)))
  }

  /** The prefill as written: the UTC calendar day of the stored ISO text (`deadline.slice(0, 10)`). */
  function PrefillAsWritten(g: Goal): (v: GoalFormValues)
    ensures v.deadline.Some? <==> g.deadline.Some?
    ensures g.deadline.Some? ==>
              v.deadline.value * MsPerDay <= g.deadline.value < v.deadline.value * MsPerDay + MsPerDay
  {
    match g.deadline
    case None => PrefillWith(g, None)
    case Some(t) => PrefillWith(g, Some(IsoDay(t)))
  }

  /**
   * The form's `defaultValues` as written: the `slice(0, 10)` prefill for an edit;
   * for a new goal an empty form with status not-started and progress 0.
   */
  function InitialValues(initial: Option<Goal>): (v: GoalFormValues)
    ensures initial.Some? ==> v == PrefillAsWritten(initial.value)
    ensures initial.None? ==>
              && v.title == "" && v.description == Some("") && v.deadline.None?
              && v.status == NotStarted && v.progress == 0 && v.tags == ""
  {
    match initial
    case Some(g) => PrefillAsWritten(g)
    case None => GoalFormValues("", Some(""), None, NotStarted, 0, "")
  }

  /** The `defaultValues` with the corrected prefill: only an edit's deadline field differs. */
  function CorrectedInitialValues(initial: Option<Goal>, offset: int): (v: GoalFormValues)
    ensures initial.Some? ==> v == Prefill(initial.value, offset)
    ensures initial.None? ==> v == InitialValues(initial)
    ensures v == InitialValues(initial).(deadline := v.deadline)
  {
    match initial
    case Some(g) => Prefill(g, offset)
    case None => InitialValues(None)
  }

  /** The values the progress slider can produce: 0 to 100 in steps of 5. */
  predicate SliderProgress(p: int) {
    0 <= p <= 100 && p % 5 == 0
  }
}
