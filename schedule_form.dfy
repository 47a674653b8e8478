/**
 * The schedule form (components/forms/ScheduleForm.tsx): its initial values,
 * `hydrateInitial`, and the effect that keeps the end time from preceding the
 * start time. The `date` field holds a local calendar day and the two time
 * fields a local time of day in minutes; `None` is an empty field. Comparing
 * two minute counts orders them as comparing the zero-padded "HH:mm" texts does.
 */
module ScheduleForm {
  import opened Wrappers
  import opened Clock
  import opened Records

  datatype ScheduleFormValues = ScheduleFormValues(
    title: string,
    date: Option<int>,
    startTime: Option<int>,
    endTime: Option<int>,
    location: Option<string>,
    notes: Option<string>)

  /**
   * `hydrateInitial`: the local day and time of the start, the local time of the
   * end or an empty end field when the end is missing, and `""` for absent texts.
   */
  function Hydrate(item: ScheduleItem, offset: int): (v: ScheduleFormValues)
    ensures v.title == item.title
    ensures v.date == Some(LocalDay(item.start, offset))
    ensures v.startTime == Some(LocalMinuteOfDay(item.start, offset))
    ensures v.endTime.Some? <==> item.end.Some?
    ensures item.end.Some? ==> v.endTime == Some(LocalMinuteOfDay(item.end.value, offset))
    ensures v.location == Some(item.location.GetOr("")) && v.notes == Some(item.notes.GetOr(""))
  {
    ScheduleFormValues(
      item.title,
      Some(LocalDay(item.start, offset)),
      Some(LocalMinuteOfDay(item.start, offset)),
      match item.end
      case Some(e) => Some(LocalMinuteOfDay(e, offset))
      case None => None,
      Some(item.location.GetOr("")),
      Some(item.notes.GetOr("")))
  }

  /**
   * The form's `defaultValues`: `hydrateInitial` for an edit; for a new block
   * today's date (taken when the module loads) and every other field empty.
   */
  function InitialValues(initial: Option<ScheduleItem>, today: int, offset: int): (v: ScheduleFormValues)
    ensures initial.Some? ==> v == Hydrate(initial.value, offset)
    ensures initial.None? ==>
              && v.title == "" && v.date == Some(today) && v.startTime.None? && v.endTime.None?
              && v.location == Some("") && v.notes == Some("")
  {
    match initial
    case Some(item) => Hydrate(item, offset)
    case None => ScheduleFormValues("", Some(today), None, None, Some(""), Some(""))
  }

  /** The end time does not precede the start time, or one of them is empty. */
  predicate EndNotBeforeStart(v: ScheduleFormValues) {
    v.startTime.None? || v.endTime.None? || v.startTime.value <= v.endTime.value
  }

  /** The effect's body: an end time earlier than a set start time is moved up to it. */
  function ClampEnd(v: ScheduleFormValues): (r: ScheduleFormValues)
    ensures EndNotBeforeStart(r)
    ensures EndNotBeforeStart(v) ==> r == v
    ensures r == v || r == v.(endTime := v.startTime)
    ensures r.endTime.None? <==> v.endTime.None?
  {
    if v.startTime.Some? && v.endTime.Some? && v.endTime.value < v.startTime.value
    then v.(endTime := v.startTime)
    else v
  }

  lemma ClampIdempotent(v: ScheduleFormValues)
    ensures ClampEnd(ClampEnd(v)) == ClampEnd(v)
  {
  }

  /**
   * The live form state. The effect depends on `startTime` only, so it runs when
   * the form mounts and whenever the start time changes, and not on other edits.
   */
  class ScheduleFormState {
    var values: ScheduleFormValues

    constructor(initial: Option<ScheduleItem>, today: int, offset: int)
      ensures values == ClampEnd(InitialValues(initial, today, offset))
    {
      values := ClampEnd(InitialValues(initial, today, offset));
    }

    /**
     * An edit of the start time. The effect runs only when the value differs from
     * the current one; entering the same start again changes nothing.
     */
    method SetStartTime(startTime: Option<int>)
      modifies this
      ensures startTime != old(values).startTime ==> values == ClampEnd(old(values).(startTime := startTime))
      ensures startTime != old(values).startTime ==> EndNotBeforeStart(values)
      ensures startTime == old(values).startTime ==> values == old(values)
    {
      if startTime != values.startTime {
        values := ClampEnd(values.(startTime := startTime));
      }
    }

    /** A change to the end time: the effect does not run. */
    method SetEndTime(endTime: Option<int>)
      modifies this
      ensures values == old(values).(endTime := endTime)
    {
      values := values.(endTime := endTime);
    }

    /** A change to any field other than the two times. */
    method SetDetails(title: string, date: Option<int>, location: Option<string>, notes: Option<string>)
      modifies this
      ensures values == old(values).(title := title, date := date, location := location, notes := notes)
      ensures EndNotBeforeStart(old(values)) ==> EndNotBeforeStart(values)
    {
      values := values.(title := title, date := date, location := location, notes := notes);
    }
  }

  /**
   * Editing only the end time is not clamped: starting from 10:00 to 11:00 and
   * setting the end to 09:00 leaves the end before the start, and entering the
   * same start time 10:00 again does not run the effect either.
   */
  method EndEditIsNotClamped() returns (v: ScheduleFormValues)
    ensures !EndNotBeforeStart(v)
  {
    var form := new ScheduleFormState(None, 0, 0);
    form.SetStartTime(Some(600));
    form.SetEndTime(Some(660));
    form.SetEndTime(Some(540));
    form.SetStartTime(Some(600));
    v := form.values;
  }
}
