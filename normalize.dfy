/**
 * The normalisers of app/page.tsx: they turn a form's submitted values into a
 * stored record, blanking empty text, splitting tags, reading the local date
 * and time fields as instants and defaulting a schedule block's end.
 */
module Normalize {
  import opened Wrappers
  import opened Text
  import opened Clock
  import opened Records
  import opened Seqs
  import AF = AssignmentForm
  import GF = GoalForm
  import RF = ReminderForm
  import SF = ScheduleForm

  /** Absent, or a trimmed non-empty text: the form `trimToUndefined` produces. */
  predicate CleanText(x: Option<string>) {
    x.None? || (x.value != [] && IsTrimmed(x.value))
  }

  /**
   * `trimToUndefined`: absent for a missing, empty or whitespace-only value;
   * otherwise the trimmed text, which is not empty.
   */
  function TrimToUndefined(value: Option<string>): (r: Option<string>)
    ensures r.None? <==> value.None? || AllWhitespace(value.value)
    ensures r.Some? ==> r.value == Trim(value.value)
    ensures CleanText(r)
  {
    match value
    case None => None
    case Some(v) =>
      if v == "" then None
      else
        var t := Trim(v);
        if t == "" then None else Some(t)
  }

  lemma TrimToUndefinedIdempotent(value: Option<string>)
    ensures TrimToUndefined(TrimToUndefined(value)) == TrimToUndefined(value)
  {
  }

  /** A clean value shown as `value ?? ""` comes back unchanged. */
  lemma TrimToUndefinedOfShown(x: Option<string>)
    requires CleanText(x)
    ensures TrimToUndefined(Some(x.GetOr(""))) == x
  {
    if x.Some? {
      assert !IsWhitespace(x.value[0]);
    }
  }

  /** Every piece trimmed, in order. */
  function TrimAll(parts: seq<string>): (r: seq<string>)
    ensures |r| == |parts|
    ensures forall i :: 0 <= i < |parts| ==> r[i] == Trim(parts[i])
  {
    MapSeq(parts, Trim)
  }

  lemma TrimAllAppend(a: seq<string>, b: seq<string>)
    ensures TrimAll(a + b) == TrimAll(a) + TrimAll(b)
  {
    MapSeqAppend(a, b, Trim);
  }

  predicate NonEmpty(s: string) {
    s != []
  }

  /**
   * The tag field parsed: split at commas, each piece trimmed, empty pieces
   * dropped; an empty field gives no tags.
   */
  function SplitTags(tags: string): seq<string> {
    if tags == "" then [] else Filter(TrimAll(Split(tags, ',')), NonEmpty)
  }

  /** Every parsed tag is trimmed and non-empty, and the tags keep the order of the pieces. */
  lemma SplitTagsClean(tags: string)
    ensures var r := SplitTags(tags);
            && (forall i :: 0 <= i < |r| ==> r[i] != [] && IsTrimmed(r[i]))
            && IsSubsequence(r, TrimAll(Split(tags, ',')))
  {
    var pieces := TrimAll(Split(tags, ','));
    var r := SplitTags(tags);
    if tags == "" {
      SubsequenceOfEmpty(pieces);
    } else {
      SubsequenceMembers(r, pieces);
      forall i | 0 <= i < |r| ensures IsTrimmed(r[i]) {
        assert r[i] in pieces;
        var j :| 0 <= j < |pieces| && pieces[j] == r[i];
        assert r[i] == Trim(Split(tags, ',')[j]);
      }
    }
  }

  lemma SubsequenceOfEmpty<T>(s: seq<T>)
    ensures IsSubsequence([], s)
  {
  }

  /** The empty-field test changes nothing: an empty field splits into one empty piece. */
  lemma SplitTagsIsFilter(tags: string)
    ensures SplitTags(tags) == Filter(TrimAll(Split(tags, ',')), NonEmpty)
  {
    if tags == "" {
      assert Split(tags, ',') == [""];
      assert TrimAll([""]) == [""];
    }
  }

  /** Pieces on either side of a comma parse independently: order and duplicates are kept. */
  lemma SplitTagsConcat(a: string, b: string)
    ensures SplitTags(a + "," + b) == SplitTags(a) + SplitTags(b)
  {
    SplitTagsIsFilter(a + "," + b);
    SplitTagsIsFilter(a);
    SplitTagsIsFilter(b);
    SplitConcat(a, b, ',');
    TrimAllAppend(Split(a, ','), Split(b, ','));
    FilterAppend(TrimAll(Split(a, ',')), TrimAll(Split(b, ',')), NonEmpty);
  }

  lemma SplitTagsLeadingSpace(s: string)
    ensures SplitTags(" " + s) == SplitTags(s)
  {
    SplitTagsIsFilter(" " + s);
    SplitTagsIsFilter(s);
    SplitCons(' ', s, ',');
    var parts := Split(s, ',');
    TrimLeadingSpace(parts[0]);
    assert TrimAll(Split(" " + s, ',')) == TrimAll(parts);
  }

  /** A tag the parser keeps unchanged. */
  predicate CleanTag(t: string) {
    t != [] && IsTrimmed(t) && ',' !in t
  }

  /** Splitting the prefill's `", "` join gives back tags that are trimmed, non-empty and comma-free. */
  lemma SingleTagRoundTrip(t: string)
    requires CleanTag(t)
    ensures SplitTags(t) == [t]
  {
    assert Split(t, ',') == [t];
    assert TrimAll([t]) == [t];
    assert Filter([t], NonEmpty) == [t] + Filter([], NonEmpty);
  }

  lemma JoinTagsCons(tags: seq<string>)
    requires |tags| > 1
    ensures GF.JoinTags(tags) == tags[0] + "," + (" " + GF.JoinTags(tags[1..]))
  {
  }

  lemma EmptyTagsRoundTrip(tags: seq<string>)
    requires tags == []
    ensures SplitTags(GF.JoinTags(tags)) == tags
  {
  }

  lemma OneTagRoundTrip(tags: seq<string>)
    requires |tags| == 1 && CleanTag(tags[0])
    ensures SplitTags(GF.JoinTags(tags)) == tags
  {
    SingleTagRoundTrip(tags[0]);
  }

  lemma TagsRoundTripStep(tags: seq<string>)
    requires |tags| > 1 && CleanTag(tags[0])
    requires SplitTags(GF.JoinTags(tags[1..])) == tags[1..]
    ensures SplitTags(GF.JoinTags(tags)) == tags
  {
    var first, rest := tags[0], GF.JoinTags(tags[1..]);
    JoinTagsCons(tags);
    calc {
      SplitTags(GF.JoinTags(tags));
      SplitTags(first + "," + (" " + rest));
      { SplitTagsConcat(first, " " + rest); }
      SplitTags(first) + SplitTags(" " + rest);
      { SplitTagsLeadingSpace(rest); SingleTagRoundTrip(first); }
      [first] + tags[1..];
    }
  }

  lemma {:induction false} TagsRoundTrip(tags: seq<string>)
    requires forall i :: 0 <= i < |tags| ==> CleanTag(tags[i])
    ensures SplitTags(GF.JoinTags(tags)) == tags
  {
    if tags == [] {
      EmptyTagsRoundTrip(tags);
    } else if |tags| == 1 {
      OneTagRoundTrip(tags);
    } else {
      var rest := tags[1..];
      assert forall i :: 0 <= i < |rest| ==> rest[i] == tags[i + 1];
      TagsRoundTrip(rest);
      TagsRoundTripStep(tags);
    }
  }

  /** Duplicate tags are kept: `"x, x"` parses to two tags. */
  lemma DuplicateTagsKept()
    ensures SplitTags("x, x") == ["x", "x"]
  {
    var tags := ["x", "x"];
    assert tags[1..] == ["x"];
    assert GF.JoinTags(tags) == "x, x";
    SingleTagRoundTrip("x");
    TagsRoundTripStep(tags);
  }

  /** `normalizeSchedule`; the form requires the date and the start time. */
  function NormalizeSchedule(values: SF.ScheduleFormValues, id: Id, offset: int): (item: ScheduleItem)
    requires values.date.Some? && values.startTime.Some?
    ensures item.id == id && item.title == values.title
    ensures item.start == CombineDateTime(values.date.value, values.startTime.value, offset)
    ensures item.end.Some?
    ensures values.endTime.None? ==> item.end == Some(item.start)
    ensures values.endTime.Some? ==>
              item.end == Some(CombineDateTime(values.date.value, values.endTime.value, offset))
    ensures item.location == TrimToUndefined(values.location) && item.notes == TrimToUndefined(values.notes)
  {
    var start := CombineDateTime(values.date.value, values.startTime.value, offset);
    var end := if values.endTime.Some? then CombineDateTime(values.date.value, values.endTime.value, offset) else start;
    ScheduleItem(id, values.title, start, Some(end), TrimToUndefined(values.location), TrimToUndefined(values.notes))
  }

  /** Once the clamp has run, a saved block never ends before it starts. */
  lemma ClampedScheduleIsOrdered(values: SF.ScheduleFormValues, id: Id, offset: int)
    requires values.date.Some? && values.startTime.Some?
    ensures var item := NormalizeSchedule(SF.ClampEnd(values), id, offset);
            item.start <= item.end.value
  {
  }

  /** `normalizeGoal`: status and progress are copied unchecked. */
  function NormalizeGoal(values: GF.GoalFormValues, id: Id, offset: int): (g: Goal)
    ensures g.id == id && g.title == values.title
    ensures g.status == values.status && g.progress == values.progress
    ensures g.description == TrimToUndefined(values.description)
    ensures g.deadline.Some? <==> values.deadline.Some?
    ensures values.deadline.Some? ==> g.deadline == Some(LocalMidnight(values.deadline.value, offset))
    ensures g.tags == SplitTags(values.tags)
  {
    Goal(id, values.title, TrimToUndefined(values.description),
         match values.deadline
         case Some(d) => Some(LocalMidnight(d, offset))
         case None => None,
         values.status, values.progress, SplitTags(values.tags))
  }

  /** Progress is not clamped: a value outside the slider's range is stored as submitted. */
  lemma ProgressNotClamped(values: GF.GoalFormValues, id: Id, offset: int)
    requires !GF.SliderProgress(values.progress)
    ensures !GF.SliderProgress(NormalizeGoal(values, id, offset).progress)
  {
  }

  /** `normalizeAssignment`: the title is not trimmed, the source is the one given. */
  function NormalizeAssignment(values: AF.AssignmentFormValues, id: Id, source: Source, offset: int): (a: Assignment)
    ensures a.id == id && a.title == values.title && a.source == Some(source)
    ensures a.status == values.status && a.priority == values.priority
    ensures a.course == TrimToUndefined(values.course) && a.description == TrimToUndefined(values.description)
    ensures a.link == TrimToUndefined(values.link)
    ensures a.dueDate.Some? <==> values.dueDate.Some?
    ensures values.dueDate.Some? ==> a.dueDate == Some(FromLocal(values.dueDate.value, offset))
  {
    Assignment(id, values.title, TrimToUndefined(values.course),
               match values.dueDate
               case Some(w) => Some(FromLocal(w, offset))
               case None => None,
               TrimToUndefined(values.description), values.status, values.priority,
               TrimToUndefined(values.link), Some(source))
  }

  /** `normalizeReminder`: an empty assignment choice becomes no link; `completed` is the one given. */
  function NormalizeReminder(values: RF.ReminderFormValues, id: Id, completed: bool, offset: int): (r: Reminder)
    ensures r.id == id && r.title == values.title && r.completed == completed
    ensures r.relatedId == TrimToUndefined(values.relatedId)
    ensures r.notes == TrimToUndefined(values.notes)
    ensures r.dueDate.Some? <==> values.dueDate.Some?
    ensures values.dueDate.Some? ==> r.dueDate == Some(FromLocal(values.dueDate.value, offset))
  {
    Reminder(id, values.title,
             match values.dueDate
             case Some(w) => Some(FromLocal(w, offset))
             case None => None,
             TrimToUndefined(values.relatedId), TrimToUndefined(values.notes), completed)
  }

  /** A due date the local minute field can show exactly. */
  predicate ShownExactly(due: Option<Timestamp>, offset: int) {
    due.Some? ==> MinuteAligned(due.value + offset)
  }

  /**
   * Saving an unchanged assignment edit gives back the assignment: optional
   * texts that were clean, the due date that was whole-minute, and the source,
   * with "manual" filled in for a record that had none.
   */
  lemma AssignmentEditRoundTrip(a: Assignment, offset: int)
    requires CleanText(a.course) && CleanText(a.description) && CleanText(a.link)
    requires ShownExactly(a.dueDate, offset)
    ensures NormalizeAssignment(AF.Prefill(a, offset), a.id, a.source.GetOr(Manual), offset)
            == a.(source := Some(a.source.GetOr(Manual)))
  {
    TrimToUndefinedOfShown(a.course);
    TrimToUndefinedOfShown(a.description);
    TrimToUndefinedOfShown(a.link);
    if a.dueDate.Some? {
      LocalMinuteFieldExact(a.dueDate.value, offset);
    }
  }

  /**
   * As written, saving an unchanged edit moves a whole-minute due date by the
   * negated time-zone offset: the field shows UTC wall-clock time and is read back
   * as local time.
   */
  lemma AssignmentEditAsWrittenShifts(a: Assignment, offset: int)
    requires a.dueDate.Some? && MinuteAligned(a.dueDate.value)
    ensures NormalizeAssignment(AF.PrefillAsWritten(a), a.id, a.source.GetOr(Manual), offset).dueDate
            == Some(a.dueDate.value - offset)
  {
  }

  /** 2024-03-01T23:59Z edited at UTC+1 is saved as 22:59Z. */
  lemma AssignmentEditAsWrittenExample()
    ensures var a := Assignment("a", "Essay", None, Some(1709337540000), None, Planned, Medium, None, Some(Manual));
            NormalizeAssignment(AF.PrefillAsWritten(a), a.id, Manual, 3600000).dueDate == Some(1709333940000)
            && NormalizeAssignment(AF.Prefill(a, 3600000), a.id, Manual, 3600000) == a
  {
    var a := Assignment("a", "Essay", None, Some(1709337540000), None, Planned, Medium, None, Some(Manual));
    AssignmentEditAsWrittenShifts(a, 3600000);
    AssignmentEditRoundTrip(a, 3600000);
  }

  /** A new assignment's form saves with every optional text and the due date absent. */
  lemma NewAssignmentDefaults(id: Id, offset: int)
    ensures var a := NormalizeAssignment(AF.InitialValues(None), id, Manual, offset);
            a.course.None? && a.description.None? && a.link.None? && a.dueDate.None?
            && a.status == Planned && a.priority == Medium && a.source == Some(Manual)
  {
  }

  /** Saving an unchanged reminder edit gives back the reminder, its link and `completed` included. */
  lemma ReminderEditRoundTrip(r: Reminder, offset: int)
    requires CleanText(r.relatedId) && CleanText(r.notes)
    requires ShownExactly(r.dueDate, offset)
    ensures NormalizeReminder(RF.Prefill(r, offset), r.id, r.completed, offset) == r
  {
    TrimToUndefinedOfShown(r.relatedId);
    TrimToUndefinedOfShown(r.notes);
    if r.dueDate.Some? {
      LocalMinuteFieldExact(r.dueDate.value, offset);
    }
  }

  /** As written, an unchanged reminder edit moves a whole-minute due date by the negated offset. */
  lemma ReminderEditAsWrittenShifts(r: Reminder, offset: int)
    requires r.dueDate.Some? && MinuteAligned(r.dueDate.value)
    ensures NormalizeReminder(RF.PrefillAsWritten(r), r.id, r.completed, offset).dueDate
            == Some(r.dueDate.value - offset)
  {
  }

  /** A new reminder's form saves with no due date, no link, no notes and `completed` false. */
  lemma NewReminderDefaults(id: Id, offset: int)
    ensures var r := NormalizeReminder(RF.InitialValues(None), id, false, offset);
            r.dueDate.None? && r.relatedId.None? && r.notes.None? && !r.completed
  {
  }

  /**
   * A choice of the assignment selector is saved as no link for "None" and as the
   * id itself otherwise (ids are non-empty and contain no whitespace at either end).
   */
  lemma RelatedChoiceSaved(assignments: seq<Assignment>, values: RF.ReminderFormValues, id: Id, completed: bool, offset: int)
    requires forall i :: 0 <= i < |assignments| ==> CleanText(Some(assignments[i].id))
    requires values.relatedId.Some? && values.relatedId.value in RF.RelatedChoices(assignments)
    ensures var link := NormalizeReminder(values, id, completed, offset).relatedId;
            (link.None? <==> values.relatedId.value == "")
            && (link.Some? ==> link == values.relatedId && exists a :: a in assignments && a.id == link.value)
  {
    var v := values.relatedId.value;
    RF.RelatedChoiceIsKnown(assignments, v);
    if v != "" {
      var a :| a in assignments && a.id == v;
      var i :| 0 <= i < |assignments| && assignments[i] == a;
      TrimToUndefinedOfShown(Some(assignments[i].id));
    }
  }

  /** A deadline the date field can show exactly: a local midnight. */
  predicate LocalMidnightOrAbsent(deadline: Option<Timestamp>, offset: int) {
    deadline.Some? ==> (deadline.value + offset) % MsPerDay == 0
  }

  lemma LocalMidnightOfDay(t: Timestamp, offset: int)
    requires (t + offset) % MsPerDay == 0
    ensures LocalMidnight(LocalDay(t, offset), offset) == t
  {
  }

  /**
   * Saving an unchanged goal edit gives back the goal when the description is
   * clean, the deadline is a local midnight and the tags are clean.
   */
  lemma GoalEditRoundTrip(g: Goal, offset: int)
    requires CleanText(g.description) && LocalMidnightOrAbsent(g.deadline, offset)
    requires forall i :: 0 <= i < |g.tags| ==> CleanTag(g.tags[i])
    ensures NormalizeGoal(GF.Prefill(g, offset), g.id, offset) == g
  {
    TrimToUndefinedOfShown(g.description);
    TagsRoundTrip(g.tags);
    if g.deadline.Some? {
      LocalMidnightOfDay(g.deadline.value, offset);
    }
  }

  /**
   * As written, east of UTC (offset between 0 and one day, exclusive) each unchanged
   * save moves a local-midnight deadline one day earlier: the UTC date of local
   * midnight is the day before.
   */
  lemma GoalEditAsWrittenShifts(g: Goal, offset: int)
    requires 0 < offset < MsPerDay
    requires g.deadline.Some? && (g.deadline.value + offset) % MsPerDay == 0
    ensures NormalizeGoal(GF.PrefillAsWritten(g), g.id, offset).deadline == Some(g.deadline.value - MsPerDay)
  {
    var d := LocalDay(g.deadline.value, offset);
    LocalMidnightOfDay(g.deadline.value, offset);
    UtcDayOfLocalMidnight(d, offset);
  }

  /** As written, at UTC or west of it the deadline survives an unchanged save. */
  lemma GoalEditAsWrittenWestOfUtc(g: Goal, offset: int)
    requires -MsPerDay < offset <= 0
    requires g.deadline.Some? && (g.deadline.value + offset) % MsPerDay == 0
    ensures NormalizeGoal(GF.PrefillAsWritten(g), g.id, offset).deadline == g.deadline
  {
    var d := LocalDay(g.deadline.value, offset);
    LocalMidnightOfDay(g.deadline.value, offset);
    UtcDayOfLocalMidnight(d, offset);
  }

  /** The UTC date of local midnight: the day before east of UTC, the same day otherwise. */
  lemma UtcDayOfLocalMidnight(d: int, offset: int)
    requires -MsPerDay < offset < MsPerDay
    ensures IsoDay(LocalMidnight(d, offset)) == if offset > 0 then d - 1 else d
  {
    if offset > 0 {
      DayOfParts(d - 1, MsPerDay - offset);
      assert LocalMidnight(d, offset) == (d - 1) * MsPerDay + (MsPerDay - offset);
    } else {
      DayOfParts(d, -offset);
      assert LocalMidnight(d, offset) == d * MsPerDay + -offset;
    }
  }

  lemma DayOfParts(q: int, r: int)
    requires 0 <= r < MsPerDay
    ensures (q * MsPerDay + r) / MsPerDay == q
  {
  }

  /** 2024-03-01 local midnight at UTC+1 (2024-02-29T23:00Z) is saved as 2024-02-28T23:00Z. */
  lemma GoalEditAsWrittenExample()
    ensures var g := Goal("g", "Read", None, Some(1709247600000), InProgress, 40, []);
            NormalizeGoal(GF.PrefillAsWritten(g), g.id, 3600000).deadline == Some(1709161200000)
            && NormalizeGoal(GF.Prefill(g, 3600000), g.id, 3600000) == g
  {
    var g := Goal("g", "Read", None, Some(1709247600000), InProgress, 40, []);
    GoalEditAsWrittenShifts(g, 3600000);
    GoalEditRoundTrip(g, 3600000);
  }

  /** A new goal's form saves with no description, no deadline, no tags, not started and at 0. */
  lemma NewGoalDefaults(id: Id, offset: int)
    ensures var g := NormalizeGoal(GF.InitialValues(None), id, offset);
            g.description.None? && g.deadline.None? && g.tags == [] && g.status == NotStarted && g.progress == 0
  {
  }

  lemma MinuteOfDayMonotone(s: Timestamp, e: Timestamp, offset: int)
    requires LocalDay(s, offset) == LocalDay(e, offset) && s <= e
    ensures LocalMinuteOfDay(s, offset) <= LocalMinuteOfDay(e, offset)
  {
    var ws, we := s + offset, e + offset;
    assert ws == LocalDay(s, offset) * MsPerDay + ws % MsPerDay;
    assert we == LocalDay(e, offset) * MsPerDay + we % MsPerDay;
  }

  /**
   * Saving an unchanged schedule edit gives back the block when start and end
   * are whole local minutes on the same local day, in order, and the texts are
   * clean; the mount-time clamp leaves such a form alone.
   */
  lemma ScheduleEditRoundTrip(item: ScheduleItem, offset: int)
    requires item.end.Some? && item.start <= item.end.value
    requires MinuteAligned(item.start + offset) && MinuteAligned(item.end.value + offset)
    requires LocalDay(item.start, offset) == LocalDay(item.end.value, offset)
    requires CleanText(item.location) && CleanText(item.notes)
    ensures var v := SF.ClampEnd(SF.Hydrate(item, offset));
            v == SF.Hydrate(item, offset) && NormalizeSchedule(v, item.id, offset) == item
  {
    MinuteOfDayMonotone(item.start, item.end.value, offset);
    CombineLocalParts(item.start, offset);
    CombineLocalParts(item.end.value, offset);
    TrimToUndefinedOfShown(item.location);
    TrimToUndefinedOfShown(item.notes);
  }

  /** A block stored without a usable end gets an empty end field and is saved ending at its start. */
  lemma ScheduleMissingEndSavedAsStart(item: ScheduleItem, offset: int)
    requires item.end.None? && MinuteAligned(item.start + offset)
    ensures NormalizeSchedule(SF.ClampEnd(SF.Hydrate(item, offset)), item.id, offset).end == Some(item.start)
  {
    CombineLocalParts(item.start, offset);
  }
}
