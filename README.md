# Student dashboard: a Dafny model of its state and its rules

This project models the core of a single-page student planner built with Next.js.
The planner keeps four collections on the device:
- schedule blocks,
- goals,
- assignments,
- reminders.

The page changes them through small state updaters, which delete, advance, toggle and save records and import a calendar feed. It shows them in four views: a timeline, an assignment table, a reminder list and summary counters. Four forms prefill an edit and turn what is submitted into a stored record.

The model covers the following, and proves what each promises:
- **Updaters and store.** The updaters are pure functions on a `DashboardState` value. The persistent store that applies them is a class whose `state` field each method updates in place.
- **Calendar import.** `dedupeAssignments` is an imperative method with its loop. It is proved equal to a specification function, `Reconcile.Reconciled`. That function is an instance of a generic keyed merge (`KeyedMerge`), whose properties are proved once:
  - existing items are kept as a prefix;
  - each key is merged at most once;
  - the first occurrence of a new key is the one that wins;
  - a merge is idempotent, and merging two batches one after the other equals merging them together.
- **Sorting.** The views sort with `[...xs].sort((a, b) => keyA - keyB)`. This is modelled as a stable sort by a numeric key with positive infinity, and is proved to be:
  - a permutation;
  - ordered by the key;
  - stable;
  - the only arrangement with these three properties.
- **Schedule form.** The form's effect keeps the end time from preceding the start time. It is a class with one method per kind of edit.
- **Normalisers.** Form prefill followed by normalisation is proved to round-trip when the time zone is interpreted correctly.

Time is an integer count of milliseconds since the Unix epoch. The browser's local time zone is a fixed offset parameter: local wall-clock time = instant + offset. A form's `datetime-local` field holds a wall-clock minute, a `date` field a local day number, and a time field a local minute of the day. An empty field is `None`.

Ids from `nanoid` and the current time (`dayjs()`) are parameters of the operations that use them.

## Model

| member | source | states |
|---|---|---|
| Text.CountLeading | app/page.tsx:473-477 | the length of the longest prefix of elements satisfying the predicate: all before it satisfy it, the next does not |
| Text.CountTrailing | app/page.tsx:473-477 | the mirror image of CountLeading, for the longest suffix |
| Text.Strip | app/page.tsx:473-477 | the result is empty or starts and ends with an element outside the predicate; it is empty exactly when every input element satisfies it; an input already stripped is returned unchanged |
| Text.StripIsInnerPart | app/page.tsx:473-477 | the stripped text is a contiguous run of the input, and everything removed before and after it satisfies the predicate |
| Text.IsWhitespace | app/page.tsx:475 | the WhiteSpace and LineTerminator code points that `trim` removes |
| Text.Trim | app/page.tsx:473-477 | `trim` yields a trimmed string, empty exactly when the input is blank, and leaves a trimmed input alone |
| Text.TrimIsInnerPart | app/page.tsx:473-477 | what `trim` keeps is a run of the input, and what it drops is whitespace at both ends |
| Text.StripCons | app/page.tsx:419-424 | a leading element satisfying the predicate does not change the stripped result |
| Text.TrimLeadingSpace | app/page.tsx:419-424 | a leading space does not change the trimmed result |
| Text.TrimKeepsAbsent | app/page.tsx:473-477 | trimming introduces no character the input lacks |
| Text.ToLower | app/page.tsx:506-513 | `toLowerCase` keeps the length and lower-cases each character on its own |
| Text.LowerKeepsAbsent | app/page.tsx:506-513 | lower-casing does not create a non-letter character (such as `|`) that the input lacks |
| Text.FirstIndex | app/page.tsx:419-424 | the position of the first occurrence of a character in a string that contains it |
| Text.Join | app/page.tsx:512 | `Array.prototype.join(sep)`: the parts with `sep` between neighbours; JoinSplit, SplitJoin and JoinCons state its properties |
| Text.JoinEndsWithLast | app/page.tsx:506-513 | a join ends with its last part |
| Text.Split | app/page.tsx:419-424 | `split(",")` yields at least one piece, and no piece contains the separator |
| Text.JoinSplit | app/page.tsx:419-424 | joining the pieces of a split with the separator gives back the string |
| Text.JoinCons | app/page.tsx:506-513 | a join of several parts is the first part, the separator, then the join of the rest (used for the signature's `join("|")` and the tag field's `join(", ")`) |
| Text.SplitCons | app/page.tsx:419-424 | a first character other than the separator goes to the first piece |
| Text.SplitJoin | app/page.tsx:419-424 | splitting a join gives back the parts when no part contains the separator |
| Text.FirstIndexIs | app/page.tsx:419-424 | FirstIndex is the position before which the character does not occur |
| Text.SplitAtSeparator | app/page.tsx:419-424 | a split cuts at the first separator and splits the remainder |
| Text.SplitConcatNoSep | app/page.tsx:419-424 | a separator-free head followed by the separator becomes one whole piece |
| Text.SplitJoinedAtFirst | app/page.tsx:419-424 | in a concatenation, the first separator of the left side is where the first piece ends |
| Text.SplitConcat | app/page.tsx:419-424 | both sides of a separator split independently |
| Text.SplitAtFirst | app/page.tsx:506-513 | two strings that split at their first separator are equal exactly when their heads and their tails are equal |
| Text.DigitChar | app/page.tsx:506-513 | the digit character of a decimal digit |
| Text.NatToDecimal | app/page.tsx:506-513 | a decimal rendering made only of digits, with at least two digits from 10 upwards |
| Text.NatToDecimalInjective | app/page.tsx:506-513 | different numbers have different decimal renderings |
| Text.IntToDecimal | app/page.tsx:506-513 | a rendering made of digits and the minus sign |
| Text.IntToDecimalInjective | app/page.tsx:506-513 | different integers have different renderings |
| Clock.MinuteKey | app/page.tsx:510 | the minute key of a due date is non-empty and never contains `|` |
| Clock.SameMinute | components/dashboard/ScheduleTimeline.tsx:37 | `isSame(now, "minute")`: both instants fall in the same whole minute |
| Clock.MinuteKeyMatch | app/page.tsx:510 | two instants get equal minute keys exactly when they fall in the same minute |
| Clock.FromLocal | app/page.tsx:445 | `dayjs(value)` of a local wall-clock value: the instant it names, the wall clock minus the offset |
| Clock.LocalMinuteField | components/forms/AssignmentForm.tsx:28 | a local wall-clock value cut to the minute: minute-aligned, at most the local time and less than a minute before it |
| Clock.LocalMinuteFieldExact | app/page.tsx:445 | reading a local minute field back names the instant again when the instant is a whole local minute |
| Clock.LocalDay | app/page.tsx:61-65 | the local calendar day of an instant, as `format("YYYY-MM-DD")` and `isSame(…, "day")` use it |
| Clock.IsoDay | components/forms/GoalForm.tsx:32-34 | `deadline.slice(0, 10)` of a stored ISO string: the UTC calendar day of the instant |
| Clock.LocalMidnight | app/page.tsx:429 | `dayjs("YYYY-MM-DD")`: the instant of local midnight of a day; LocalMidnightOfDay and UtcDayOfLocalMidnight relate it to LocalDay and IsoDay |
| Clock.IsoMinuteField | components/forms/AssignmentForm.tsx:28 | `toISOString().slice(0, 16)` is the UTC wall clock cut to the minute: minute-aligned, at most the instant and less than a minute before it |
| Clock.LocalMinuteOfDay | components/forms/ScheduleForm.tsx:154-165 | `format("HH:mm")` is a minute of the day between 0 and 1439 |
| Clock.CombineDateTime | app/page.tsx:469-471 | `dayjs(date + "T" + time)`: the instant the local day and minute of day name at the offset; CombineLocalParts proves it inverts LocalDay and LocalMinuteOfDay |
| Clock.CombineLocalParts | app/page.tsx:469-471 | combining the local day and local time of a whole-minute instant names it again |
| Clock.WallParts | app/page.tsx:469-471 | a whole-minute wall-clock value is its day plus its minute of the day |
| Seqs.SubsequenceOfSelf | app/page.tsx:61-65 | every sequence is a subsequence of itself |
| Seqs.SubsequenceMembers | app/page.tsx:61-65 | every element of a subsequence is an element of the original |
| Seqs.Filter | app/page.tsx:61-65 | `filter` keeps only elements that pass, keeps every element that passes, keeps their order, and is no longer than its input; FilterCounts adds the multiplicities |
| Seqs.FilterCounts | app/page.tsx:61-65 | an element that passes is kept as often as it occurs, and one that fails is dropped entirely |
| Seqs.FilterAgrees | components/dashboard/OverviewSummary.tsx:29-35 | two predicates that agree on every element filter alike |
| Seqs.FilterAppend | app/page.tsx:419-424 | filtering a concatenation filters each part |
| Seqs.FilterKeepsAll | app/page.tsx:419-424 | a filter that every element passes returns its input |
| Seqs.FilterKeepsNone | app/page.tsx:419-424 | a filter that no element passes returns the empty sequence |
| Seqs.MapSeq | app/page.tsx:422 | `map` keeps the length and applies the function to each element |
| Seqs.MapSeqAppend | app/page.tsx:422 | mapping a concatenation maps each part |
| StableSort.InsertLowerBound | components/dashboard/AssignmentTable.tsx:41-45 | inserting an element keeps a lower bound on all the keys |
| StableSort.InsertSorted | components/dashboard/AssignmentTable.tsx:41-45 | inserting into a sorted sequence keeps it sorted |
| StableSort.InsertInFront | components/dashboard/AssignmentTable.tsx:41-45 | an element whose key is at most the first key may go in front |
| StableSort.InsertBehind | components/dashboard/AssignmentTable.tsx:41-45 | an element inserted into the tail behind a smaller head keeps the sequence sorted |
| StableSort.InsertPermutes | components/dashboard/AssignmentTable.tsx:41-45 | inserting adds exactly the element to the multiset |
| StableSort.WithKeyCons | components/dashboard/AssignmentTable.tsx:41-45 | the elements of a given key in a sequence that starts with `y` |
| StableSort.InsertTies | components/dashboard/AssignmentTable.tsx:41-45 | inserting puts the new element first among the elements that share its key |
| StableSort.SortByKey | components/dashboard/AssignmentTable.tsx:41-45 | the sort is a permutation, non-decreasing by key, and keeps elements of equal key in input order |
| StableSort.InsertKeepsTies | components/dashboard/AssignmentTable.tsx:41-45 | insertion extends a stable arrangement of the tail to a stable arrangement of the whole |
| StableSort.WithKeyMember | components/dashboard/AssignmentTable.tsx:41-45 | a key whose elements are not empty is held by some element |
| StableSort.WithKeyOwnKey | components/dashboard/AssignmentTable.tsx:41-45 | the key of the first element has elements |
| StableSort.SortedUnique | components/dashboard/AssignmentTable.tsx:41-45 | two sorted sequences with the same ties in the same order are equal |
| StableSort.StableSortIsUnique | components/dashboard/AssignmentTable.tsx:41-45 | every stable sort of a sequence by the key equals SortByKey |
| Upsert.ReplaceById | app/page.tsx:482 | the map keeps the length, puts the item at every position whose id matches and leaves the rest alone |
| Upsert.Upsert | app/page.tsx:479-485 | an existing id is replaced in place and the length is kept; a new id is appended at the end |
| Upsert.UpsertContains | app/page.tsx:479-485 | the item is in the result, and the ids of the result are the old ids plus the item's |
| Upsert.UpsertKeepsOthers | app/page.tsx:479-485 | entries with other ids survive, and the length grows by one exactly when the id is new |
| Upsert.UpsertIdempotent | app/page.tsx:479-485 | upserting the same item twice equals upserting it once |
| Status.IndexOf | app/page.tsx:489 | `indexOf` is -1 exactly for a status outside the cycle, and otherwise the status's position |
| Status.NextStatus | app/page.tsx:487-492 | the successor is always one of the four states; an unknown status restarts at planned; a known one moves to the next position modulo 4 |
| Status.NextStatusSteps | app/page.tsx:487-492 | planned becomes started, started becomes submitted, submitted becomes graded, graded becomes planned |
| Status.NextStatusFourTimes | app/page.tsx:487-492 | four steps bring every state of the cycle back to itself |
| Status.NextStatusInjective | app/page.tsx:487-492 | distinct states of the cycle have distinct successors |
| KeyedMerge.Keys | app/page.tsx:495 | every item's key is among the keys |
| KeyedMerge.KeyWitness | app/page.tsx:495 | every key comes from some item |
| KeyedMerge.KeysSnoc | app/page.tsx:501 | appending an item adds its key |
| KeyedMerge.Accept | app/page.tsx:497-502 | no more items are accepted than arrive |
| KeyedMerge.Merge | app/page.tsx:494-504 | the existing list is an unchanged prefix, and at most all incoming items are added |
| KeyedMerge.AcceptCompose | app/page.tsx:494-504 | accepting a concatenation equals merging its parts one after the other |
| KeyedMerge.MergeCompose | app/page.tsx:494-504 | merging two batches one after the other equals merging their concatenation |
| KeyedMerge.MergeSnoc | app/page.tsx:497-502 | one more incoming item is appended exactly when its key is new to what has been merged so far |
| KeyedMerge.AcceptAllSeen | app/page.tsx:499 | a batch whose keys have all been seen adds nothing |
| KeyedMerge.KeysOfExtension | app/page.tsx:501 | extending a list keeps its keys |
| KeyedMerge.AcceptCovers | app/page.tsx:494-504 | every incoming key ends up among the merged keys |
| KeyedMerge.CoversSeen | app/page.tsx:499 | the AcceptCovers step for an item whose key was already seen |
| KeyedMerge.CoversFresh | app/page.tsx:500-501 | the AcceptCovers step for an item with a new key |
| KeyedMerge.MergeCovers | app/page.tsx:494-504 | every incoming key is a key of the merge |
| KeyedMerge.MergeFresh | app/page.tsx:497-502 | no appended item shares its key with anything before it |
| KeyedMerge.AcceptSubsequence | app/page.tsx:497-502 | the accepted items keep their incoming order |
| KeyedMerge.MergeShape | app/page.tsx:494-504 | the merge is the existing list followed by a subsequence of the incoming items |
| KeyedMerge.MergeIdempotent | app/page.tsx:494-504 | merging the same batch again adds nothing |
| KeyedMerge.MergeFirstOccurrence | app/page.tsx:497-502 | the first incoming item with a key new to the existing list is appended, right after what the earlier items produced |
| KeyedMerge.KeyNotMerged | app/page.tsx:494-504 | a key carried by neither list is not in the merge |
| KeyedMerge.MergeDistinct | app/page.tsx:494-504 | merging into an empty list yields pairwise distinct keys |
| Reconcile.SourceLabel | app/page.tsx:511 | `source ?? "manual"` is a six-letter label without `|` |
| Reconcile.CourseKey | app/page.tsx:509 | `course?.toLowerCase() ?? ""`: the lower-cased course, or `""` without one |
| Reconcile.DueKey | app/page.tsx:510 | the due-date part of the signature contains no `|` |
| Reconcile.Signature | app/page.tsx:506-513 | `signature`: lower-cased title, lower-cased course or `""`, due minute key or `""`, and source label, joined with `"|"`; SignatureMatch and SignatureCollision say when it identifies an assignment |
| Reconcile.Reconciled | app/page.tsx:494-504 | the keyed merge of the incoming batch into the existing list by Signature, the specification DedupeAssignments is proved against |
| Reconcile.SameIdentity | app/page.tsx:506-513 | the identity the signature captures: lower-cased title and course (absent counts as empty), due minute or no due date, and source label |
| Reconcile.DedupeAssignments | app/page.tsx:494-504 | the loop computes the keyed merge of the incoming batch into the existing list by signature |
| Reconcile.SameSignatureMerges | app/page.tsx:499 | an incoming assignment with an existing signature is dropped |
| Reconcile.PartsWithoutSeparator | app/page.tsx:506-513 | without `|` in title and course, no part of the signature contains `|` |
| Reconcile.PartsMatch | app/page.tsx:506-513 | the four signature parts are equal exactly when the identities are equal |
| Reconcile.SignatureMatch | app/page.tsx:506-513 | without `|` in titles and courses, signatures are equal exactly when the identities are equal |
| Reconcile.DifferentSourcesNeverMatch | app/page.tsx:511 | records with different source labels never share a signature |
| Reconcile.AbsentSourceIsManual | app/page.tsx:511 | an absent source and the manual source give the same signature |
| Reconcile.SignatureCollision | app/page.tsx:506-513 | titles or courses containing `|` let different identities share a signature, and the second is dropped |
| Reconcile.BarsRegroup | app/page.tsx:512 | string regrouping used by SignatureCollision |
| Reconcile.JoinFour | app/page.tsx:512 | a four-part join written out |
| Reconcile.CaseInsensitiveDuplicate | app/page.tsx:506-513 | re-importing with different letter case in title and course, but the same due minute and source, adds nothing |
| AssignmentForm.Prefill | components/forms/AssignmentForm.tsx:25-33 | the corrected edit prefill: fields copied, absent texts shown as `""`, and the due field at the local wall-clock minute |
| AssignmentForm.PrefillAsWritten | components/forms/AssignmentForm.tsx:28 | the due field as written is the UTC wall-clock minute of the stored due date |
| AssignmentForm.InitialValues | components/forms/AssignmentForm.tsx:22-43 | as written: an edit gets the `slice(0, 16)` prefill; a new form is empty, planned and at medium priority |
| AssignmentForm.CorrectedInitialValues | components/forms/AssignmentForm.tsx:22-43 | the corrected variant: an edit gets the local-minute prefill, and it differs from the form as written only in the due field |
| GoalForm.JoinTags | components/forms/GoalForm.tsx:37 | the tag field of an edit, `tags.join(", ")`; TagsRoundTrip proves the save parses it back to clean tags |
| GoalForm.Prefill | components/forms/GoalForm.tsx:29-38 | the corrected edit prefill: fields copied, tags joined with `", "`, and the deadline at its local calendar day |
| GoalForm.PrefillAsWritten | components/forms/GoalForm.tsx:32-34 | the deadline field as written is the UTC calendar day of the stored deadline |
| GoalForm.InitialValues | components/forms/GoalForm.tsx:28-47 | as written: an edit gets the `slice(0, 10)` prefill; a new form is empty, not started and at progress 0 |
| GoalForm.SliderProgress | components/forms/GoalForm.tsx:114-120 | the values the range input gives: 0 to 100 in steps of 5 |
| GoalForm.CorrectedInitialValues | components/forms/GoalForm.tsx:28-47 | the corrected variant: an edit gets the local-day prefill, and it differs from the form as written only in the deadline field |
| ReminderForm.Prefill | components/forms/ReminderForm.tsx:28-33 | the corrected edit prefill: title copied, link and notes shown as `""` when absent, and the due field at the local minute |
| ReminderForm.PrefillAsWritten | components/forms/ReminderForm.tsx:30 | the due field as written is the UTC wall-clock minute |
| ReminderForm.InitialValues | components/forms/ReminderForm.tsx:26-40 | as written: an edit gets the `slice(0, 16)` prefill; a new form has every field empty |
| ReminderForm.CorrectedInitialValues | components/forms/ReminderForm.tsx:26-40 | the corrected variant: an edit gets the local-minute prefill, and it differs from the form as written only in the due field |
| ReminderForm.RelatedChoices | components/forms/ReminderForm.tsx:77-82 | the selector offers `""` and then each assignment's id, in list order |
| ReminderForm.RelatedChoiceIsKnown | components/forms/ReminderForm.tsx:77-82 | a value is selectable exactly when it is `""` or the id of a current assignment |
| ScheduleForm.Hydrate | components/forms/ScheduleForm.tsx:154-165 | the local day and time of the start, the local end time or an empty field when the end is missing, and `""` for absent texts |
| ScheduleForm.InitialValues | components/forms/ScheduleForm.tsx:23-43 | an edit is hydrated; a new form carries today's date and empty fields |
| ScheduleForm.ClampEnd | components/forms/ScheduleForm.tsx:47-53 | afterwards the end does not precede the start; an ordered form is left alone; otherwise only the end moves, up to the start |
| ScheduleForm.ClampIdempotent | components/forms/ScheduleForm.tsx:47-53 | clamping twice equals clamping once |
| ScheduleForm.ScheduleFormState.constructor | components/forms/ScheduleForm.tsx:25-53 | the mounted form holds the initial values after the effect's first run |
| ScheduleForm.ScheduleFormState.SetStartTime | components/forms/ScheduleForm.tsx:45-53 | a start time that differs from the current one is followed by the clamp, so the end does not precede the start; re-entering the same start changes nothing |
| ScheduleForm.ScheduleFormState.SetEndTime | components/forms/ScheduleForm.tsx:45-53 | an end-time change does not trigger the effect and is stored as typed |
| ScheduleForm.ScheduleFormState.SetDetails | components/forms/ScheduleForm.tsx:45-53 | other edits change only their fields and keep the order of the two times |
| ScheduleForm.EndEditIsNotClamped | components/forms/ScheduleForm.tsx:45-53 | setting the end before the start after mounting, and then re-entering the same start, leaves the two times out of order |
| Normalize.TrimToUndefined | app/page.tsx:473-477 | absent exactly for a missing, empty or blank value, otherwise the trimmed text |
| Normalize.TrimToUndefinedIdempotent | app/page.tsx:473-477 | applying it twice equals applying it once |
| Normalize.TrimToUndefinedOfShown | app/page.tsx:473-477 | a clean value shown as `value ?? ""` comes back unchanged |
| Normalize.TrimAll | app/page.tsx:422 | every tag piece trimmed, in order |
| Normalize.TrimAllAppend | app/page.tsx:422 | trimming a concatenation of pieces trims each part |
| Normalize.SplitTags | app/page.tsx:419-424 | the tag parse: no tags for an empty field, otherwise the comma pieces trimmed and the empty ones dropped; SplitTagsClean, SplitTagsConcat and TagsRoundTrip state its properties |
| Normalize.SplitTagsClean | app/page.tsx:419-424 | every parsed tag is trimmed and non-empty, and the tags keep the order of the pieces |
| Normalize.SubsequenceOfEmpty | app/page.tsx:419-424 | the empty list of tags is a subsequence of anything |
| Normalize.SplitTagsIsFilter | app/page.tsx:419-424 | the test for an empty field changes nothing: an empty field splits into one empty piece, which is filtered out |
| Normalize.SplitTagsConcat | app/page.tsx:419-424 | the pieces on either side of a comma parse independently, so order and duplicates are kept |
| Normalize.SplitTagsLeadingSpace | app/page.tsx:419-424 | a leading space does not change the parsed tags |
| Normalize.SingleTagRoundTrip | app/page.tsx:419-424 | a clean tag parses to itself |
| Normalize.JoinTagsCons | components/forms/GoalForm.tsx:37 | the prefill's `", "` join is the first tag, a comma, and a space before the rest |
| Normalize.EmptyTagsRoundTrip | components/forms/GoalForm.tsx:37 | no tags are shown as `""` and parse back to no tags |
| Normalize.OneTagRoundTrip | components/forms/GoalForm.tsx:37 | one clean tag round-trips |
| Normalize.TagsRoundTripStep | components/forms/GoalForm.tsx:37 | the induction step of TagsRoundTrip |
| Normalize.TagsRoundTrip | components/forms/GoalForm.tsx:37 | parsing the joined prefill of comma-free clean tags gives back the tags |
| Normalize.DuplicateTagsKept | app/page.tsx:419-424 | `"x, x"` parses to two tags |
| Normalize.NormalizeSchedule | app/page.tsx:405-416 | the start combines date and start time; the end combines date and end time, or is the start when the end field is empty; location and notes are `trimToUndefined` of the submitted values (absent when blank, trimmed otherwise) |
| Normalize.ClampedScheduleIsOrdered | app/page.tsx:405-416 | a saved block whose form was clamped never ends before it starts |
| Normalize.NormalizeGoal | app/page.tsx:418-434 | status and progress are copied, the description is `trimToUndefined` of the submitted one, the deadline is local midnight of the chosen day, and the tags are parsed |
| Normalize.ProgressNotClamped | app/page.tsx:431 | a progress value outside the slider's range is stored as submitted |
| Normalize.NormalizeAssignment | app/page.tsx:436-452 | title, status and priority are copied, the source is the one given, course, description and link are `trimToUndefined` of the submitted values, and the due field is read as local time |
| Normalize.NormalizeReminder | app/page.tsx:454-467 | the related assignment id and the notes are `trimToUndefined` of the submitted values, so an empty assignment choice becomes no link; the given `completed` is kept, and the due field is read as local time |
| Normalize.AssignmentEditRoundTrip | app/page.tsx:436-452 | an unchanged edit with the corrected prefill saves the same assignment, with "manual" filled in for a missing source |
| Normalize.AssignmentEditAsWrittenShifts | components/forms/AssignmentForm.tsx:28 | as written, an unchanged edit moves the due date by minus the offset |
| Normalize.AssignmentEditAsWrittenExample | components/forms/AssignmentForm.tsx:28 | 2024-03-01T23:59Z, edited at UTC+1, is saved as 22:59Z |
| Normalize.NewAssignmentDefaults | components/forms/AssignmentForm.tsx:34-42 | a new assignment saves with no optional texts, no due date, planned status and medium priority |
| Normalize.ReminderEditRoundTrip | app/page.tsx:454-467 | an unchanged edit with the corrected prefill saves the same reminder |
| Normalize.ReminderEditAsWrittenShifts | components/forms/ReminderForm.tsx:30 | as written, an unchanged edit moves the due date by minus the offset |
| Normalize.NewReminderDefaults | components/forms/ReminderForm.tsx:34-39 | a new reminder saves with no due date, no link, no notes and not completed |
| Normalize.RelatedChoiceSaved | components/forms/ReminderForm.tsx:77-82 | the "None" choice is saved as no link, and any other choice as that assignment's id |
| Normalize.LocalMidnightOfDay | app/page.tsx:429 | a local midnight is read back from its own day |
| Normalize.GoalEditRoundTrip | app/page.tsx:418-434 | an unchanged edit with the corrected prefill saves the same goal |
| Normalize.GoalEditAsWrittenShifts | components/forms/GoalForm.tsx:32-34 | as written, east of UTC, every unchanged save moves a local-midnight deadline back one day |
| Normalize.GoalEditAsWrittenWestOfUtc | components/forms/GoalForm.tsx:32-34 | as written, at or west of UTC, the deadline survives an unchanged save |
| Normalize.UtcDayOfLocalMidnight | components/forms/GoalForm.tsx:32-34 | the UTC date of local midnight is the day before east of UTC, and the same day otherwise |
| Normalize.DayOfParts | components/forms/GoalForm.tsx:32-34 | the day of a day-plus-remainder value |
| Normalize.GoalEditAsWrittenExample | components/forms/GoalForm.tsx:32-34 | a 2024-03-01 deadline, edited at UTC+1, is saved as 2024-02-29 |
| Normalize.NewGoalDefaults | components/forms/GoalForm.tsx:39-46 | a new goal saves with no description, deadline or tags, not started, at progress 0 |
| Normalize.MinuteOfDayMonotone | components/forms/ScheduleForm.tsx:47-53 | on one local day, a later instant has a later or equal time of day |
| Normalize.ScheduleEditRoundTrip | app/page.tsx:405-416 | an unchanged edit of an ordered, whole-minute, same-day block with clean texts saves the same block |
| Normalize.ScheduleMissingEndSavedAsStart | app/page.tsx:407 | a stored block without a usable end is saved ending at its start |
| Dashboard.WithoutId | app/page.tsx:162-166 | no entry with the id remains, every other entry is still present, and the order is kept; the multiplicities are FilterCounts' |
| Dashboard.WithoutAbsentId | app/page.tsx:162-166 | deleting an id that no entry carries changes nothing |
| Dashboard.WithoutIdIdempotent | app/page.tsx:162-166 | deleting twice equals deleting once |
| Dashboard.DeleteSchedule | app/page.tsx:162-166 | only the schedule changes: the id is gone, the other blocks stay, in order |
| Dashboard.DeleteAssignment | app/page.tsx:208-212 | only the assignments change: the id is gone, the others stay, in order |
| Dashboard.DeleteGoal | app/page.tsx:244-248 | only the goals change: the id is gone, the others stay, in order |
| Dashboard.DeleteReminder | app/page.tsx:291-295 | only the reminders change: the id is gone, the others stay, in order |
| Dashboard.DeletedAssignmentUnlinks | app/page.tsx:208-212 | the reminders are untouched, and a reminder pointing at the deleted id shows no link |
| Dashboard.UpdateWhere | app/page.tsx:214-223 | the map keeps the length and updates exactly the entries with the id |
| Dashboard.Advanced | app/page.tsx:214-223 | the assignment with its status replaced by NextStatus and every other field kept |
| Dashboard.AdvanceStatus | app/page.tsx:214-223 | only assignments with the id change, to the next status, and that status is one of the four |
| Dashboard.AdvanceFourTimes | app/page.tsx:214-223 | four presses restore a state whose statuses are all known |
| Dashboard.Toggled | app/page.tsx:250-261 | a complete goal goes back to in progress; any other goal becomes complete at progress 100 |
| Dashboard.ToggleGoal | app/page.tsx:250-261 | a complete goal goes back to in progress with its progress kept; any other becomes complete at 100; other goals are unchanged |
| Dashboard.ToggleGoalTwice | app/page.tsx:250-261 | toggling twice is not the identity: a goal in progress at 40 returns in progress at 100 |
| Dashboard.Flipped | app/page.tsx:280-289 | the reminder with `completed` negated |
| Dashboard.ToggleReminder | app/page.tsx:280-289 | exactly the reminders with the id flip `completed` |
| Dashboard.ToggleReminderInvolution | app/page.tsx:280-289 | toggling twice restores the state |
| Dashboard.MapEvents | app/page.tsx:176-193 | each event becomes a planned, medium-priority canvas assignment with its own fresh id |
| Dashboard.ImportEvents | app/page.tsx:176-193 | only assignments change, and an empty feed changes nothing |
| Dashboard.ImportAddsCanvasItems | app/page.tsx:176-193 | the old assignments are a prefix, and every added one is a planned, medium-priority canvas item |
| Dashboard.MappedSignaturesAgree | app/page.tsx:176-193 | the fresh ids do not affect the signatures |
| Dashboard.ReimportAddsNothing | app/page.tsx:176-193 | importing the same feed again, with any new ids, adds nothing |
| Dashboard.SaveId | app/page.tsx:320-375 | an edit keeps its record's id, and a new record takes the fresh id |
| Dashboard.SaveSchedule | app/page.tsx:320-328 | only the schedule changes: the normalised block is in it, blocks with other ids stay, and it grows only for a new id |
| Dashboard.SaveGoal | app/page.tsx:335-342 | only the goals change: the normalised goal is in them, goals with other ids stay, and they grow only for a new id |
| Dashboard.SaveSource | app/page.tsx:350 | the edited record's source, or manual when there is none |
| Dashboard.SaveAssignment | app/page.tsx:349-356 | only the assignments change: the normalised assignment is in them, others stay, and they grow only for a new id |
| Dashboard.SaveCompleted | app/page.tsx:364-375 | the edited reminder's `completed`, or false for a new reminder |
| Dashboard.SaveReminder | app/page.tsx:364-375 | only the reminders change: the normalised reminder is in them, others stay, and they grow only for a new id |
| Dashboard.EditAssignmentInPlace | app/page.tsx:349-356 | an edit keeps the assignment's id, position, source and the list's length |
| Dashboard.SaveReminderKeepsCompleted | app/page.tsx:364-375 | an edit keeps the reminder's `completed` flag, and a new reminder is not completed |
| Dashboard.ScheduleForDay | app/page.tsx:61-65 | only and all the blocks that start on the selected local day, in stored order; the multiplicities are FilterCounts' |
| Dashboard.SavedBlockIsShown | app/page.tsx:320-328 | after a save the selected day is the block's day, so the saved block is listed |
| Dashboard.DashboardStore.constructor | app/page.tsx:46-57 | a new store holds the initial state, with four empty collections |
| Dashboard.DashboardStore.Mutate | app/page.tsx:54-57 | the state becomes the updater applied to the old state |
| Dashboard.DashboardStore.Import | app/page.tsx:176-193 | the state becomes the import of the feed into the old state; the imperative merge runs |
| Dashboard.DashboardStore.Reset | app/page.tsx:121 | the state returns to the initial state |
| AssignmentTable.DueOrder | components/dashboard/AssignmentTable.tsx:41-45 | the key is infinity exactly for an undated assignment, and the due instant otherwise |
| AssignmentTable.Sorted | components/dashboard/AssignmentTable.tsx:41-45 | a permutation in which every dated assignment precedes every undated one, dated ones ascend, and ties keep their input order |
| AssignmentTable.TiesKeepInputOrder | components/dashboard/AssignmentTable.tsx:41-45 | undated assignments, and those due at the same instant, keep their input order |
| AssignmentTable.SortedIsDetermined | components/dashboard/AssignmentTable.tsx:41-45 | any stable arrangement in due order is the sorted one |
| AssignmentTable.Render | components/dashboard/AssignmentTable.tsx:33-45 | the empty state exactly for no assignments, otherwise the sorted rows |
| ReminderList.DueOrder | components/dashboard/ReminderList.tsx:30-34 | the key is infinity exactly for an undated reminder |
| ReminderList.Sorted | components/dashboard/ReminderList.tsx:30-34 | a permutation with dated reminders ascending before undated ones, ties in input order |
| ReminderList.IndexById | components/dashboard/ReminderList.tsx:36 | every id is a key, and each entry is an assignment of the list carrying that id |
| ReminderList.IndexKeys | components/dashboard/ReminderList.tsx:36 | the keys are exactly the ids some assignment carries |
| ReminderList.IndexLastWins | components/dashboard/ReminderList.tsx:36 | the last assignment with a given id is the one stored |
| ReminderList.Related | components/dashboard/ReminderList.tsx:41-43 | a link names the reminder's id and an assignment of the list; no link for an absent or empty id |
| ReminderList.RelatedIsDefined | components/dashboard/ReminderList.tsx:41-43 | a link is shown exactly when the reminder names a non-empty id that an assignment carries |
| ReminderList.DanglingRelatedId | components/dashboard/ReminderList.tsx:41-43 | an id whose assignment is gone shows no link |
| ReminderList.DuplicateIdLinksLater | components/dashboard/ReminderList.tsx:36-43 | with two assignments under one id, the link goes to the later one |
| ReminderList.Render | components/dashboard/ReminderList.tsx:22-43 | the empty state exactly for no reminders, otherwise the sorted reminders each with its link |
| ScheduleTimeline.Sorted | components/dashboard/ScheduleTimeline.tsx:27 | a permutation ascending by start, ties in input order |
| ScheduleTimeline.IsPast | components/dashboard/ScheduleTimeline.tsx:33-35 | past: started before now, and either no end or an end before now |
| ScheduleTimeline.IsCurrent | components/dashboard/ScheduleTimeline.tsx:33-37 | current, with `&&` binding tighter than `?:`: for a started block with an end, now is before the end; otherwise the start is in now's minute |
| ScheduleTimeline.NeverPastAndCurrentWithEnd | components/dashboard/ScheduleTimeline.tsx:34-37 | a block with an end is never both past and current |
| ScheduleTimeline.PastAndCurrentWithoutEnd | components/dashboard/ScheduleTimeline.tsx:34-37 | a block without an end that began earlier in the current minute is both |
| ScheduleTimeline.OpenBlockEndsWithItsMinute | components/dashboard/ScheduleTimeline.tsx:34-37 | a block without an end that began in an earlier minute is past and not current |
| ScheduleTimeline.UpcomingIsCurrentOnlyInItsMinute | components/dashboard/ScheduleTimeline.tsx:34-37 | a block that has not started is not past, and is current exactly within its start minute |
| ScheduleTimeline.Render | components/dashboard/ScheduleTimeline.tsx:19-37 | the empty state exactly for no blocks, otherwise one row per block in start order with its two flags |
| ScheduleTimeline.RenderedInStartOrder | components/dashboard/ScheduleTimeline.tsx:27-37 | the rendered rows show the input's blocks, earliest start first |
| OverviewSummary.CountWhere | components/dashboard/OverviewSummary.tsx:29-36 | `filter(p).length`: a count at most the length |
| OverviewSummary.CountAllOrNone | components/dashboard/OverviewSummary.tsx:29-36 | the count is the length when every element passes, and 0 when none does |
| OverviewSummary.CountAppend | components/dashboard/OverviewSummary.tsx:29-36 | the count of a concatenation is the sum of the counts |
| OverviewSummary.CountSkips | components/dashboard/OverviewSummary.tsx:29-36 | a rejected extra element does not change the count |
| OverviewSummary.InWindow | components/dashboard/OverviewSummary.tsx:29-35 | `isBetween(todayStart, todayEnd, null, "[]")`: both ends included |
| OverviewSummary.TodayStart | components/dashboard/OverviewSummary.tsx:26 | the start of today lies at most a day before now, and within it |
| OverviewSummary.TodayEnd | components/dashboard/OverviewSummary.tsx:27 | the end of today is the last millisecond of the local day |
| OverviewSummary.TodayIsLocalDay | components/dashboard/OverviewSummary.tsx:25-29 | an instant is in today's inclusive window exactly when it falls on now's local day |
| OverviewSummary.StartsToday | components/dashboard/OverviewSummary.tsx:29 | a block counts when its start is inside today's inclusive window |
| OverviewSummary.DueToday | components/dashboard/OverviewSummary.tsx:30-36 | an assignment or reminder counts when it has a due date inside today's inclusive window |
| OverviewSummary.OnTrack | components/dashboard/OverviewSummary.tsx:33 | a goal is on track at progress 50 or more when it is not complete |
| OverviewSummary.Summarize | components/dashboard/OverviewSummary.tsx:29-36 | each counter counts its collection's items that pass the card's test, and is at most the collection's size |
| OverviewSummary.SummarizeCountsLocalDay | components/dashboard/OverviewSummary.tsx:26-35 | against today's window, the block, deadline and reminder counters count exactly the blocks and due dates on now's local day, and undated items never count |
| OverviewSummary.CompleteGoalNotOnTrack | components/dashboard/OverviewSummary.tsx:33 | a complete goal never counts as on track, whatever its progress |
| OverviewSummary.UndatedNotDueToday | components/dashboard/OverviewSummary.tsx:30-36 | an undated assignment or reminder never counts as due today |
| OverviewSummary.WindowIsInclusive | components/dashboard/OverviewSummary.tsx:29 | blocks at the first and the last millisecond of today both count |

## Left out

- The calendar feed parser (`@/lib/ics`) and the import dialog's file reading are not part of this model. The import takes the parsed events as a list.
- Device storage (`@/lib/storage`) is left out. The store holds the state in memory, and reading back persisted records is not modelled.
- Time zones are a fixed offset, so daylight-saving changes are not modelled. The corrected edit prefills and the round-trip lemmas assume whole-minute instants.
- `nanoid` ids and the clock (`dayjs()` as now or today) are parameters.
- Text.ToLower: lower-cases only ASCII letters, not the full Unicode case mapping.
- Clock.MinuteKey: renders the minute key as the decimal minute count instead of the local "YYYY-MM-DDTHH:mm" text. Both agree on when two due dates share a minute when the offset is whole minutes.
- The "HH:mm" strings that the schedule form compares are modelled by their minute counts. Zero-padded strings compare in the same order.
- An absent `end` of a stored block (`dayjs(undefined)` is the current time) is modelled as an empty end field. Reading back stored data is outside the model, so that case arises only for such records.
- A stored block whose `end` is a string that does not parse as a date is not modelled; `end` is absent only for a null end. The timeline treats such a block differently: it is never past, and once started it is never current.
- Rendering and styling are left out: markup, modals, buttons, and the colour and label tables.
- GoalList, SectionCard, CanvasImportDialog's UI and next.config are not modelled. They hold no rule beyond the updaters modelled above.
- The forms' validation is left out. It is react-hook-form's `required` on the title in all four forms, and on the date and start time in the schedule form. Its outcome is taken as given: the schedule save requires the date and start time that the form marks as required.

## Findings

| source | as written | input that shows it | evidently intended | confidence | as-written member | corrected member |
|---|---|---|---|---|---|---|
| components/forms/AssignmentForm.tsx:28 | the edit form shows `dueDate.slice(0, 16)` of the UTC ISO text, and the save reads that field as local time | due 2024-03-01T23:59Z (1709337540000) at UTC+1: an unchanged save stores 22:59Z (1709333940000) | the field shows the local wall-clock minute, so an unchanged edit keeps the due date | not executed | Normalize.AssignmentEditAsWrittenExample | Normalize.AssignmentEditRoundTrip |
| components/forms/ReminderForm.tsx:30 | the edit shows the UTC minute of the due date, read back as local time | any whole-minute due date at a non-zero offset moves by minus the offset on each unchanged save | the field shows the local minute, so an unchanged edit keeps the due date | not executed | Normalize.ReminderEditAsWrittenShifts | Normalize.ReminderEditRoundTrip |
| components/forms/GoalForm.tsx:32-34 | the edit shows `deadline.slice(0, 10)`, the UTC date, and the save reads it as local midnight | deadline 2024-03-01 local (1709247600000) at UTC+1: an unchanged save stores 2024-02-28T23:00Z (1709161200000) | the field shows the local date, so an unchanged edit keeps the deadline | not executed | Normalize.GoalEditAsWrittenExample | Normalize.GoalEditRoundTrip |
