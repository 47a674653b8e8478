/**
 * `signature` and `dedupeAssignments` (app/page.tsx): the identity of an
 * assignment, and the merge of an imported batch into the existing list.
 */
module Reconcile {
  import opened Wrappers
  import opened Text
  import opened Clock
  import opened Records
  import KeyedMerge

  /** `assignment.source ?? "manual"`. */
  function SourceLabel(source: Option<Source>): (name: string)
    ensures |name| == 6 && '|' !in name
  {
    match source
    case Some(Canvas) => "canvas"
    case _ => "manual"
  }

  /** `assignment.course?.toLowerCase() ?? ""`. */
  function CourseKey(a: Assignment): string {
    match a.course
    case Some(c) => ToLower(c)
    case None => ""
  }

  /** The minute of the due date, or `""` without one. */
  function DueKey(a: Assignment): (k: string)
    ensures '|' !in k
  {
    match a.dueDate
    case Some(t) => MinuteKey(t)
    case None => ""
  }

  function SignatureParts(a: Assignment): seq<string> {
    [ToLower(a.title), CourseKey(a), DueKey(a), SourceLabel(a.source)]
  }

  /** The four identity fields, lower-cased where text, joined with `"|"`. */
  function Signature(a: Assignment): string {
    Join(SignatureParts(a), "|")
  }

  /** The identity the signature is meant to capture, field by field. */
  predicate SameIdentity(a: Assignment, b: Assignment) {
    && ToLower(a.title) == ToLower(b.title)
    && CourseKey(a) == CourseKey(b)
    && (match a.dueDate
        case None => b.dueDate.None?
        case Some(t) => b.dueDate.Some? && SameMinute(t, b.dueDate.value))
    && SourceLabel(a.source) == SourceLabel(b.source)
  }

  /** The signatures of a list (`new Set(existing.map(signature))`). */
  function Signatures(s: seq<Assignment>): set<string> {
    KeyedMerge.Keys(Signature, s)
  }

  /** The merged list: `existing`, then each incoming item whose signature was not seen before it. */
  function Reconciled(existing: seq<Assignment>, incoming: seq<Assignment>): seq<Assignment> {
    KeyedMerge.Merge(Signature, existing, incoming)
  }

  /**
   * `dedupeAssignments`: `seen` and `merged` grow item by item, and an incoming
   * item whose signature was already seen is skipped.
   */
  method DedupeAssignments(existing: seq<Assignment>, incoming: seq<Assignment>)
    returns (merged: seq<Assignment>)
    ensures merged == Reconciled(existing, incoming)
  {
    var seen := Signatures(existing);
    merged := existing;
    for i := 0 to |incoming|
      invariant seen == Signatures(merged)
      invariant merged + KeyedMerge.Accept(Signature, seen, incoming[i..]) == Reconciled(existing, incoming)
    {
      var key := Signature(incoming[i]);
      assert incoming[i..][1..] == incoming[i + 1..];
      if key in seen {
        continue;
      }
      KeyedMerge.KeysSnoc(Signature, merged, incoming[i]);
      merged := merged + [incoming[i]];
      seen := seen + {key};
    }
    assert incoming[|incoming|..] == [];
  }

  /** Two assignments with the same signature merge into one. */
  lemma SameSignatureMerges(a: Assignment, b: Assignment)
    requires Signature(a) == Signature(b)
    ensures Reconciled([a], [b]) == [a]
  {
    assert Signatures([a]) == {Signature(a)} by {
      KeyedMerge.KeysSnoc(Signature, [], a);
    }
  }

  lemma PartsWithoutSeparator(a: Assignment)
    requires '|' !in a.title
    requires a.course.Some? ==> '|' !in a.course.value
    ensures forall k :: 0 <= k < |SignatureParts(a)| ==> '|' !in SignatureParts(a)[k]
  {
    LowerKeepsAbsent(a.title, '|');
    if a.course.Some? { LowerKeepsAbsent(a.course.value, '|'); }
  }

  lemma PartsMatch(a: Assignment, b: Assignment)
    ensures SignatureParts(a) == SignatureParts(b) <==> SameIdentity(a, b)
  {
    if a.dueDate.Some? && b.dueDate.Some? {
      MinuteKeyMatch(a.dueDate.value, b.dueDate.value);
    }
    var pa, pb := SignatureParts(a), SignatureParts(b);
    if pa == pb {
      assert pa[2] == pb[2];
    }
  }

  /**
   * When titles and courses contain no `|`, two assignments have the same
   * signature exactly when they agree on lower-cased title, lower-cased course
   * (absent counting as empty), due minute (or are both undated) and source label.
   */
  lemma SignatureMatch(a: Assignment, b: Assignment)
    requires '|' !in a.title && '|' !in b.title
    requires a.course.Some? ==> '|' !in a.course.value
    requires b.course.Some? ==> '|' !in b.course.value
    ensures Signature(a) == Signature(b) <==> SameIdentity(a, b)
  {
    PartsWithoutSeparator(a);
    PartsWithoutSeparator(b);
    SplitJoin(SignatureParts(a), '|');
    SplitJoin(SignatureParts(b), '|');
    PartsMatch(a, b);
  }

  /** Records from different sources never match, whatever their other fields. */
  lemma DifferentSourcesNeverMatch(a: Assignment, b: Assignment)
    requires SourceLabel(a.source) != SourceLabel(b.source)
    ensures Signature(a) != Signature(b)
  {
    JoinEndsWithLast(SignatureParts(a), "|");
    JoinEndsWithLast(SignatureParts(b), "|");
  }

  /** An absent source and the manual source are the same to the signature. */
  lemma AbsentSourceIsManual(a: Assignment)
    ensures Signature(a.(source := None)) == Signature(a.(source := Some(Manual)))
  {
  }

  /**
   * Joining with `"|"` lets distinct identities collide: title "|" without a
   * course and an empty title with course "|" both sign as "|||" followed by
   * the due key, "|" and the source label, so the second is dropped as a
   * duplicate of the first.
   */
  lemma SignatureCollision(due: Option<Timestamp>, source: Option<Source>)
    ensures var a := Assignment("1", "|", None, due, None, Planned, Medium, None, source);
            var b := Assignment("2", "", Some("|"), due, None, Planned, Medium, None, source);
            !SameIdentity(a, b) && Signature(a) == Signature(b) && Reconciled([a], [b]) == [a]
  {
    var a := Assignment("1", "|", None, due, None, Planned, Medium, None, source);
    var b := Assignment("2", "", Some("|"), due, None, Planned, Medium, None, source);
    assert ToLower("|") == "|" && ToLower("") == "";
    var rest := DueKey(a) + "|" + SourceLabel(source);
    JoinFour("|", "", DueKey(a), SourceLabel(source), "|");
    JoinFour("", "|", DueKey(a), SourceLabel(source), "|");
    assert SignatureParts(a) == ["|", "", DueKey(a), SourceLabel(source)];
    assert SignatureParts(b) == ["", "|", DueKey(a), SourceLabel(source)];
    BarsRegroup(rest);
    SameSignatureMerges(a, b);
  }

  lemma BarsRegroup(rest: string)
    ensures "|" + "|" + ("" + "|" + rest) == "" + "|" + ("|" + "|" + rest)
  {
    assert "|" + "|" + ("" + "|" + rest) == "|||" + rest;
    assert "" + "|" + ("|" + "|" + rest) == "|||" + rest;
  }

  lemma JoinFour(p0: string, p1: string, p2: string, p3: string, sep: string)
    ensures Join([p0, p1, p2, p3], sep) == p0 + sep + (p1 + sep + (p2 + sep + p3))
  {
    JoinCons(p0, [p1, p2, p3], sep);
    JoinCons(p1, [p2, p3], sep);
    JoinCons(p2, [p3], sep);
    assert [p0, p1, p2, p3] == [p0] + [p1, p2, p3];
    assert [p1, p2, p3] == [p1] + [p2, p3];
    assert [p2, p3] == [p2] + [p3];
  }

  /**
   * Re-importing an assignment with different casing of title and course but
   * the same due minute and source adds nothing.
   */
  lemma CaseInsensitiveDuplicate(due: Timestamp)
    ensures var existing := Assignment("e", "Quiz", Some("CS1"), Some(due), None,
                                       Planned, Medium, None, Some(Manual));
            var incoming := Assignment("n", "quiz", Some("cs1"), Some(due), None,
                                       Planned, Medium, None, Some(Manual));
            Reconciled([existing], [incoming]) == [existing]
  {
    var existing := Assignment("e", "Quiz", Some("CS1"), Some(due), None,
                               Planned, Medium, None, Some(Manual));
    var incoming := Assignment("n", "quiz", Some("cs1"), Some(due), None,
                               Planned, Medium, None, Some(Manual));
    assert ToLower("Quiz") == "quiz" == ToLower("quiz");
    assert ToLower("CS1") == "cs1" == ToLower("cs1");
    assert SignatureParts(existing) == SignatureParts(incoming);
    SameSignatureMerges(existing, incoming);
  }
}
