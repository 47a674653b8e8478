/** `nextStatus` (app/page.tsx): advancing an assignment's status round a fixed cycle. */
module Status {
  import opened Records

  const StatusOrder: seq<AssignmentStatus> := [Planned, Started, Submitted, Graded]

  /** `order.indexOf(status)`: the position in the cycle, or -1 for a label outside it. */
  function IndexOf(status: AssignmentStatus): (idx: int)
    ensures -1 <= idx < |StatusOrder|
    ensures idx == -1 <==> status !in StatusOrder
    ensures idx >= 0 ==> StatusOrder[idx] == status
  {
    if status == Planned then 0
    else if status == Started then 1
    else if status == Submitted then 2
    else if status == Graded then 3
    else -1
  }

  /**
   * The successor in planned -> started -> submitted -> graded -> planned; a
   * status outside the cycle restarts it at planned. The result is always one
   * of the four states.
   */
  function NextStatus(status: AssignmentStatus): (r: AssignmentStatus)
    ensures r in StatusOrder
    ensures status !in StatusOrder ==> r == Planned
    ensures status in StatusOrder ==> IndexOf(r) == (IndexOf(status) + 1) % |StatusOrder|
  {
    var idx := IndexOf(status);
    var nextIndex := if idx == -1 then 0 else (idx + 1) % |StatusOrder|;
    StatusOrder[nextIndex]
  }

  /** The four steps of the cycle, one by one. */
  lemma NextStatusSteps()
    ensures NextStatus(Planned) == Started
    ensures NextStatus(Started) == Submitted
    ensures NextStatus(Submitted) == Graded
    ensures NextStatus(Graded) == Planned
  {
  }

  /** Advancing four times returns every status of the cycle to itself. */
  lemma NextStatusFourTimes(status: AssignmentStatus)
    requires status in StatusOrder
    ensures NextStatus(NextStatus(NextStatus(NextStatus(status)))) == status
  {
    NextStatusSteps();
  }

  /** Distinct states of the cycle advance to distinct states: the step is a permutation. */
  lemma NextStatusInjective(a: AssignmentStatus, b: AssignmentStatus)
    requires a in StatusOrder && b in StatusOrder
    requires NextStatus(a) == NextStatus(b)
    ensures a == b
  {
    NextStatusSteps();
    assert a == Planned || a == Started || a == Submitted || a == Graded;
    assert b == Planned || b == Started || b == Submitted || b == Graded;
  }
}
