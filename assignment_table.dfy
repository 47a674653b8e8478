/**
 * The assignment table (components/dashboard/AssignmentTable.tsx): an empty state,
 * or the rows sorted by due time with undated assignments last.
 */
module AssignmentTable {
  import opened Wrappers
  import opened Records
  import opened StableSort

  /** The comparator's key: the due instant, or `Number.POSITIVE_INFINITY` without one. */
  function DueOrder(a: Assignment): (k: SortKey)
    ensures k.Infinity? <==> a.dueDate.None?
    ensures a.dueDate.Some? ==> k == At(a.dueDate.value)
  {
    match a.dueDate
    case Some(t) => At(t)
    case None => Infinity
  }

  /**
   * `[...assignments].sort(...)`: a reordering of the input in which every dated
   * assignment precedes every undated one and the dated ones ascend by due time.
   */
  function Sorted(assignments: seq<Assignment>): (r: seq<Assignment>)
    ensures multiset(r) == multiset(assignments) && |r| == |assignments|
    ensures forall i, j :: 0 <= i < j < |r| && r[j].dueDate.Some? ==>
              r[i].dueDate.Some? && r[i].dueDate.value <= r[j].dueDate.value
    ensures SameTieOrder(r, assignments, DueOrder)
  {
    var r := SortByKey(assignments, DueOrder);
    assert forall i, j :: 0 <= i < j < |r| ==> KeyLe(DueOrder(r[i]), DueOrder(r[j]));
    assert |r| == |multiset(r)| == |assignments|;
    r
  }

  /** The undated assignments, and those due at the same instant, keep their input order. */
  lemma TiesKeepInputOrder(assignments: seq<Assignment>, due: Option<int>)
    ensures var k := if due.Some? then At(due.value) else Infinity;
            WithKey(Sorted(assignments), DueOrder, k) == WithKey(assignments, DueOrder, k)
  {
  }

  /** The order is fully determined: any stable, due-ordered rearrangement is this one. */
  lemma SortedIsDetermined(assignments: seq<Assignment>, r: seq<Assignment>)
    requires forall i, j :: 0 <= i < j < |r| && r[j].dueDate.Some? ==>
               r[i].dueDate.Some? && r[i].dueDate.value <= r[j].dueDate.value
    requires SameTieOrder(r, assignments, DueOrder)
    ensures r == Sorted(assignments)
  {
    assert SortedBy(r, DueOrder);
    StableSortIsUnique(assignments, r, DueOrder);
  }

  datatype TableView = EmptyState | Rows(rows: seq<Assignment>)

  /** The component: no assignments gives the empty state, otherwise one row per assignment in sorted order. */
  function Render(assignments: seq<Assignment>): (v: TableView)
    ensures v.EmptyState? <==> assignments == []
    ensures v.Rows? ==> v.rows == Sorted(assignments) && multiset(v.rows) == multiset(assignments)
  {
    if assignments == [] then EmptyState else Rows(Sorted(assignments))
  }
}
