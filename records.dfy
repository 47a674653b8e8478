/**
 * The persisted records of the dashboard and the aggregate that holds them.
 * Dates are instants (see `Clock`); optional fields are `Option`s.
 */
module Records {
  import opened Wrappers
  import opened Clock

  type Id = string

  /**
   * An assignment's progress. Records read back from device storage are not
   * checked against the four states, so a stored status can be any label.
   */
  datatype AssignmentStatus = Planned | Started | Submitted | Graded | Unrecognized(name: string)

  datatype Priority = High | Medium | Low

  /** Where an assignment came from; older records may carry none. */
  datatype Source = Manual | Canvas

  datatype Assignment = Assignment(
    id: Id,
    title: string,
    course: Option<string>,
    dueDate: Option<Timestamp>,
    description: Option<string>,
    status: AssignmentStatus,
    priority: Priority,
    link: Option<string>,
    source: Option<Source>)

  datatype GoalStatus = NotStarted | InProgress | Complete

  datatype Goal = Goal(
    id: Id,
    title: string,
    description: Option<string>,
    deadline: Option<Timestamp>,
    status: GoalStatus,
    progress: int,
    tags: seq<string>)

  datatype Reminder = Reminder(
    id: Id,
    title: string,
    dueDate: Option<Timestamp>,
    relatedId: Option<Id>,
    notes: Option<string>,
    completed: bool)

  /** A schedule block; `end` is absent only for a stored record whose end is null. */
  datatype ScheduleItem = ScheduleItem(
    id: Id,
    title: string,
    start: Timestamp,
    end: Option<Timestamp>,
    location: Option<string>,
    notes: Option<string>)

  /** One event of an imported calendar feed, as the feed parser hands it over. */
  datatype CalendarEvent = CalendarEvent(
    title: string,
    course: Option<string>,
    dueDate: Option<Timestamp>,
    description: Option<string>,
    link: Option<string>)

  datatype DashboardState = DashboardState(
    schedule: seq<ScheduleItem>,
    goals: seq<Goal>,
    assignments: seq<Assignment>,
    reminders: seq<Reminder>)

  /** The state of a fresh or reset dashboard: four empty collections. */
  const InitialState: DashboardState := DashboardState([], [], [], [])

  function ScheduleId(item: ScheduleItem): Id { item.id }
  function GoalId(goal: Goal): Id { goal.id }
  function AssignmentId(assignment: Assignment): Id { assignment.id }
  function ReminderId(reminder: Reminder): Id { reminder.id }
}
