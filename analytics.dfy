/**
 * The monthly counters of the project and workspace analytics endpoints.
 * Each counter is the number of task rows one query selects: the rows in
 * scope (a project, or any project of a workspace), created inside a
 * month window, and of one kind (any, assigned to someone, incomplete,
 * complete, overdue). Each difference is this month's count minus last
 * month's.
 *
 * Month windows arrive as inclusive timestamp intervals, and today's date
 * as its `YYYY-MM-DD` text; computing them is calendar arithmetic.
 */
module Analytics {
  import opened Common
  import opened DbHelpers

  /** A month: the first and last instants it contains. */
  datatype Window = Window(start: int, end: int)

  predicate CreatedIn(d: Doc, w: Window)
  {
    "createdAt" in d && d["createdAt"].VTime? && w.start <= d["createdAt"].t <= w.end
  }

  predicate Done(d: Doc)
  {
    "status" in d && d["status"] == VStr(StatusName(DONE))
  }

  /**
   * Text order, code unit by code unit, a prefix first: on `YYYY-MM-DD`
   * dates it is the calendar order the due-date comparison uses.
   */
  predicate TextAtMost(a: string, b: string)
    decreases |a|
  {
    a == [] || (b != [] && (a[0] < b[0] || (a[0] == b[0] && TextAtMost(a[1..], b[1..]))))
  }

  /** The order is reflexive: a task due today is overdue. */
  lemma {:induction false} TextAtMostReflexive(a: string)
    ensures TextAtMost(a, a)
    decreases |a|
  {
    if a != [] {
      TextAtMostReflexive(a[1..]);
    }
  }

  predicate DueBy(d: Doc, today: string)
  {
    "dueDate" in d && d["dueDate"].VStr? && TextAtMost(d["dueDate"].s, today)
  }

  /** The five kinds of task the counters count. */
  datatype Kind = AnyTask | Assigned | Incomplete | Complete | Overdue

  /** The extra conditions of each kind's query; `assignee` is the value the assigned query compares with. */
  predicate OfKind(kind: Kind, d: Doc, assignee: Value, today: string)
  {
    match kind
    case AnyTask => true
    case Assigned => "assigneeId" in d && d["assigneeId"] == assignee
    case Incomplete => !Done(d)
    case Complete => Done(d)
    case Overdue => !Done(d) && DueBy(d, today)
  }

  /** One query: in scope, of the kind, created in the window. */
  function Query(scope: Doc -> bool, kind: Kind, assignee: Value, today: string, w: Window): Doc -> bool
  {
    d => scope(d) && OfKind(kind, d, assignee, today) && CreatedIn(d, w)
  }

  /** The number of rows one query selects. */
  function Count(rows: seq<Doc>, scope: Doc -> bool, kind: Kind, assignee: Value, today: string, w: Window): nat
  {
    |Filter(rows, Query(scope, kind, assignee, today, w))|
  }

  datatype Counters = Counters(
    taskCount: int, taskDifference: int,
    assignedTaskCount: int, assignedTaskDifference: int,
    incompleteTaskCount: int, incompleteTaskDifference: int,
    completeTaskCount: int, completeTaskDifference: int,
    overdueTaskCount: int, overdueTaskDifference: int)

  /** The response when there is nothing to count. */
  const NoCounters: Counters := Counters(0, 0, 0, 0, 0, 0, 0, 0, 0, 0)

  /** The count of a kind in the current month and the difference from the previous one. */
  function CountAndDifference(rows: seq<Doc>, scope: Doc -> bool, kind: Kind, assignee: Value, today: string,
                              thisMonth: Window, lastMonth: Window): (int, int)
  {
    var current := Count(rows, scope, kind, assignee, today, thisMonth);
    (current, current - Count(rows, scope, kind, assignee, today, lastMonth))
  }

  /** Every kind is a narrowing of all tasks; incomplete and complete split them; overdue narrows incomplete. */
  lemma KindsSplit(rows: seq<Doc>, scope: Doc -> bool, assignee: Value, today: string, w: Window)
    ensures Count(rows, scope, Incomplete, assignee, today, w) + Count(rows, scope, Complete, assignee, today, w) ==
      Count(rows, scope, AnyTask, assignee, today, w)
    ensures Count(rows, scope, Overdue, assignee, today, w) <= Count(rows, scope, Incomplete, assignee, today, w)
    ensures Count(rows, scope, Assigned, assignee, today, w) <= Count(rows, scope, AnyTask, assignee, today, w)
  {
    var all := Query(scope, AnyTask, assignee, today, w);
    var inScope := Filter(rows, all);
    FilterFilter(rows, all, Done, Query(scope, Complete, assignee, today, w));
    FilterFilter(rows, all, d => !Done(d), Query(scope, Incomplete, assignee, today, w));
    FilterPartition(inScope, Done, d => !Done(d));
    FilterMonotone(rows, Query(scope, Overdue, assignee, today, w), Query(scope, Incomplete, assignee, today, w));
    FilterMonotone(rows, Query(scope, Assigned, assignee, today, w), all);
  }

  /**
   * The ten counters. In each month incomplete and complete tasks add up
   * to all tasks, overdue tasks are among the incomplete ones and assigned
   * tasks among all; each difference is the current count minus the
   * previous month's, so the same holds of the previous month's counts.
   */
  function MonthlyCounters(rows: seq<Doc>, scope: Doc -> bool, assignee: Value, today: string,
                           thisMonth: Window, lastMonth: Window): (r: Counters)
    ensures r.taskCount == Count(rows, scope, AnyTask, assignee, today, thisMonth)
    ensures r.taskDifference == r.taskCount - Count(rows, scope, AnyTask, assignee, today, lastMonth)
    ensures r.assignedTaskCount == Count(rows, scope, Assigned, assignee, today, thisMonth)
    ensures r.assignedTaskDifference == r.assignedTaskCount - Count(rows, scope, Assigned, assignee, today, lastMonth)
    ensures r.incompleteTaskCount == Count(rows, scope, Incomplete, assignee, today, thisMonth)
    ensures r.incompleteTaskDifference == r.incompleteTaskCount - Count(rows, scope, Incomplete, assignee, today, lastMonth)
    ensures r.completeTaskCount == Count(rows, scope, Complete, assignee, today, thisMonth)
    ensures r.completeTaskDifference == r.completeTaskCount - Count(rows, scope, Complete, assignee, today, lastMonth)
    ensures r.overdueTaskCount == Count(rows, scope, Overdue, assignee, today, thisMonth)
    ensures r.overdueTaskDifference == r.overdueTaskCount - Count(rows, scope, Overdue, assignee, today, lastMonth)
    ensures r.incompleteTaskCount + r.completeTaskCount == r.taskCount
    ensures 0 <= r.overdueTaskCount <= r.incompleteTaskCount
    ensures 0 <= r.assignedTaskCount <= r.taskCount
    ensures (r.incompleteTaskCount - r.incompleteTaskDifference) + (r.completeTaskCount - r.completeTaskDifference) ==
      r.taskCount - r.taskDifference
    ensures 0 <= r.overdueTaskCount - r.overdueTaskDifference <= r.incompleteTaskCount - r.incompleteTaskDifference
    ensures 0 <= r.assignedTaskCount - r.assignedTaskDifference <= r.taskCount - r.taskDifference
  {
    KindsSplit(rows, scope, assignee, today, thisMonth);
    KindsSplit(rows, scope, assignee, today, lastMonth);
    var (tasks, tasksDiff) := CountAndDifference(rows, scope, AnyTask, assignee, today, thisMonth, lastMonth);
    var (mine, mineDiff) := CountAndDifference(rows, scope, Assigned, assignee, today, thisMonth, lastMonth);
    var (incomplete, incompleteDiff) := CountAndDifference(rows, scope, Incomplete, assignee, today, thisMonth, lastMonth);
    var (complete, completeDiff) := CountAndDifference(rows, scope, Complete, assignee, today, thisMonth, lastMonth);
    var (overdue, overdueDiff) := CountAndDifference(rows, scope, Overdue, assignee, today, thisMonth, lastMonth);
    Counters(tasks, tasksDiff, mine, mineDiff, incomplete, incompleteDiff,
      complete, completeDiff, overdue, overdueDiff)
  }

  /** An incomplete task in scope, created this month and due today or earlier, is counted as overdue. */
  lemma DueTodayIsOverdue(rows: seq<Doc>, scope: Doc -> bool, assignee: Value, today: string, w: Window, d: Doc)
    requires d in rows && scope(d) && CreatedIn(d, w) && !Done(d) && FieldIs(d, "dueDate", today)
    ensures Count(rows, scope, Overdue, assignee, today, w) > 0
  {
    TextAtMostReflexive(today);
    var i :| 0 <= i < |rows| && rows[i] == d;
    assert Query(scope, Overdue, assignee, today, w)(rows[i]);
    assert d in Filter(rows, Query(scope, Overdue, assignee, today, w));
  }
}
