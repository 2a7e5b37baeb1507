/**
 * The tasks API: deleting, reading and listing tasks, creating a task at
 * the next board position with a resolved assignee, patching the fields a
 * request supplies, and the drag-and-drop bulk move. Every handler first
 * checks that the caller is a member of the task's workspace; the checks
 * are decision functions over a snapshot of the tables, and the handlers
 * that write are methods on the store.
 *
 * Due dates are stored as their `YYYY-MM-DD` text; turning a request's
 * date into that text is calendar arithmetic and arrives already done.
 */
module TasksRoute {
  import opened Common
  import opened DbHelpers
  import opened MemberLookup

  const TaskNotFound: string := "Task not found"
  const AssigneeOutsideWorkspace: string := "Assignee is not a member of this workspace"
  const NoTasksFound: string := "No tasks found"
  const MixedWorkspaces: string := "All tasks must belong to the same workspace"

  function AssigneeNotFound(assigneeId: string): string
  {
    "Assignee with ID " + assigneeId + " not found"
  }

  /** The text the tasks table stores for a status. */
  function StatusValue(s: TaskStatus): Value
  {
    VStr(StatusName(s))
  }

  /**
   * The gate of DELETE, PATCH and GET `/:taskId`: the task exists (404),
   * and the caller is a member of its workspace (401).
   */
  function TaskGate(t: Tables, userId: string, taskId: string): (r: Result<Doc, Failure>)
    requires WellFormed(t)
    ensures r.Err? ==> r.error == NotFound(TaskNotFound) || r.error == Unauthorized
    ensures r == Err(NotFound(TaskNotFound)) <==> IdFree(Rows(t, TASKS), taskId)
    ensures r.Ok? ==>
      r.value in Rows(t, TASKS) && HasId(r.value, taskId) &&
      HasMembership(t, userId, StrField(r.value, "workspaceId"), None)
  {
    match FindById(Rows(t, TASKS), taskId)
    case None => Err(NotFound(TaskNotFound))
    case Some(task) =>
      if GetMember(t, userId, StrField(task, "workspaceId"), None).None? then Err(Unauthorized) else Ok(task)
  }

  /** The gate refuses with 401 exactly a caller outside the workspace of the task the id names. */
  lemma TaskGateRefuses(t: Tables, userId: string, taskId: string, i: int)
    requires WellFormed(t) && 0 <= i < |Rows(t, TASKS)| && HasId(Rows(t, TASKS)[i], taskId)
    ensures TaskGate(t, userId, taskId) == Err(Unauthorized) <==>
      !HasMembership(t, userId, StrField(Rows(t, TASKS)[i], "workspaceId"), None)
    ensures TaskGate(t, userId, taskId).Ok? ==> TaskGate(t, userId, taskId).value == Rows(t, TASKS)[i]
  {
    assert TASKS in t;
    FindByIdUnique(Rows(t, TASKS), taskId, i);
  }

  /** DELETE `/:taskId`: behind the gate, removes the task's row and nothing else. */
  method DeleteTask(db: Database, userId: string, taskId: string) returns (r: Response<string>)
    requires db.Valid()
    modifies db
    ensures db.Valid()
    ensures var g := TaskGate(old(db.tables), userId, taskId);
      g.Err? ==> r == Failed(g.error) && db.tables == old(db.tables)
    ensures var g := TaskGate(old(db.tables), userId, taskId);
      g.Ok? ==>
        r == Success(taskId) &&
        (exists i :: 0 <= i < |old(db.tables)[TASKS]| && old(db.tables)[TASKS][i] == g.value &&
          db.tables == old(db.tables)[TASKS := old(db.tables)[TASKS][..i] + old(db.tables)[TASKS][i + 1..]])
  {
    var g := TaskGate(db.tables, userId, taskId);
    if g.Err? {
      return Failed(g.error);
    }
    var rows := db.tables[TASKS];
    var i :| 0 <= i < |rows| && rows[i] == g.value;
    DeleteRemovesOne(rows, taskId, i);
    var _ := db.Delete(TASKS, taskId);
    r := Success(taskId);
  }

  /** The project a task row points at: looked up only when its `projectId` is truthy. */
  function ProjectOf(t: Tables, task: Doc): (r: Option<Doc>)
    requires WellFormed(t)
    ensures r.Some? <==> Truthy(StrField(task, "projectId")) && !IdFree(Rows(t, PROJECTS), StrField(task, "projectId").value)
    ensures r.Some? ==> r.value in Rows(t, PROJECTS) && HasId(r.value, StrField(task, "projectId").value) && "id" in r.value
  {
    var projectId := StrField(task, "projectId");
    if Truthy(projectId) then FindById(Rows(t, PROJECTS), projectId.value) else None
  }

  /** A task in its response shape, with its project in the same shape or null. */
  datatype TaskView = TaskView(task: Doc, project: Option<Doc>)

  function ViewOf(t: Tables, task: Doc): (r: TaskView)
    requires WellFormed(t) && task in Rows(t, TASKS)
    ensures "$id" in r.task && r.task["$id"] == task["id"] && "id" !in r.task
    ensures SortValue(r.task, "createdAt") == SortValue(task, "createdAt")
    ensures r.project.Some? <==> ProjectOf(t, task).Some?
  {
    RowsHaveIds(t, TASKS, task);
    var shaped := ToApiResponse(Some(task)).value;
    assert |"createdAt"| != |"id"| && |"createdAt"| != |"$id"|;
    assert ("createdAt" in shaped) == ("createdAt" in task);
    TaskView(shaped, ToApiResponse(ProjectOf(t, task)))
  }

  /** GET `/:taskId`: behind the gate, the task with its project. */
  function GetTask(t: Tables, userId: string, taskId: string): (r: Response<TaskView>)
    requires WellFormed(t)
    ensures r.Failed? <==> TaskGate(t, userId, taskId).Err?
    ensures r.Failed? ==> r.failure == TaskGate(t, userId, taskId).error
    ensures r.Success? ==>
      exists d :: d in Rows(t, TASKS) && HasId(d, taskId) && r.data == ViewOf(t, d)
    ensures r.Success? ==> "$id" in r.data.task && r.data.task["$id"] == VStr(taskId)
  {
    match TaskGate(t, userId, taskId)
    case Err(e) => Failed(e)
    case Ok(task) => Success(ViewOf(t, task))
  }

  /**
   * The query of GET `/`: a workspace, and the optional narrowing by
   * project, status, assignee, due date and a name search.
   */
  datatype TaskQuery = TaskQuery(
    workspaceId: string,
    projectId: Option<string>,
    assigneeId: Option<string>,
    status: Option<TaskStatus>,
    search: Option<string>,
    dueDate: Option<string>)

  /** The conditions of the list query: the workspace, then each truthy filter. */
  predicate MatchesQuery(q: TaskQuery, d: Doc)
  {
    FieldIs(d, "workspaceId", q.workspaceId) &&
    (Truthy(q.projectId) ==> FieldIs(d, "projectId", q.projectId.value)) &&
    (q.status.Some? ==> "status" in d && d["status"] == StatusValue(q.status.value)) &&
    (Truthy(q.assigneeId) ==> FieldIs(d, "assigneeId", q.assigneeId.value)) &&
    (Truthy(q.dueDate) ==> FieldIs(d, "dueDate", q.dueDate.value)) &&
    (Truthy(q.search) ==> StrField(d, "name").Some? && Contains(StrField(d, "name").value, q.search.value))
  }

  function QueryMatcher(q: TaskQuery): Doc -> bool
  {
    d => MatchesQuery(q, d)
  }

  /** The rows the list query selects, newest first. */
  function MatchingTasks(t: Tables, q: TaskQuery): (r: seq<Doc>)
    ensures |r| == |Filter(Rows(t, TASKS), QueryMatcher(q))|
    ensures forall d :: d in r <==> d in Rows(t, TASKS) && MatchesQuery(q, d)
    ensures multiset(r) == multiset(Filter(Rows(t, TASKS), QueryMatcher(q)))
    ensures NewestFirst(r)
  {
    var selected := Filter(Rows(t, TASKS), QueryMatcher(q));
    SortByMembers(selected, SortKey("createdAt", Descending));
    SortedDescendingIsNewestFirst(selected);
    SortBy(selected, SortKey("createdAt", Descending))
  }

  /** The task list in its response shape. */
  datatype TaskList = TaskList(documents: seq<TaskView>, total: nat)

  /** GET `/`: for a member of the workspace, every task the query selects, newest first, with its project. */
  function ListTasks(t: Tables, userId: string, q: TaskQuery): (r: Response<TaskList>)
    requires WellFormed(t)
    ensures r.Failed? <==> !HasMembership(t, userId, Some(q.workspaceId), None)
    ensures r.Failed? ==> r.failure == Unauthorized
    ensures r.Success? ==> r.data.total == |r.data.documents| == |Filter(Rows(t, TASKS), QueryMatcher(q))|
    ensures r.Success? ==> |r.data.documents| == |MatchingTasks(t, q)|
    ensures r.Success? ==>
      forall i :: 0 <= i < |r.data.documents| ==> r.data.documents[i] == ViewOf(t, MatchingTasks(t, q)[i])
  {
    if GetMember(t, userId, Some(q.workspaceId), None).None? then Failed(Unauthorized)
    else
      var tasks := MatchingTasks(t, q);
      Success(TaskList(Views(t, tasks), |tasks|))
  }

  /** Each stored task with its project, in order. */
  function Views(t: Tables, tasks: seq<Doc>): (r: seq<TaskView>)
    requires WellFormed(t) && forall d :: d in tasks ==> d in Rows(t, TASKS)
    ensures |r| == |tasks| && forall i :: 0 <= i < |r| ==> r[i] == ViewOf(t, tasks[i])
  {
    seq(|tasks|, i requires 0 <= i < |tasks| => ViewOf(t, tasks[i]))
  }

  /** The listing is newest first, as its `createdAt desc` order promises. */
  lemma ListTasksNewestFirst(t: Tables, userId: string, q: TaskQuery)
    requires WellFormed(t) && ListTasks(t, userId, q).Success?
    ensures var docs := ListTasks(t, userId, q).data.documents;
      forall i, j :: 0 <= i < j < |docs| ==>
        SortValue(docs[i].task, "createdAt") >= SortValue(docs[j].task, "createdAt")
  {
    var docs := ListTasks(t, userId, q).data.documents;
    var tasks := MatchingTasks(t, q);
    assert NewestFirst(tasks);
    forall i, j | 0 <= i < j < |docs|
      ensures SortValue(docs[i].task, "createdAt") >= SortValue(docs[j].task, "createdAt")
    {
      assert docs[i] == ViewOf(t, tasks[i]) && docs[j] == ViewOf(t, tasks[j]);
    }
  }

  /** The board column of a status in a workspace: the rows the position query selects. */
  predicate InColumn(d: Doc, workspaceId: string, status: TaskStatus)
  {
    "status" in d && d["status"] == StatusValue(status) && FieldIs(d, "workspaceId", workspaceId)
  }

  function ColumnMatcher(workspaceId: string, status: TaskStatus): Doc -> bool
  {
    d => InColumn(d, workspaceId, status)
  }

  function Column(t: Tables, workspaceId: string, status: TaskStatus): seq<Doc>
  {
    Filter(Rows(t, TASKS), ColumnMatcher(workspaceId, status))
  }

  /**
   * The position of a new task: the column's rows ordered by ascending
   * position, the first one's position plus 1000; 1000 for an empty column.
   * The first row in that order holds the LOWEST position, so a new task
   * lands 1000 after the column's lowest task rather than after its last.
   */
  function NewPosition(t: Tables, workspaceId: string, status: TaskStatus): (r: int)
    ensures (forall d :: d in Rows(t, TASKS) ==> !InColumn(d, workspaceId, status)) ==> r == 1000
    ensures (exists d :: d in Rows(t, TASKS) && InColumn(d, workspaceId, status)) ==>
      exists low :: low in Rows(t, TASKS) && InColumn(low, workspaceId, status) &&
        r == SortValue(low, "position") + 1000 &&
        forall d :: d in Rows(t, TASKS) && InColumn(d, workspaceId, status) ==> SortValue(low, "position") <= SortValue(d, "position")
  {
    var column := Column(t, workspaceId, status);
    if column == [] then
      1000
    else
      var key := SortKey("position", Ascending);
      SortedFrontIsLeast(column, key);
      var first := SortBy(column, key)[0];
      assert forall d :: key(d) == SortValue(d, "position");
      SortValue(first, "position") + 1000
  }

  /**
   * The new position is not past the column's end: with two tasks in the
   * column 1000 apart, the lower at the column's minimum, the new task
   * takes the higher one's position.
   */
  lemma NewPositionCanCollide(t: Tables, workspaceId: string, status: TaskStatus, low: Doc, high: Doc)
    requires low in Rows(t, TASKS) && InColumn(low, workspaceId, status)
    requires high in Rows(t, TASKS) && InColumn(high, workspaceId, status)
    requires forall d :: d in Rows(t, TASKS) && InColumn(d, workspaceId, status) ==> SortValue(low, "position") <= SortValue(d, "position")
    requires SortValue(high, "position") == SortValue(low, "position") + 1000
    ensures NewPosition(t, workspaceId, status) == SortValue(high, "position")
  {
    var least :| least in Rows(t, TASKS) && InColumn(least, workspaceId, status) &&
      NewPosition(t, workspaceId, status) == SortValue(least, "position") + 1000 &&
      forall d :: d in Rows(t, TASKS) && InColumn(d, workspaceId, status) ==> SortValue(least, "position") <= SortValue(d, "position");
    assert SortValue(least, "position") == SortValue(low, "position");
  }

  /**
   * Resolves a requested assignee for a task of the given workspace. The
   * id is tried first as a membership row, whose user is then stored; then
   * as a user who must be a member of the workspace. An absent or empty id
   * leaves the task unassigned. What resolution accepts: a membership row
   * of this workspace, whose user is stored, or an existing user with a
   * membership in it, stored as is.
   */
  function ResolveAssignee(t: Tables, workspaceId: Option<string>, assigneeId: Option<string>): (r: Result<Option<string>, Failure>)
    requires WellFormed(t)
    ensures !Truthy(assigneeId) ==> r == Ok(None)
    ensures r.Err? ==> r.error == BadRequest(AssigneeOutsideWorkspace) || r.error == BadRequest(AssigneeNotFound(assigneeId.value))
    ensures Truthy(assigneeId) && r.Ok? ==>
      (exists m :: m in Rows(t, MEMBERS) && HasId(m, assigneeId.value) &&
         StrField(m, "workspaceId") == workspaceId && r.value == StrField(m, "userId")) ||
      (IdFree(Rows(t, MEMBERS), assigneeId.value) && !IdFree(Rows(t, USERS), assigneeId.value) &&
         HasMembership(t, assigneeId.value, workspaceId, None) && r.value == assigneeId)
    ensures Truthy(assigneeId) ==>
      forall m :: m in Rows(t, MEMBERS) && HasId(m, assigneeId.value) && StrField(m, "workspaceId") == workspaceId ==>
        r == Ok(StrField(m, "userId"))
    ensures Truthy(assigneeId) && IdFree(Rows(t, MEMBERS), assigneeId.value) && !IdFree(Rows(t, USERS), assigneeId.value) ==>
      (HasMembership(t, assigneeId.value, workspaceId, None) ==> r == Ok(assigneeId))
  {
    if !Truthy(assigneeId) then Ok(None)
    else
      var id := assigneeId.value;
      assert UniqueIds(Rows(t, MEMBERS)) by {
        if MEMBERS in t { assert UniqueIds(t[MEMBERS]); }
      }
      FoundById(Rows(t, MEMBERS), id);
      match FindById(Rows(t, MEMBERS), id)
      case Some(member) =>
        if StrField(member, "workspaceId") != workspaceId then Err(BadRequest(AssigneeOutsideWorkspace))
        else Ok(StrField(member, "userId"))
      case None =>
        if FindById(Rows(t, USERS), id).None? then Err(BadRequest(AssigneeNotFound(id)))
        else if GetMember(t, id, workspaceId, None).None? then Err(BadRequest(AssigneeOutsideWorkspace))
        else Ok(Some(id))
  }

  /** What resolution refuses: a membership row of another workspace, an unknown id, or a user outside the workspace. */
  lemma ResolveAssigneeRefuses(t: Tables, workspaceId: Option<string>, assigneeId: Option<string>)
    requires WellFormed(t) && Truthy(assigneeId)
    ensures ResolveAssignee(t, workspaceId, assigneeId) == Err(BadRequest(AssigneeNotFound(assigneeId.value))) <==>
      IdFree(Rows(t, MEMBERS), assigneeId.value) && IdFree(Rows(t, USERS), assigneeId.value)
    ensures (exists m :: m in Rows(t, MEMBERS) && HasId(m, assigneeId.value) && StrField(m, "workspaceId") != workspaceId) ==>
      ResolveAssignee(t, workspaceId, assigneeId) == Err(BadRequest(AssigneeOutsideWorkspace))
    ensures IdFree(Rows(t, MEMBERS), assigneeId.value) && !IdFree(Rows(t, USERS), assigneeId.value) ==>
      (ResolveAssignee(t, workspaceId, assigneeId).Err? <==> !HasMembership(t, assigneeId.value, workspaceId, None))
  {
    var id := assigneeId.value;
    assert AssigneeOutsideWorkspace != AssigneeNotFound(id) by {
      assert AssigneeOutsideWorkspace[9] == 'i' && AssigneeNotFound(id)[9] == 'w';
    }
    if m :| m in Rows(t, MEMBERS) && HasId(m, id) && StrField(m, "workspaceId") != workspaceId {
      var rows := Rows(t, MEMBERS);
      var i :| 0 <= i < |rows| && rows[i] == m;
      assert MEMBERS in t;
      FindByIdUnique(rows, id, i);
    }
  }

  /** The task columns a request writes are distinct from each other and from the stamped ones. */
  lemma TaskKeysDistinct()
    ensures "name" != "status" && "name" != "workspaceId" && "name" != "dueDate" && "name" != "position"
    ensures "name" != "projectId" && "name" != "assigneeId" && "name" != "description" && "name" != "id"
    ensures "name" != "createdAt" && "name" != "updatedAt" && "status" != "workspaceId" && "status" != "dueDate"
    ensures "status" != "position" && "status" != "projectId" && "status" != "assigneeId" && "status" != "description"
    ensures "status" != "id" && "status" != "createdAt" && "status" != "updatedAt" && "workspaceId" != "dueDate"
    ensures "workspaceId" != "position" && "workspaceId" != "projectId" && "workspaceId" != "assigneeId" && "workspaceId" != "description"
    ensures "workspaceId" != "id" && "workspaceId" != "createdAt" && "workspaceId" != "updatedAt" && "dueDate" != "position"
    ensures "dueDate" != "projectId" && "dueDate" != "assigneeId" && "dueDate" != "description" && "dueDate" != "id"
    ensures "dueDate" != "createdAt" && "dueDate" != "updatedAt" && "position" != "projectId" && "position" != "assigneeId"
    ensures "position" != "description" && "position" != "id" && "position" != "createdAt" && "position" != "updatedAt"
    ensures "projectId" != "assigneeId" && "projectId" != "description" && "projectId" != "id" && "projectId" != "createdAt"
    ensures "projectId" != "updatedAt" && "assigneeId" != "description" && "assigneeId" != "id" && "assigneeId" != "createdAt"
    ensures "assigneeId" != "updatedAt" && "description" != "id" && "description" != "createdAt" && "description" != "updatedAt"
  {
    assert |"name"| == 4 && "name"[0] == 'n';
    assert |"status"| == 6 && "status"[0] == 's';
    assert |"workspaceId"| == 11 && "workspaceId"[0] == 'w';
    assert |"dueDate"| == 7 && "dueDate"[0] == 'd';
    assert |"position"| == 8 && "position"[0] == 'p';
    assert |"projectId"| == 9 && "projectId"[0] == 'p';
    assert |"assigneeId"| == 10 && "assigneeId"[0] == 'a';
    assert |"description"| == 11 && "description"[0] == 'd';
    assert |"id"| == 2 && "id"[0] == 'i';
    assert |"createdAt"| == 9 && "createdAt"[0] == 'c';
    assert |"updatedAt"| == 9 && "updatedAt"[0] == 'u';
  }

  /** A create request after the schema: trimmed texts, status defaulted, due date already formatted. */
  datatype CreateTaskInput = CreateTaskInput(
    name: string,
    status: TaskStatus,
    workspaceId: string,
    projectId: Option<string>,
    dueDate: string,
    assigneeId: Option<string>,
    description: Option<string>)

  /** The document POST `/` inserts, given the new position and the resolved assignee. */
  function NewTaskData(input: CreateTaskInput, position: int, assignee: Option<string>): (r: Doc)
    ensures "id" !in r && "createdAt" !in r && "updatedAt" !in r
    ensures r.Keys <= TaskColumns
    ensures "name" in r && "status" in r && "workspaceId" in r && "dueDate" in r && "position" in r
    ensures r["name"] == VStr(input.name) && r["status"] == StatusValue(input.status)
    ensures r["workspaceId"] == VStr(input.workspaceId) && r["dueDate"] == VStr(input.dueDate)
    ensures r["position"] == VInt(position)
    ensures ("projectId" in r <==> Truthy(input.projectId)) && ("projectId" in r ==> r["projectId"] == VStr(input.projectId.value))
    ensures ("assigneeId" in r <==> assignee.Some?) && ("assigneeId" in r ==> r["assigneeId"] == VStr(assignee.value))
    ensures ("description" in r <==> Truthy(input.description)) && ("description" in r ==> r["description"] == VStr(input.description.value))
  {
    TaskKeysDistinct();
    var base := map[
      "name" := VStr(input.name),
      "status" := StatusValue(input.status),
      "workspaceId" := VStr(input.workspaceId),
      "dueDate" := VStr(input.dueDate),
      "position" := VInt(position)];
    var withProject := if Truthy(input.projectId) then base["projectId" := VStr(input.projectId.value)] else base;
    var withAssignee := if assignee.Some? then withProject["assigneeId" := VStr(assignee.value)] else withProject;
    if Truthy(input.description) then withAssignee["description" := VStr(input.description.value)] else withAssignee
  }

  /**
   * The checks of POST `/`, in order: membership of the workspace (401),
   * then the assignee (400); on success, the document to insert.
   */
  function CreateDecision(t: Tables, userId: string, input: CreateTaskInput): (r: Result<Doc, Failure>)
    requires WellFormed(t)
    ensures r == Err(Unauthorized) <==> !HasMembership(t, userId, Some(input.workspaceId), None)
    ensures r.Err? && r.error != Unauthorized ==>
      ResolveAssignee(t, Some(input.workspaceId), input.assigneeId) == Err(r.error)
    ensures r.Ok? ==> "position" in r.value && "status" in r.value && "workspaceId" in r.value
    ensures r.Ok? ==>
      r.value["position"] == VInt(NewPosition(t, input.workspaceId, input.status)) &&
      r.value["status"] == StatusValue(input.status) && r.value["workspaceId"] == VStr(input.workspaceId)
    ensures r.Ok? ==>
      ResolveAssignee(t, Some(input.workspaceId), input.assigneeId).Ok? &&
      ("assigneeId" in r.value <==> ResolveAssignee(t, Some(input.workspaceId), input.assigneeId).value.Some?)
    ensures r.Ok? ==>
      r.value == NewTaskData(input, NewPosition(t, input.workspaceId, input.status),
        ResolveAssignee(t, Some(input.workspaceId), input.assigneeId).value)
  {
    if GetMember(t, userId, Some(input.workspaceId), None).None? then Err(Unauthorized)
    else
      match ResolveAssignee(t, Some(input.workspaceId), input.assigneeId)
      case Err(e) => Err(e)
      case Ok(assignee) => Ok(NewTaskData(input, NewPosition(t, input.workspaceId, input.status), assignee))
  }

  /** POST `/`: behind the checks, inserts one task row and answers it in response shape. */
  method CreateTask(db: Database, userId: string, input: CreateTaskInput, now: int, newId: string, defaults: Doc)
    returns (r: Response<Doc>)
    requires db.Valid() && IdFree(db.tables[TASKS], newId)
    modifies db
    ensures db.Valid()
    ensures var d := CreateDecision(old(db.tables), userId, input);
      d.Err? ==> r == Failed(d.error) && db.tables == old(db.tables)
    ensures var d := CreateDecision(old(db.tables), userId, input);
      d.Ok? ==>
        var row := NewRow(TASKS, d.value, now, newId, defaults);
        db.tables == old(db.tables)[TASKS := old(db.tables)[TASKS] + [row]] &&
        r == Success(ToApiResponse(Some(row)).value)
  {
    var d := CreateDecision(db.tables, userId, input);
    if d.Err? {
      return Failed(d.error);
    }
    var created := db.Create(TASKS, d.value, now, newId, defaults);
    r := Success(ToApiResponse(Some(created.value)).value);
  }

  /** The inserted row holds the request's fields, the computed position and the creation time. */
  lemma CreatedTaskRow(t: Tables, userId: string, input: CreateTaskInput, now: int, newId: string, defaults: Doc)
    requires WellFormed(t) && CreateDecision(t, userId, input).Ok?
    ensures var row := NewRow(TASKS, CreateDecision(t, userId, input).value, now, newId, defaults);
      HasId(row, newId) && row["createdAt"] == VTime(now) &&
      FieldIs(row, "name", input.name) && FieldIs(row, "workspaceId", input.workspaceId) &&
      "status" in row && row["status"] == StatusValue(input.status) &&
      "position" in row && row["position"] == VInt(NewPosition(t, input.workspaceId, input.status))
  {
    TaskKeysDistinct();
  }

  /**
   * A PATCH request after the partial schema: each field is absent or
   * supplied; `assigneeId` may also be supplied as null (`Some(None)`).
   */
  datatype TaskPatch = TaskPatch(
    name: Option<string>,
    status: Option<TaskStatus>,
    projectId: Option<string>,
    dueDate: Option<string>,
    assigneeId: Option<Option<string>>,
    description: Option<string>)

  /** The stored value of a resolved assignee: its user id, or null. */
  function AssigneeValue(assignee: Option<string>): Value
  {
    if assignee.Some? then VStr(assignee.value) else VNull
  }

  /** The assignee a patch asks for, resolved against the task's workspace; unassigned when none is asked for. */
  function PatchAssignee(t: Tables, workspaceId: Option<string>, p: TaskPatch): Result<Option<string>, Failure>
    requires WellFormed(t)
  {
    if p.assigneeId.Some? then ResolveAssignee(t, workspaceId, p.assigneeId.value) else Ok(None)
  }

  /**
   * The update data of PATCH `/:taskId`: a column for each supplied field
   * and no other, the assignee resolved first (400 when it fails).
   */
  function TaskUpdateData(t: Tables, workspaceId: Option<string>, p: TaskPatch): (r: Result<Doc, Failure>)
    requires WellFormed(t)
    ensures r.Err? <==> p.assigneeId.Some? && ResolveAssignee(t, workspaceId, p.assigneeId.value).Err?
    ensures r.Ok? ==> r.value.Keys <= {"name", "status", "projectId", "dueDate", "assigneeId", "description"}
    ensures r.Ok? ==> (
      ("name" in r.value <==> p.name.Some?) && ("status" in r.value <==> p.status.Some?) &&
      ("projectId" in r.value <==> p.projectId.Some?) && ("dueDate" in r.value <==> p.dueDate.Some?) &&
      ("assigneeId" in r.value <==> p.assigneeId.Some?) && ("description" in r.value <==> p.description.Some?))
  {
    TaskKeysDistinct();
    match PatchAssignee(t, workspaceId, p)
    case Err(e) => Err(e)
    case Ok(assignee) =>
      var withName := if p.name.Some? then map["name" := VStr(p.name.value)] else map[];
      var withStatus := if p.status.Some? then withName["status" := StatusValue(p.status.value)] else withName;
      var withProject := if p.projectId.Some? then withStatus["projectId" := VStr(p.projectId.value)] else withStatus;
      var withDue := if p.dueDate.Some? then withProject["dueDate" := VStr(p.dueDate.value)] else withProject;
      var withAssignee := if p.assigneeId.Some? then withDue["assigneeId" := AssigneeValue(assignee)] else withDue;
      Ok(if p.description.Some? then withAssignee["description" := VStr(p.description.value)] else withAssignee)
  }

  /** The supplied fields are written as given; a null or empty assignee clears the assignee to null. */
  lemma TaskUpdateValues(t: Tables, workspaceId: Option<string>, p: TaskPatch)
    requires WellFormed(t) && TaskUpdateData(t, workspaceId, p).Ok?
    ensures var data := TaskUpdateData(t, workspaceId, p).value;
      (p.name.Some? ==> data["name"] == VStr(p.name.value)) &&
      (p.status.Some? ==> data["status"] == StatusValue(p.status.value)) &&
      (p.projectId.Some? ==> data["projectId"] == VStr(p.projectId.value)) &&
      (p.dueDate.Some? ==> data["dueDate"] == VStr(p.dueDate.value)) &&
      (p.description.Some? ==> data["description"] == VStr(p.description.value))
    ensures var data := TaskUpdateData(t, workspaceId, p).value;
      p.assigneeId.Some? ==>
        data["assigneeId"] == AssigneeValue(ResolveAssignee(t, workspaceId, p.assigneeId.value).value) &&
        (!Truthy(p.assigneeId.value) ==> data["assigneeId"] == VNull)
  {
    TaskKeysDistinct();
  }

  /** `updateData`, built one supplied field at a time; a failed assignee stops the build. */
  method BuildTaskUpdate(t: Tables, workspaceId: Option<string>, p: TaskPatch) returns (r: Result<Doc, Failure>)
    requires WellFormed(t)
    ensures r == TaskUpdateData(t, workspaceId, p)
  {
    var data: Doc := map[];
    if p.name.Some? {
      data := data["name" := VStr(p.name.value)];
    }
    if p.status.Some? {
      data := data["status" := StatusValue(p.status.value)];
    }
    if p.projectId.Some? {
      data := data["projectId" := VStr(p.projectId.value)];
    }
    if p.dueDate.Some? {
      data := data["dueDate" := VStr(p.dueDate.value)];
    }
    if p.assigneeId.Some? {
      var resolved := ResolveAssignee(t, workspaceId, p.assigneeId.value);
      if resolved.Err? {
        return Err(resolved.error);
      }
      data := data["assigneeId" := AssigneeValue(resolved.value)];
    }
    if p.description.Some? {
      data := data["description" := VStr(p.description.value)];
    }
    r := Ok(data);
  }

  /**
   * PATCH `/:taskId`: behind the gate and the assignee check, patches the
   * task's row with the supplied fields and `updatedAt`, and answers the
   * patched row.
   */
  method PatchTask(db: Database, userId: string, taskId: string, p: TaskPatch, now: int) returns (r: Response<Doc>)
    requires db.Valid()
    modifies db
    ensures db.Valid()
    ensures var g := TaskGate(old(db.tables), userId, taskId);
      g.Err? ==> r == Failed(g.error) && db.tables == old(db.tables)
    ensures var g := TaskGate(old(db.tables), userId, taskId);
      g.Ok? ==>
        var d := TaskUpdateData(old(db.tables), StrField(g.value, "workspaceId"), p);
        (d.Err? ==> r == Failed(d.error) && db.tables == old(db.tables)) &&
        (d.Ok? ==>
          exists i :: 0 <= i < |old(db.tables)[TASKS]| && old(db.tables)[TASKS][i] == g.value &&
            var patched := g.value + UpdatePatch(TASKS, d.value, now);
            db.tables == old(db.tables)[TASKS := old(db.tables)[TASKS][i := patched]] &&
            r == Success(ToApiResponse(Some(patched)).value))
  {
    var g := TaskGate(db.tables, userId, taskId);
    if g.Err? {
      return Failed(g.error);
    }
    var d := BuildTaskUpdate(db.tables, StrField(g.value, "workspaceId"), p);
    if d.Err? {
      return Failed(d.error);
    }
    var rows := db.tables[TASKS];
    var i :| 0 <= i < |rows| && rows[i] == g.value;
    var patch := UpdatePatch(TASKS, d.value, now);
    PatchKeepsIdentity(d.value, now);
    UpdateOneRow(rows, taskId, i, patch);
    var updated := db.Update(TASKS, taskId, d.value, now);
    r := Success(ToApiResponse(updated.value).value);
  }

  /** A patch never writes the task's id, creation time, workspace or position. */
  lemma PatchKeepsIdentity(data: Doc, now: int)
    requires data.Keys <= {"name", "status", "projectId", "dueDate", "assigneeId", "description"}
    ensures var patch := UpdatePatch(TASKS, data, now);
      "id" !in patch && "createdAt" !in patch && "workspaceId" !in patch && "position" !in patch
  {
    TaskKeysDistinct();
  }

  /**
   * Only supplied fields change: every column of the stored task outside
   * the update data keeps its value, `updatedAt` aside, and the task stays
   * in its workspace at its position.
   */
  lemma PatchChangesOnlySupplied(row: Doc, t: Tables, workspaceId: Option<string>, p: TaskPatch, now: int)
    requires WellFormed(t) && TaskUpdateData(t, workspaceId, p).Ok?
    ensures var data := TaskUpdateData(t, workspaceId, p).value;
      var patched := row + UpdatePatch(TASKS, data, now);
      (forall k :: k in row && k !in data && k != "updatedAt" ==> k in patched && patched[k] == row[k]) &&
      (forall k :: k in patched ==> k in row || k in data || k == "updatedAt") &&
      ("workspaceId" in row ==> patched["workspaceId"] == row["workspaceId"]) &&
      ("position" in row ==> patched["position"] == row["position"])
  {
    var data := TaskUpdateData(t, workspaceId, p).value;
    PatchKeepsIdentity(data, now);
  }

  /** One entry of a bulk move: a task id with its new status and position. */
  datatype BulkItem = BulkItem(id: string, status: TaskStatus, position: int)

  /** The schema's bounds on a moved task's position: an integer in [1000, 1000000]. */
  predicate ValidPosition(position: int)
  {
    1000 <= position <= 1000000
  }

  /** Whether a row is one of the listed tasks. */
  predicate Listed(d: Doc, items: seq<BulkItem>)
  {
    exists k :: 0 <= k < |items| && HasId(d, items[k].id)
  }

  function ListedMatcher(items: seq<BulkItem>): Doc -> bool
  {
    d => Listed(d, items)
  }

  /** The stored tasks the request names, as `inArray(tasks.id, ids)` selects them. */
  function ExistingTasks(t: Tables, items: seq<BulkItem>): (r: seq<Doc>)
    ensures forall d :: d in r <==> d in Rows(t, TASKS) && Listed(d, items)
  {
    Filter(Rows(t, TASKS), ListedMatcher(items))
  }

  function WorkspaceValue(d: Doc): Value
  {
    if "workspaceId" in d then d["workspaceId"] else VNull
  }

  /** The set of workspace ids among the found tasks. */
  function Workspaces(existing: seq<Doc>): set<Value>
  {
    set d | d in existing :: WorkspaceValue(d)
  }

  /** A one-element set of workspaces: every found task shares the first one's workspace. */
  lemma OneWorkspace(existing: seq<Doc>)
    requires existing != []
    ensures |Workspaces(existing)| == 1 <==> forall d :: d in existing ==> WorkspaceValue(d) == WorkspaceValue(existing[0])
  {
    var ws := Workspaces(existing);
    var w0 := WorkspaceValue(existing[0]);
    assert w0 in ws;
    if forall d :: d in existing ==> WorkspaceValue(d) == w0 {
      assert ws == {w0};
    }
    if |ws| == 1 {
      forall d | d in existing ensures WorkspaceValue(d) == w0 {
        assert WorkspaceValue(d) in ws;
        assert |ws - {w0}| == 0;
        assert WorkspaceValue(d) in ws - {w0} || WorkspaceValue(d) == w0;
      }
    }
  }

  /**
   * The checks of `/bulk-update`, in order: the schema's position bounds
   * (400), some named task exists (404), the found tasks share one
   * workspace (400), the caller is a member of it (401). On success, the
   * workspace.
   */
  function BulkDecision(t: Tables, userId: string, items: seq<BulkItem>): (r: Result<Option<string>, Failure>)
    requires WellFormed(t)
    ensures r == Err(ValidationFailed) <==> exists k :: 0 <= k < |items| && !ValidPosition(items[k].position)
    ensures r == Err(NotFound(NoTasksFound)) <==>
      (forall k :: 0 <= k < |items| ==> ValidPosition(items[k].position)) &&
      (forall d :: d in Rows(t, TASKS) ==> !Listed(d, items))
    ensures r.Err? ==> r.error in {ValidationFailed, NotFound(NoTasksFound), BadRequest(MixedWorkspaces), Unauthorized}
    ensures r.Ok? ==> forall k :: 0 <= k < |items| ==> ValidPosition(items[k].position)
    ensures r.Ok? ==> HasMembership(t, userId, r.value, None)
    ensures r.Ok? ==> forall d :: d in Rows(t, TASKS) && Listed(d, items) ==> StrField(d, "workspaceId") == r.value
    ensures var existing := ExistingTasks(t, items);
      (forall k :: 0 <= k < |items| ==> ValidPosition(items[k].position)) && existing != [] ==>
        if |Workspaces(existing)| != 1 then r == Err(BadRequest(MixedWorkspaces))
        else
          var w := StrField(existing[0], "workspaceId");
          r == (if HasMembership(t, userId, w, None) then Ok(w) else Err(Unauthorized))
  {
    if exists k :: 0 <= k < |items| && !ValidPosition(items[k].position) then Err(ValidationFailed)
    else
      var existing := ExistingTasks(t, items);
      if existing == [] then Err(NotFound(NoTasksFound))
      else
        assert existing[0] in existing;
        if |Workspaces(existing)| != 1 then Err(BadRequest(MixedWorkspaces))
      else
        var workspaceId := StrField(existing[0], "workspaceId");
        OneWorkspace(existing);
        assert forall d :: d in existing ==> StrField(d, "workspaceId") == workspaceId;
        if GetMember(t, userId, workspaceId, None).None? then Err(Unauthorized) else Ok(workspaceId)
  }

  /** An empty request names no task, so it finds none: 404, with an empty `inArray` selecting no rows. */
  lemma BulkEmptyNotFound(t: Tables, userId: string)
    requires WellFormed(t)
    ensures BulkDecision(t, userId, []) == Err(NotFound(NoTasksFound))
  {
  }

  /** Found tasks from two workspaces are refused with 400. */
  lemma BulkMixedRefused(t: Tables, userId: string, items: seq<BulkItem>, a: Doc, b: Doc)
    requires WellFormed(t) && forall k :: 0 <= k < |items| ==> ValidPosition(items[k].position)
    requires a in Rows(t, TASKS) && Listed(a, items) && b in Rows(t, TASKS) && Listed(b, items)
    requires WorkspaceValue(a) != WorkspaceValue(b)
    ensures BulkDecision(t, userId, items) == Err(BadRequest(MixedWorkspaces))
  {
    var existing := ExistingTasks(t, items);
    OneWorkspace(existing);
  }

  /** The update a move writes: its status and position. */
  function MoveData(item: BulkItem): (r: Doc)
    ensures "id" !in r && "createdAt" !in r
  {
    TaskKeysDistinct();
    map["status" := StatusValue(item.status), "position" := VInt(item.position)]
  }

  /** The columns a move writes: status, position and `updatedAt`, nothing else. */
  function MovePatch(item: BulkItem, now: int): (r: Doc)
    ensures r.Keys == {"status", "position", "updatedAt"}
    ensures r["status"] == StatusValue(item.status) && r["position"] == VInt(item.position) && r["updatedAt"] == VTime(now)
  {
    TaskKeysDistinct();
    assert "status" in TaskColumns && "position" in TaskColumns;
    UpdatePatch(TASKS, MoveData(item), now)
  }

  /** The tasks table after the moves, applied one after another. */
  function ApplyMoves(rows: seq<Doc>, items: seq<BulkItem>, now: int): (r: seq<Doc>)
    ensures |r| == |rows|
    decreases |items|
  {
    if items == [] then rows
    else
      var last := items[|items| - 1];
      UpdateRows(ApplyMoves(rows, items[..|items| - 1], now), last.id, MovePatch(last, now))
  }

  /** The answers of the moves: each one's updated row in response shape, null when its id names no task. */
  function MoveResults(rows: seq<Doc>, items: seq<BulkItem>, now: int): (r: seq<Option<Doc>>)
    ensures |r| == |items|
    decreases |items|
  {
    if items == [] then []
    else
      var last := items[|items| - 1];
      MoveResults(rows, items[..|items| - 1], now) + [ToApiResponse(FindById(ApplyMoves(rows, items, now), last.id))]
  }

  /** The k-th move extends the first k. */
  lemma MoveStep(rows: seq<Doc>, items: seq<BulkItem>, k: int, now: int)
    requires 0 <= k < |items|
    ensures ApplyMoves(rows, items[..k + 1], now) ==
      UpdateRows(ApplyMoves(rows, items[..k], now), items[k].id, MovePatch(items[k], now))
    ensures MoveResults(rows, items[..k + 1], now) ==
      MoveResults(rows, items[..k], now) + [ToApiResponse(FindById(ApplyMoves(rows, items[..k + 1], now), items[k].id))]
  {
    assert items[..k + 1][..k] == items[..k];
  }

  /** The last of the moves that names a row, if any: the one whose status and position stick. */
  function LastMoveFor(items: seq<BulkItem>, d: Doc): (r: Option<BulkItem>)
    ensures r.None? <==> !Listed(d, items)
    ensures r.Some? ==> r.value in items && HasId(d, r.value.id)
    decreases |items|
  {
    if items == [] then None
    else if HasId(d, items[|items| - 1].id) then Some(items[|items| - 1])
    else
      var init := items[..|items| - 1];
      assert forall k :: 0 <= k < |init| ==> init[k] == items[k];
      LastMoveFor(init, d)
  }

  /**
   * The effect of the moves on each row: a listed task carries the status
   * and position of the last move naming it, stamped with `updatedAt`, and
   * keeps every other column; an unlisted task is unchanged.
   */
  lemma {:induction false} ApplyMovesEffect(rows: seq<Doc>, items: seq<BulkItem>, now: int, i: int)
    requires 0 <= i < |rows|
    ensures var m := LastMoveFor(items, rows[i]);
      ApplyMoves(rows, items, now)[i] == if m.Some? then rows[i] + MovePatch(m.value, now) else rows[i]
    decreases |items|
  {
    if items != [] {
      var init, last := items[..|items| - 1], items[|items| - 1];
      ApplyMovesEffect(rows, init, now, i);
      var before := ApplyMoves(rows, init, now)[i];
      var m0 := LastMoveFor(init, rows[i]);
      TaskKeysDistinct();
      assert HasId(before, last.id) == HasId(rows[i], last.id) by {
        if m0.Some? {
          assert "id" !in MovePatch(m0.value, now);
        }
      }
      if HasId(rows[i], last.id) && m0.Some? {
        Repatch(rows[i], MovePatch(m0.value, now), MovePatch(last, now));
      }
    }
  }

  /** A second patch over the same columns replaces the first. */
  lemma Repatch(row: Doc, first: Doc, second: Doc)
    requires first.Keys <= second.Keys
    ensures row + first + second == row + second
  {
  }

  /** Every listed task, with its status and position from its last move; the rest unchanged. */
  lemma MovedRow(rows: seq<Doc>, items: seq<BulkItem>, now: int, i: int)
    requires 0 <= i < |rows|
    ensures var after := ApplyMoves(rows, items, now)[i];
      var m := LastMoveFor(items, rows[i]);
      (m.None? ==> after == rows[i]) &&
      (m.Some? ==>
        "status" in after && after["status"] == StatusValue(m.value.status) &&
        "position" in after && after["position"] == VInt(m.value.position) &&
        forall k :: k in rows[i] && k !in {"status", "position", "updatedAt"} ==> k in after && after[k] == rows[i][k])
  {
    ApplyMovesEffect(rows, items, now, i);
  }

  /** The moves, as the handler runs them: one `updateDocument` per entry, in order. */
  method MoveTasks(db: Database, items: seq<BulkItem>, now: int) returns (results: seq<Option<Doc>>)
    requires db.Valid()
    modifies db
    ensures db.Valid()
    ensures db.tables == old(db.tables)[TASKS := ApplyMoves(old(db.tables)[TASKS], items, now)]
    ensures results == MoveResults(old(db.tables)[TASKS], items, now)
  {
    ghost var before := db.tables;
    ghost var rows := db.tables[TASKS];
    results := [];
    assert items[..0] == [];
    WriteSame(before, TASKS);
    for k := 0 to |items|
      invariant db.Valid()
      invariant db.tables == before[TASKS := ApplyMoves(rows, items[..k], now)]
      invariant results == MoveResults(rows, items[..k], now)
    {
      MoveStep(rows, items, k, now);
      WriteTwice(before, TASKS, ApplyMoves(rows, items[..k], now), ApplyMoves(rows, items[..k + 1], now));
      var item := items[k];
      var updated := db.Update(TASKS, item.id, MoveData(item), now);
      results := results + [ToApiResponse(updated.value)];
    }
    assert items[..|items|] == items;
  }

  /** `/bulk-update`: behind its checks, applies every move and answers the updated rows. */
  method BulkUpdate(db: Database, userId: string, items: seq<BulkItem>, now: int) returns (r: Response<seq<Option<Doc>>>)
    requires db.Valid()
    modifies db
    ensures db.Valid()
    ensures var d := BulkDecision(old(db.tables), userId, items);
      d.Err? ==> r == Failed(d.error) && db.tables == old(db.tables)
    ensures var d := BulkDecision(old(db.tables), userId, items);
      d.Ok? ==>
        db.tables == old(db.tables)[TASKS := ApplyMoves(old(db.tables)[TASKS], items, now)] &&
        r == Success(MoveResults(old(db.tables)[TASKS], items, now))
  {
    var d := BulkDecision(db.tables, userId, items);
    if d.Err? {
      return Failed(d.error);
    }
    var results := MoveTasks(db, items, now);
    r := Success(results);
  }
}
