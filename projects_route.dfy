/**
 * The projects API: creating a project (and, when asked for, the tasks an
 * AI plan proposes for it), listing a workspace's projects, patching,
 * deleting and reading a project, and a project's monthly task counters.
 * Every handler first checks that the caller is a member of the
 * project's workspace.
 *
 * The AI service (task generation, indexing, user matching) is outside
 * the model: its outcome arrives as a value, either a failure before any
 * task is written or a list of planned tasks, possibly with the index of
 * the insert that fails. Image upload arrives as its resulting data URL,
 * and the texts JavaScript prints for dates and numbers arrive as
 * formatting functions.
 */
module ProjectsRoute {
  import opened Common
  import opened DbHelpers
  import opened MemberLookup
  import opened Analytics
  import TasksRoute

  const ProjectNotFound: string := "Project not found"

  /**
   * The gate of PATCH, DELETE, GET `/:projectId` and the analytics: the
   * project exists (404), and the caller is a member of its workspace (401).
   */
  function ProjectGate(t: Tables, userId: string, projectId: string): (r: Result<Doc, Failure>)
    requires WellFormed(t)
    ensures r.Err? ==> r.error == NotFound(ProjectNotFound) || r.error == Unauthorized
    ensures r == Err(NotFound(ProjectNotFound)) <==> IdFree(Rows(t, PROJECTS), projectId)
    ensures r.Ok? ==>
      r.value in Rows(t, PROJECTS) && HasId(r.value, projectId) &&
      HasMembership(t, userId, StrField(r.value, "workspaceId"), None)
  {
    match FindById(Rows(t, PROJECTS), projectId)
    case None => Err(NotFound(ProjectNotFound))
    case Some(project) =>
      if GetMember(t, userId, StrField(project, "workspaceId"), None).None? then Err(Unauthorized) else Ok(project)
  }

  /** The gate refuses with 401 exactly a caller outside the workspace of the project the id names. */
  lemma ProjectGateRefuses(t: Tables, userId: string, projectId: string, i: int)
    requires WellFormed(t) && 0 <= i < |Rows(t, PROJECTS)| && HasId(Rows(t, PROJECTS)[i], projectId)
    ensures ProjectGate(t, userId, projectId) == Err(Unauthorized) <==>
      !HasMembership(t, userId, StrField(Rows(t, PROJECTS)[i], "workspaceId"), None)
    ensures ProjectGate(t, userId, projectId).Ok? ==> ProjectGate(t, userId, projectId).value == Rows(t, PROJECTS)[i]
  {
    assert PROJECTS in t;
    FindByIdUnique(Rows(t, PROJECTS), projectId, i);
  }

  datatype GenerationType = Manual | AiGenerated

  /** The text the projects table stores for a generation type. */
  function GenerationName(g: GenerationType): string
  {
    match g
    case Manual => "manual"
    case AiGenerated => "ai_generated"
  }

  /**
   * A create request after the schema: the trimmed name, the data URL of
   * an uploaded image file if there was one, and the optional prompt and
   * generation type.
   */
  datatype CreateProjectInput = CreateProjectInput(
    name: string,
    imageUrl: Option<string>,
    workspaceId: string,
    prompt: Option<string>,
    generationType: Option<GenerationType>)

  lemma ProjectKeysDistinct()
    ensures "name" != "imageUrl" && "name" != "workspaceId" && "name" != "generationType" && "name" != "prompt"
    ensures "imageUrl" != "workspaceId" && "imageUrl" != "generationType" && "imageUrl" != "prompt"
    ensures "workspaceId" != "generationType" && "workspaceId" != "prompt" && "generationType" != "prompt"
    ensures "name" != "id" && "imageUrl" != "id" && "workspaceId" != "id" && "generationType" != "id" && "prompt" != "id"
    ensures "name" != "createdAt" && "imageUrl" != "createdAt" && "workspaceId" != "createdAt"
    ensures "generationType" != "createdAt" && "prompt" != "createdAt"
    ensures "name" != "updatedAt" && "imageUrl" != "updatedAt" && "workspaceId" != "updatedAt"
    ensures "generationType" != "updatedAt" && "prompt" != "updatedAt"
  {
    assert |"name"| == 4 && |"imageUrl"| == 8 && |"workspaceId"| == 11 && |"generationType"| == 14 && |"prompt"| == 6;
    assert |"id"| == 2 && |"createdAt"| == 9 && |"updatedAt"| == 9;
  }

  /**
   * The project row's data: name and workspace, the generation type
   * (manual when none is given), the image only when one was uploaded and
   * the prompt only when it is non-empty; id and timestamps are the
   * store's.
   */
  function ProjectData(input: CreateProjectInput): (r: Doc)
    ensures r.Keys <= ProjectColumns
    ensures "id" !in r && "createdAt" !in r && "updatedAt" !in r
    ensures "name" in r && r["name"] == VStr(input.name)
    ensures "workspaceId" in r && r["workspaceId"] == VStr(input.workspaceId)
    ensures "generationType" in r &&
      r["generationType"] == VStr(GenerationName(if input.generationType.Some? then input.generationType.value else Manual))
    ensures ("imageUrl" in r <==> input.imageUrl.Some?) &&
      (input.imageUrl.Some? ==> r["imageUrl"] == VStr(input.imageUrl.value))
    ensures ("prompt" in r <==> Truthy(input.prompt)) &&
      (Truthy(input.prompt) ==> r["prompt"] == VStr(input.prompt.value))
  {
    ProjectKeysDistinct();
    var generation := if input.generationType.Some? then input.generationType.value else Manual;
    var base := map["name" := VStr(input.name), "workspaceId" := VStr(input.workspaceId),
      "generationType" := VStr(GenerationName(generation))];
    var withImage := if input.imageUrl.Some? then base["imageUrl" := VStr(input.imageUrl.value)] else base;
    if Truthy(input.prompt) then withImage["prompt" := VStr(input.prompt.value)] else withImage
  }

  /** Tasks are generated only for the AI generation type with a non-empty prompt. */
  predicate RunsAiPlan(input: CreateProjectInput)
  {
    input.generationType == Some(AiGenerated) && Truthy(input.prompt)
  }

  /** One task of an AI plan, with the user ids the matcher suggests for it, best first. */
  datatype PlannedTask = PlannedTask(
    name: Option<string>,
    description: Option<string>,
    complexity: real,
    estimatedHours: real,
    dependsOn: Option<seq<string>>,
    matchedUsers: Option<seq<string>>)

  /**
   * What the AI service answers: a failure before any task is written, or
   * the planned tasks, with the index of the task whose insert fails, if
   * one does.
   */
  datatype AiOutcome = AiFailed | AiPlan(tasks: seq<PlannedTask>, failsAt: Option<nat>)

  /** The texts JavaScript prints: the `YYYY-MM-DD` date of an instant, and a number. */
  datatype Formats = Formats(dateText: int -> string, numberText: real -> string)

  const DayMillis: int := 24 * 60 * 60 * 1000

  /** Days of work for an estimate, at eight hours a day, rounded up. */
  function DaysFor(hours: real): (r: int)
    ensures (r - 1) as real < hours / 8.0 <= r as real
  {
    -((-hours / 8.0).Floor)
  }

  /** The columns of a planned task's row, besides id and timestamps. */
  const PlanKeys: set<string> := {"name", "status", "workspaceId", "projectId", "assigneeId", "position",
    "dueDate", "description", "dependsOn", "aiSuggestedAssignees"}

  /** The lengths and first letters that tell the task columns apart. */
  lemma PlanKeyShapes()
    ensures |"name"| == 4 && |"status"| == 6 && |"workspaceId"| == 11 && |"position"| == 8
    ensures |"projectId"| == 9 && |"assigneeId"| == 10 && |"dueDate"| == 7 && |"description"| == 11
    ensures |"dependsOn"| == 9 && |"aiSuggestedAssignees"| == 20 && |"id"| == 2
    ensures |"createdAt"| == 9 && |"updatedAt"| == 9
    ensures "workspaceId"[0] == 'w' && "description"[0] == 'd'
    ensures "projectId"[0] == 'p' && "dependsOn"[0] == 'd' && "createdAt"[0] == 'c' && "updatedAt"[0] == 'u'
  {
  }

  /** A planned task's columns are task columns, and none is written by the store itself. */
  lemma PlanKeysAreColumns()
    ensures PlanKeys <= TaskColumns
    ensures "id" !in PlanKeys && "createdAt" !in PlanKeys && "updatedAt" !in PlanKeys
  {
    PlanKeyShapes();
  }

  /** The user ids the matcher suggests for a planned task; none when it gave no list. */
  function Suggested(task: PlannedTask): seq<string>
  {
    if task.matchedUsers.Some? then task.matchedUsers.value else []
  }

  /** The assignee of a planned task: the best suggestion when there is a non-empty one, else the caller. */
  function PlanAssignee(task: PlannedTask, userId: string): (r: string)
    ensures r == userId || (Suggested(task) != [] && r == Suggested(task)[0] != "")
    ensures Suggested(task) == [] ==> r == userId
  {
    var matched := Suggested(task);
    if |matched| > 0 && matched[0] != "" then matched[0] else userId
  }

  /** The description of a planned task, or a summary of its complexity and estimate. */
  function PlanDescription(task: PlannedTask, f: Formats): string
  {
    if Truthy(task.description) then task.description.value
    else "Complexity: " + f.numberText(task.complexity) + "/10, Estimated: " + f.numberText(task.estimatedHours) + "h"
  }

  /** The data of the i-th planned task's row: exactly the plan's columns. */
  function PlanTaskData(i: nat, task: PlannedTask, workspaceId: string, projectId: string, userId: string,
                        now: int, f: Formats): (r: Doc)
    ensures r.Keys == PlanKeys
  {
    PlanKeyShapes();
    var name := VStr(if Truthy(task.name) then task.name.value else "Task " + IntToString(i + 1));
    var dueDate := VStr(f.dateText(now + DaysFor(task.estimatedHours) * DayMillis));
    var dependsOn := VList(if task.dependsOn.Some? then task.dependsOn.value else []);
    map[
      "name" := name,
      "status" := TasksRoute.StatusValue(TODO),
      "workspaceId" := VStr(workspaceId),
      "projectId" := VStr(projectId),
      "assigneeId" := VStr(PlanAssignee(task, userId)),
      "position" := VInt((i + 1) * 1000),
      "dueDate" := dueDate,
      "description" := VStr(PlanDescription(task, f)),
      "dependsOn" := dependsOn,
      "aiSuggestedAssignees" := VList(Suggested(task))]
  }

  /**
   * The fields of the i-th planned task's row (counting from 0): a to-do
   * task of the new project in the request's workspace, at position
   * (i + 1) * 1000, due after its estimated working days, named
   * `Task <i + 1>` when the plan gives no name, assigned to its best
   * suggestion or the caller.
   */
  lemma PlanTaskFields(i: nat, task: PlannedTask, workspaceId: string, projectId: string, userId: string,
                       now: int, f: Formats)
    ensures var r := PlanTaskData(i, task, workspaceId, projectId, userId, now, f);
      r["name"] == VStr(if Truthy(task.name) then task.name.value else "Task " + IntToString(i + 1))&&
      r["status"] == TasksRoute.StatusValue(TODO)&&
      r["workspaceId"] == VStr(workspaceId) && r["projectId"] == VStr(projectId)&&
      r["assigneeId"] == VStr(PlanAssignee(task, userId))&&
      r["position"] == VInt((i + 1) * 1000)&&
      r["dueDate"] == VStr(f.dateText(now + DaysFor(task.estimatedHours) * DayMillis))&&
      r["description"] == VStr(PlanDescription(task, f))&&
      r["dependsOn"] == VList(if task.dependsOn.Some? then task.dependsOn.value else [])&&
      r["aiSuggestedAssignees"] == VList(Suggested(task))
  {
    PlanKeyShapes();
  }

  /** How many planned tasks are written: all of them, or those before the failing insert. */
  function PlannedCount(input: CreateProjectInput, plan: AiOutcome): (r: nat)
    ensures r > 0 ==> RunsAiPlan(input) && plan.AiPlan? && r <= |plan.tasks|
    ensures RunsAiPlan(input) && plan.AiPlan? && plan.failsAt.None? ==> r == |plan.tasks|
  {
    if !RunsAiPlan(input) || plan.AiFailed? then 0
    else if plan.failsAt.Some? && plan.failsAt.value < |plan.tasks| then plan.failsAt.value
    else |plan.tasks|
  }

  /** The data of the task rows a create request writes, in plan order. */
  function PlanData(input: CreateProjectInput, plan: AiOutcome, projectId: string, userId: string,
                    now: int, f: Formats): (r: seq<Doc>)
    ensures |r| == PlannedCount(input, plan)
    ensures forall i :: 0 <= i < |r| ==>
      plan.AiPlan? && i < |plan.tasks| &&
      r[i] == PlanTaskData(i, plan.tasks[i], input.workspaceId, projectId, userId, now, f)
  {
    var n := PlannedCount(input, plan);
    if n == 0 then []
    else seq(n, i requires 0 <= i < n => PlanTaskData(i, plan.tasks[i], input.workspaceId, projectId, userId, now, f))
  }

  /**
   * POST `/`: a member of the workspace (401 otherwise) creates the
   * project row; when the AI plan runs, one task row per planned task
   * follows, in order, up to a failing insert, whose error is swallowed.
   * The answer is the project row either way.
   */
  method CreateProject(db: Database, userId: string, input: CreateProjectInput, plan: AiOutcome, f: Formats,
                       now: int, projectId: string, taskIds: seq<string>, defaults: Doc) returns (r: Response<Doc>)
    requires db.Valid() && IdFree(db.tables[PROJECTS], projectId)
    requires |taskIds| == PlannedCount(input, plan)
    requires forall i, j :: 0 <= i < j < |taskIds| ==> taskIds[i] != taskIds[j]
    requires forall i :: 0 <= i < |taskIds| ==> IdFree(db.tables[TASKS], taskIds[i])
    modifies db
    ensures db.Valid()
    ensures !HasMembership(old(db.tables), userId, Some(input.workspaceId), None) ==>
      r == Failed(Unauthorized) && db.tables == old(db.tables)
    ensures HasMembership(old(db.tables), userId, Some(input.workspaceId), None) ==>
      var project := NewRow(PROJECTS, ProjectData(input), now, projectId, defaults);
      var tasks := NewRows(TASKS, PlanData(input, plan, projectId, userId, now, f), now, taskIds, defaults);
      db.tables == old(db.tables)[PROJECTS := old(db.tables)[PROJECTS] + [project]][TASKS := old(db.tables)[TASKS] + tasks] &&
      r == Success(ToApiResponse(Some(project)).value)
  {
    if GetMember(db.tables, userId, Some(input.workspaceId), None).None? {
      return Failed(Unauthorized);
    }
    var data := PlanData(input, plan, projectId, userId, now, f);
    PlanKeysAreColumns();
    var project := InsertProjectAndTasks(db, ProjectData(input), data, now, projectId, taskIds, defaults);
    r := Success(ToApiResponse(Some(project)).value);
  }

  /** The writes of a create request: the project row, then its task rows in order. */
  method InsertProjectAndTasks(db: Database, project: Doc, tasks: seq<Doc>, now: int, projectId: string,
                               taskIds: seq<string>, defaults: Doc) returns (row: Doc)
    requires db.Valid() && "id" !in project && IdFree(db.tables[PROJECTS], projectId)
    requires |taskIds| == |tasks| && forall i :: 0 <= i < |tasks| ==> "id" !in tasks[i]
    requires forall i, j :: 0 <= i < j < |taskIds| ==> taskIds[i] != taskIds[j]
    requires forall i :: 0 <= i < |taskIds| ==> IdFree(db.tables[TASKS], taskIds[i])
    modifies db
    ensures db.Valid()
    ensures row == NewRow(PROJECTS, project, now, projectId, defaults)
    ensures db.tables == old(db.tables)[PROJECTS := old(db.tables)[PROJECTS] + [row]]
      [TASKS := old(db.tables)[TASKS] + NewRows(TASKS, tasks, now, taskIds, defaults)]
  {
    var created := db.Create(PROJECTS, project, now, projectId, defaults);
    row := created.value;
    var _ := db.CreateAll(TASKS, tasks, now, taskIds, defaults);
  }

  /**
   * The stored project row holds the request's name and workspace, the
   * generation type defaulting to manual, and the creation time.
   */
  lemma CreatedProjectRow(input: CreateProjectInput, now: int, projectId: string, defaults: Doc)
    ensures var row := NewRow(PROJECTS, ProjectData(input), now, projectId, defaults);
      HasId(row, projectId) && row["createdAt"] == VTime(now) &&
      FieldIs(row, "name", input.name) && FieldIs(row, "workspaceId", input.workspaceId) &&
      (input.generationType.None? ==> FieldIs(row, "generationType", "manual")) &&
      (Truthy(input.prompt) ==> FieldIs(row, "prompt", input.prompt.value))
  {
    ProjectKeysDistinct();
  }

  /**
   * The stored task rows of an AI plan: each is a to-do task of the new
   * project in the request's workspace, assigned to its best suggestion
   * or to the caller, carrying all the suggestions; positions count up by
   * 1000 from 1000, so they are distinct and follow the plan's order.
   */
  lemma PlannedTaskRows(input: CreateProjectInput, plan: AiOutcome, projectId: string, userId: string,
                        now: int, f: Formats, taskIds: seq<string>, defaults: Doc)
    requires |taskIds| == PlannedCount(input, plan)
    ensures var rows := NewRows(TASKS, PlanData(input, plan, projectId, userId, now, f), now, taskIds, defaults);
      forall i :: 0 <= i < |rows| ==>
        plan.AiPlan? && i < |plan.tasks| && HasId(rows[i], taskIds[i]) &&
        FieldIs(rows[i], "projectId", projectId) && FieldIs(rows[i], "workspaceId", input.workspaceId) &&
        FieldIs(rows[i], "status", "TODO") &&
        FieldIs(rows[i], "assigneeId", PlanAssignee(plan.tasks[i], userId)) &&
        rows[i]["aiSuggestedAssignees"] == VList(Suggested(plan.tasks[i])) &&
        rows[i]["position"] == VInt((i + 1) * 1000)
    ensures var rows := NewRows(TASKS, PlanData(input, plan, projectId, userId, now, f), now, taskIds, defaults);
      forall i, j :: 0 <= i < j < |rows| ==>
        rows[i]["position"].VInt? && rows[j]["position"].VInt? &&
        1000 <= rows[i]["position"].i < rows[j]["position"].i
  {
    var data := PlanData(input, plan, projectId, userId, now, f);
    var rows := NewRows(TASKS, data, now, taskIds, defaults);
    forall i | 0 <= i < |rows|
      ensures plan.AiPlan? && i < |plan.tasks| && HasId(rows[i], taskIds[i]) &&
        FieldIs(rows[i], "projectId", projectId) && FieldIs(rows[i], "workspaceId", input.workspaceId) &&
        FieldIs(rows[i], "status", "TODO") &&
        FieldIs(rows[i], "assigneeId", PlanAssignee(plan.tasks[i], userId)) &&
        rows[i]["aiSuggestedAssignees"] == VList(Suggested(plan.tasks[i])) &&
        rows[i]["position"] == VInt((i + 1) * 1000)
    {
      PlanTaskFields(i, plan.tasks[i], input.workspaceId, projectId, userId, now, f);
      PlannedRow(data[i], rows[i], i, now, taskIds[i], defaults);
    }
  }

  /** One stored row of a plan keeps its data's columns. */
  lemma PlannedRow(data: Doc, row: Doc, i: nat, now: int, id: string, defaults: Doc)
    requires data.Keys == PlanKeys && row == NewRow(TASKS, data, now, id, defaults)
    ensures forall k :: k in PlanKeys ==> k in row && row[k] == data[k]
  {
    PlanKeysAreColumns();
  }

  /** GET `/`: a member of the workspace (401 otherwise) sees its projects, newest first. */
  function ListProjects(t: Tables, userId: string, workspaceId: string): (r: Response<ListResult>)
    requires WellFormed(t)
    ensures r.Failed? <==> !HasMembership(t, userId, Some(workspaceId), None)
    ensures r.Failed? ==> r.failure == Unauthorized
    ensures r.Success? ==>
      r.data == ApiListByField(t, PROJECTS, "workspaceId", workspaceId) &&
      r.data.total == |Filter(Rows(t, PROJECTS), FieldMatcher("workspaceId", workspaceId))|
    ensures r.Success? ==> NewestFirst(r.data.documents)
  {
    if GetMember(t, userId, Some(workspaceId), None).None? then Failed(Unauthorized)
    else Success(ApiListByField(t, PROJECTS, "workspaceId", workspaceId))
  }

  /** Asking for newest first by `createdAt` lists exactly what the default order lists. */
  lemma ListProjectsSorted(t: Tables, filter: Criteria)
    ensures ListDocuments(t, PROJECTS, filter, ListOptions(0, 0, Some(SortSpec("createdAt", Descending)))) ==
      ListDocuments(t, PROJECTS, filter, NoOptions)
  {
    ColumnsShape(PROJECTS);
    SnakeFallbackUnused(PROJECTS, "createdAt");
    assert ColumnFor(PROJECTS, "createdAt") == Some("createdAt");
  }

  /** The update data of PATCH `/:projectId`: the name and the image, each only when supplied. */
  function ProjectUpdateData(name: Option<string>, imageUrl: Option<string>): (r: Doc)
    ensures r.Keys <= {"name", "imageUrl"}
    ensures ("name" in r <==> name.Some?) && (name.Some? ==> r["name"] == VStr(name.value))
    ensures ("imageUrl" in r <==> imageUrl.Some?) && (imageUrl.Some? ==> r["imageUrl"] == VStr(imageUrl.value))
  {
    ProjectKeysDistinct();
    var withName: Doc := if name.Some? then map["name" := VStr(name.value)] else map[];
    if imageUrl.Some? then withName["imageUrl" := VStr(imageUrl.value)] else withName
  }

  /**
   * PATCH `/:projectId`: behind the gate, writes the supplied name and
   * image (an uploaded file's data URL, or the image text) and answers the
   * patched row.
   */
  method PatchProject(db: Database, userId: string, projectId: string, name: Option<string>, imageUrl: Option<string>,
                      now: int) returns (r: Response<Doc>)
    requires db.Valid()
    modifies db
    ensures db.Valid()
    ensures var g := ProjectGate(old(db.tables), userId, projectId);
      g.Err? ==> r == Failed(g.error) && db.tables == old(db.tables)
    ensures var g := ProjectGate(old(db.tables), userId, projectId);
      g.Ok? ==>
        exists i :: 0 <= i < |old(db.tables)[PROJECTS]| && old(db.tables)[PROJECTS][i] == g.value &&
          var patched := g.value + UpdatePatch(PROJECTS, ProjectUpdateData(name, imageUrl), now);
          db.tables == old(db.tables)[PROJECTS := old(db.tables)[PROJECTS][i := patched]] &&
          r == Success(ToApiResponse(Some(patched)).value)
  {
    var g := ProjectGate(db.tables, userId, projectId);
    if g.Err? {
      return Failed(g.error);
    }
    var data := ProjectUpdateData(name, imageUrl);
    var rows := db.tables[PROJECTS];
    var i :| 0 <= i < |rows| && rows[i] == g.value;
    var patch := UpdatePatch(PROJECTS, data, now);
    PatchKeepsProject(data, now);
    UpdateOneRow(rows, projectId, i, patch);
    var updated := db.Update(PROJECTS, projectId, data, now);
    r := Success(ToApiResponse(updated.value).value);
  }

  /** A project patch never writes the id, the creation time or the workspace. */
  lemma PatchKeepsProject(data: Doc, now: int)
    requires data.Keys <= {"name", "imageUrl"}
    ensures var patch := UpdatePatch(PROJECTS, data, now);
      "id" !in patch && "createdAt" !in patch && "workspaceId" !in patch && patch["updatedAt"] == VTime(now)
  {
    ProjectKeysDistinct();
  }

  /** DELETE `/:projectId`: behind the gate, removes the project's row and nothing else. */
  method DeleteProject(db: Database, userId: string, projectId: string) returns (r: Response<string>)
    requires db.Valid()
    modifies db
    ensures db.Valid()
    ensures var g := ProjectGate(old(db.tables), userId, projectId);
      g.Err? ==> r == Failed(g.error) && db.tables == old(db.tables)
    ensures var g := ProjectGate(old(db.tables), userId, projectId);
      g.Ok? ==>
        r == Success(projectId) &&
        (exists i :: 0 <= i < |old(db.tables)[PROJECTS]| && old(db.tables)[PROJECTS][i] == g.value &&
          db.tables == old(db.tables)[PROJECTS := old(db.tables)[PROJECTS][..i] + old(db.tables)[PROJECTS][i + 1..]])
  {
    var g := ProjectGate(db.tables, userId, projectId);
    if g.Err? {
      return Failed(g.error);
    }
    var rows := db.tables[PROJECTS];
    var i :| 0 <= i < |rows| && rows[i] == g.value;
    DeleteRemovesOne(rows, projectId, i);
    var _ := db.Delete(PROJECTS, projectId);
    r := Success(projectId);
  }

  /** GET `/:projectId`: behind the gate, the project in its response shape. */
  function GetProjectRoute(t: Tables, userId: string, projectId: string): (r: Response<Doc>)
    requires WellFormed(t)
    ensures r.Failed? <==> ProjectGate(t, userId, projectId).Err?
    ensures r.Failed? ==> r.failure == ProjectGate(t, userId, projectId).error
    ensures r.Success? ==>
      exists d :: d in Rows(t, PROJECTS) && HasId(d, projectId) && r.data == ToApiResponse(Some(d)).value
    ensures r.Success? ==> "$id" in r.data && r.data["$id"] == VStr(projectId) && "id" !in r.data
  {
    match ProjectGate(t, userId, projectId)
    case Err(e) => Failed(e)
    case Ok(project) => Success(ToApiResponse(Some(project)).value)
  }

  /** The scope of a project's counters: its tasks. */
  function InProject(projectId: string): Doc -> bool
  {
    d => FieldIs(d, "projectId", projectId)
  }

  /** The id of the caller's membership row in a workspace, as `getMember` answers it. */
  function MembershipId(t: Tables, userId: string, workspaceId: Option<string>): (r: Value)
    requires WellFormed(t) && HasMembership(t, userId, workspaceId, None)
    ensures exists m :: m in Rows(t, MEMBERS) && IsMembership(m, userId, workspaceId, None) && r == IdOf(m)
  {
    var member := GetMember(t, userId, workspaceId, None).value;
    assert |"$id"| != |"id"|;
    member["id"]
  }

  /**
   * GET `/:projectId/analytics`: behind the gate, the ten monthly counters
   * of the project's tasks; the assigned counters compare the assignee
   * with the caller's membership id.
   */
  function ProjectAnalytics(t: Tables, userId: string, projectId: string, today: string,
                            thisMonth: Window, lastMonth: Window): (r: Response<Counters>)
    requires WellFormed(t)
    ensures r.Failed? <==> ProjectGate(t, userId, projectId).Err?
    ensures r.Failed? ==> r.failure == ProjectGate(t, userId, projectId).error
    ensures r.Success? ==>
      exists project :: project in Rows(t, PROJECTS) && HasId(project, projectId) &&
        HasMembership(t, userId, StrField(project, "workspaceId"), None) &&
        r.data == MonthlyCounters(Rows(t, TASKS), InProject(projectId),
          MembershipId(t, userId, StrField(project, "workspaceId")), today, thisMonth, lastMonth)
    ensures r.Success? ==>
      r.data.incompleteTaskCount + r.data.completeTaskCount == r.data.taskCount &&
      r.data.overdueTaskCount <= r.data.incompleteTaskCount && r.data.assignedTaskCount <= r.data.taskCount
  {
    match ProjectGate(t, userId, projectId)
    case Err(e) => Failed(e)
    case Ok(project) =>
      var memberId := MembershipId(t, userId, StrField(project, "workspaceId"));
      Success(MonthlyCounters(Rows(t, TASKS), InProject(projectId), memberId, today, thisMonth, lastMonth))
  }

  /**
   * The assigned counters compare with a membership id, while tasks store
   * user ids as assignees: when the membership id differs from the user
   * id, tasks assigned to the caller are not counted as assigned.
   */
  lemma AssignedCountMissesUser(rows: seq<Doc>, projectId: string, memberId: Value, userId: string,
                                today: string, w: Window)
    requires memberId != VStr(userId)
    requires forall i :: 0 <= i < |rows| ==> FieldIs(rows[i], "assigneeId", userId)
    ensures Count(rows, InProject(projectId), Assigned, memberId, today, w) == 0
  {
    FilterNone(rows, Query(InProject(projectId), Assigned, memberId, today, w));
  }
}
