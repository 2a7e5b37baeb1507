/**
 * The request schemas of task and project creation and of the project
 * patch: which form values they accept, and the values the handlers then
 * see (trimmed texts, defaults filled in, empty image texts dropped).
 * A schema either yields the handler's input or refuses the request with
 * a validation failure (400).
 *
 * Turning the due date's text into a date is calendar arithmetic: the
 * form's due date arrives already coerced, as its `YYYY-MM-DD` text, or
 * as nothing when it is not a valid date.
 */
module Schemas {
  import opened Common
  import TasksRoute
  import ProjectsRoute
  import WorkspacesRoute

  /** `z.string().trim().min(1)`: present, and not only whitespace. */
  predicate Required(s: Option<string>)
  {
    s.Some? && Trim(s.value) != ""
  }

  /** A required text is accepted exactly when it holds a character other than whitespace. */
  lemma RequiredIffNotBlank(s: Option<string>)
    ensures Required(s) <==> s.Some? && exists i :: 0 <= i < |s.value| && !IsJsWhitespace(s.value[i])
  {
    if s.Some? {
      TrimEmptyIffBlank(s.value);
    }
  }

  /** A trimmed text neither starts nor ends with whitespace, and trimming it again changes nothing. */
  lemma TrimIdempotent(s: string)
    ensures Trim(s) == [] || (!IsJsWhitespace(Trim(s)[0]) && !IsJsWhitespace(Trim(s)[|Trim(s)| - 1]))
    ensures Trim(Trim(s)) == Trim(s)
  {
    var a := TrimStart(s);
    var r := TrimEnd(a);
    if r != [] {
      assert r[0] == a[0];
    }
    assert TrimStart(r) == r;
  }

  /** The form of POST `/api/tasks`; `assigneeId` may be absent (`None`) or null (`Some(None)`). */
  datatype TaskForm = TaskForm(
    name: Option<string>,
    status: Option<string>,
    workspaceId: Option<string>,
    projectId: Option<string>,
    dueDate: Option<string>,
    assigneeId: Option<Option<string>>,
    description: Option<string>)

  /** The status field: absent means TODO; otherwise one of the five names. */
  predicate StatusAccepted(status: Option<string>)
  {
    status.None? || ParseStatus(status.value).Some?
  }

  /** The assignee field: absent, null, or a required text. */
  predicate AssigneeAccepted(assigneeId: Option<Option<string>>)
  {
    assigneeId.None? || assigneeId.value.None? || Required(assigneeId.value)
  }

  /** `createTaskSchema`. */
  function ParseCreateTask(form: TaskForm): (r: Result<TasksRoute.CreateTaskInput, Failure>)
    ensures r.Err? ==> r.error == ValidationFailed
    ensures r.Ok? <==>
      Required(form.name) && StatusAccepted(form.status) && Required(form.workspaceId) &&
      form.dueDate.Some? && AssigneeAccepted(form.assigneeId)
    ensures r.Ok? ==>
      r.value.name == Trim(form.name.value) && r.value.name != "" &&
      r.value.workspaceId == Trim(form.workspaceId.value) && r.value.workspaceId != "" &&
      StatusName(r.value.status) == (if form.status.Some? then form.status.value else "TODO") &&
      r.value.projectId == (if form.projectId.Some? then Some(Trim(form.projectId.value)) else None) &&
      r.value.dueDate == form.dueDate.value &&
      r.value.description == form.description
    ensures r.Ok? ==>
      (r.value.assigneeId.Some? <==> form.assigneeId.Some? && form.assigneeId.value.Some?) &&
      (r.value.assigneeId.Some? ==>
        r.value.assigneeId.value == Trim(form.assigneeId.value.value) && r.value.assigneeId.value != "")
  {
    if !Required(form.name) || !StatusAccepted(form.status) || !Required(form.workspaceId) || form.dueDate.None? ||
       !AssigneeAccepted(form.assigneeId) then
      Err(ValidationFailed)
    else
      var status := if form.status.Some? then ParseStatus(form.status.value).value else TODO;
      var assignee := if form.assigneeId.Some? && form.assigneeId.value.Some? then Some(Trim(form.assigneeId.value.value))
        else None;
      Ok(TasksRoute.CreateTaskInput(
        Trim(form.name.value),
        status,
        Trim(form.workspaceId.value),
        if form.projectId.Some? then Some(Trim(form.projectId.value)) else None,
        form.dueDate.value,
        assignee,
        form.description))
  }

  /** The texts of an accepted task form are already trimmed: parsing their own values again gives them back. */
  lemma ParsedTaskIsTrimmed(form: TaskForm)
    requires ParseCreateTask(form).Ok?
    ensures var input := ParseCreateTask(form).value;
      Trim(input.name) == input.name && Trim(input.workspaceId) == input.workspaceId &&
      (input.assigneeId.Some? ==> Trim(input.assigneeId.value) == input.assigneeId.value)
  {
    TrimIdempotent(form.name.value);
    TrimIdempotent(form.workspaceId.value);
    if form.assigneeId.Some? && form.assigneeId.value.Some? {
      TrimIdempotent(form.assigneeId.value.value);
    }
  }

  /** `z.enum(["manual", "ai_generated"])`. */
  function ParseGenerationType(s: string): (r: Option<ProjectsRoute.GenerationType>)
    ensures r.Some? ==> ProjectsRoute.GenerationName(r.value) == s
    ensures r.None? <==> s != "manual" && s != "ai_generated"
  {
    if s == "manual" then Some(ProjectsRoute.Manual)
    else if s == "ai_generated" then Some(ProjectsRoute.AiGenerated)
    else None
  }

  /** The form of POST `/api/projects`. */
  datatype ProjectForm = ProjectForm(
    name: Option<string>,
    image: WorkspacesRoute.ImageInput,
    prompt: Option<string>,
    workspaceId: Option<string>,
    generationType: Option<string>)

  /**
   * `createProjectSchema`, as the create handler reads it: only an
   * uploaded file becomes the project's image, a text image is ignored.
   */
  function ParseCreateProject(form: ProjectForm): (r: Result<ProjectsRoute.CreateProjectInput, Failure>)
    ensures r.Err? ==> r.error == ValidationFailed
    ensures r.Ok? <==>
      Required(form.name) && form.workspaceId.Some? &&
      (form.generationType.None? || ParseGenerationType(form.generationType.value).Some?)
    ensures r.Ok? ==>
      r.value.name == Trim(form.name.value) && r.value.name != "" &&
      r.value.workspaceId == form.workspaceId.value && r.value.prompt == form.prompt &&
      r.value.imageUrl == (if form.image.ImageFile? then form.image.dataUrl else None)
    ensures r.Ok? ==>
      (r.value.generationType.Some? <==> form.generationType.Some?) &&
      (r.value.generationType.Some? ==>
        ProjectsRoute.GenerationName(r.value.generationType.value) == form.generationType.value)
  {
    if !Required(form.name) || form.workspaceId.None? then Err(ValidationFailed)
    else if form.generationType.Some? && ParseGenerationType(form.generationType.value).None? then Err(ValidationFailed)
    else
      var generation := if form.generationType.Some? then ParseGenerationType(form.generationType.value) else None;
      var imageUrl := if form.image.ImageFile? then form.image.dataUrl else None;
      Ok(ProjectsRoute.CreateProjectInput(Trim(form.name.value), imageUrl, form.workspaceId.value, form.prompt, generation))
  }

  /** Tasks are planned exactly for an accepted form asking for AI generation with a non-empty prompt. */
  lemma AiPlanRequested(form: ProjectForm)
    requires ParseCreateProject(form).Ok?
    ensures ProjectsRoute.RunsAiPlan(ParseCreateProject(form).value) <==>
      form.generationType == Some("ai_generated") && Truthy(form.prompt)
  {
    if form.generationType.Some? && form.generationType.value == "ai_generated" {
      assert ParseGenerationType(form.generationType.value) == Some(ProjectsRoute.AiGenerated);
    }
  }

  /** The form of PATCH `/api/projects/:projectId`; its prompt is accepted and then unused. */
  datatype ProjectPatchForm = ProjectPatchForm(
    name: Option<string>,
    image: WorkspacesRoute.ImageInput,
    prompt: Option<string>)

  /** The patch a PATCH handler applies: the name and the image to store. */
  datatype ProjectPatch = ProjectPatch(name: Option<string>, imageUrl: Option<string>)

  /**
   * `updateProjectSchema`, as the patch handler reads it: a name, if
   * given, must not be blank and is trimmed; an empty image text counts
   * as no image.
   */
  function ParseUpdateProject(form: ProjectPatchForm): (r: Result<ProjectPatch, Failure>)
    ensures r.Err? ==> r.error == ValidationFailed
    ensures r.Ok? <==> form.name.None? || Required(form.name)
    ensures r.Ok? ==>
      r.value.name == (if form.name.Some? then Some(Trim(form.name.value)) else None) &&
      r.value.imageUrl == WorkspacesRoute.ResolveImage(form.image)
    ensures r.Ok? && form.image.ImageText? ==> (r.value.imageUrl.Some? <==> form.image.text != "")
  {
    if form.name.Some? && !Required(form.name) then Err(ValidationFailed)
    else
      Ok(ProjectPatch(if form.name.Some? then Some(Trim(form.name.value)) else None, WorkspacesRoute.ResolveImage(form.image)))
  }
}
