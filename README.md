# optiplan-web core, modelled in Dafny

optiplan-web is a project-planning web application. Users belong to
workspaces through membership rows with a role (ADMIN or MEMBER). Workspaces
hold projects, and projects hold tasks on a kanban board. An AI service
proposes tasks for a project and matches users to tasks. An assignment
optimizer re-ranks those matches by workload.

This project models the part of the application that decides things:

- **Assignment optimizer** (`optimization.dfy`, module `Optimization`):
  - the weighted workload of each member;
  - the fail-closed prerequisite check;
  - the combined `0.5·match + 0.3·workload + 0.2·coverage` ranking, with its
    stable tie-break and its reason text;
  - the bulk variant, which visits tasks by prerequisite count but scores
    each against the original list.
- **Document store** (`db_helpers.dfy`, module `DbHelpers`). Tables map a
  collection name to its rows, in storage order. A row is a field map. The
  class `Database` models:
  - `createDocument`, `getDocument`, `updateDocument` and `deleteDocument`;
  - `listDocuments`: conditions built in a loop, the default newest-first
    order, paging, and a total that ignores paging;
  - `toApiResponse`, which renames `id` to `$id`;
  - `getColumn`'s snake_case fallback.
- **Membership lookup** (`member_lookup.dfy`): `getMember`.
- **Queries** (`workspace_queries.dfy`, `project_queries.dfy`): `getWorkspaces`
  and `getProject`.
- **Route handlers** (`members_route.dfy`, `tasks_route.dfy`,
  `projects_route.dfy`, `workspaces_route.dfy`):
  - each handler's checks, in order, as a pure decision function that returns
    the failure (404, 401, 400, 409) or what to write;
  - each handler's writes, as a method on the store whose postcondition says
    exactly what changed.
- **Analytics counters** (`analytics.dfy`): the ten monthly counters shared
  by the project and workspace analytics endpoints.
- **Request schemas** (`schemas.dfy`): the task and project zod schemas.
- **Client-side state**:
  - the skills dialog's draft list (`skills_editor.dfy`, class `SkillsManager`);
  - the create-project dialog's two URL flags (`project_modal.dfy`, class
    `CreateProjectModal`).

Modelling choices:

- The clock, fresh ids and the store defaults of an insert are parameters.
- Dates are integers, except due dates, which stay `YYYY-MM-DD` texts.
- Month windows arrive as inclusive intervals.
- The AI service's answers (task plans, matches) are inputs, and a failing AI
  step is an input position at which the plan stops.

Places where the code does something other than what a reader may expect.
The model follows the code in each case and proves a lemma that shows it:

- **New task position** (`src/features/tasks/server/route.ts:141-153`). The
  query that names the highest position sorts ascending and takes the first
  row, so a new task goes 1000 after the *lowest* position in its column.
  `TasksRoute.NewPositionCanCollide` shows the new task taking the position
  of a task already in the column.
- **Role change self-check** (`src/features/members/server/route.ts:121-135`).
  The role change refuses a caller acting on their own membership. It never
  looks at the workspace owner. Its "only member" check can never answer:
  with one membership row, the caller's row is the target, so the self-target
  checks have already fired. See `MembersRoute.OnlyMemberCheckUnreachable`.
- **Skill values** (`src/features/members/server/route.ts:217-218`). Skill
  inserts pass the numbers under `experience_years` and `proficiency_score`.
  The table's columns are `experienceYears` and `proficiencyScore`. The
  model's insert keeps declared columns only, so nothing ties the stored
  numbers to the request. See `MembersRoute.SkillRow`.
- **Project analytics, assigned counters**
  (`src/features/projects/server/route.ts:291-308`). The assigned counters
  compare a task's assignee with the caller's *membership* id. Tasks store
  *user* ids as assignees. `ProjectsRoute.AssignedCountMissesUser` shows the
  count missing every task assigned to the caller. The workspace analytics
  compare with the user id and do not have this problem.
- **Dismissing the create-project dialog**
  (`src/features/projects/hooks/use-create-project-modal.ts:24-31`). Dismissing
  the dialog calls `setIsOpen(false)`, which leaves `use-ai` in the URL. See
  `ProjectModal.CreateProjectModal.SetIsOpen`.

## Model

| member | source | states |
|---|---|---|
| Common.ParseStatus | src/features/tasks/schemas.ts:6 | a status name is accepted iff it names one of the five statuses, and then maps back to that name |
| Common.TrimStart | src/features/tasks/schemas.ts:5 | `trimStart` drops exactly the leading whitespace: what is dropped is whitespace and the result starts with a non-whitespace character, or is empty |
| Common.TrimEnd | src/features/tasks/schemas.ts:5 | `trimEnd` drops exactly the trailing whitespace, symmetrically |
| Common.TrimEmptyIffBlank | src/features/tasks/schemas.ts:5 | a text trims to "" iff every character of it is whitespace |
| Common.Filter | src/lib/db-helpers.ts:284 | `Array.filter`: no longer than the input; it keeps exactly the elements that pass, in order |
| Common.FilterPartition | src/features/projects/server/route.ts:313-357 | filtering by a predicate and by its negation splits the rows, so the two counts add up to the whole |
| Common.FilterMonotone | src/features/projects/server/route.ts:359-368 | a stronger predicate selects no more rows, so the overdue count is at most the incomplete count |
| Common.FilterFilter | src/features/projects/server/route.ts:313-321 | filtering twice is filtering by the conjunction, which is what the conjunctive SQL `where` means |
| Common.FilterAll | src/features/members/components/user-skills-manager.tsx:100-102 | when every element passes, the filter keeps them all |
| Common.FilterNone | src/features/workspaces/server/route.ts:177-193 | when no element passes, the filter keeps nothing |
| Common.FilterAppend | src/features/members/components/user-skills-manager.tsx:100-102 | filtering distributes over concatenation |
| Common.FilterCongruent | src/lib/db-helpers.ts:284 | filtering depends only on the predicate's values on the rows |
| Common.FilterKeepsDistinct | src/lib/db-helpers.ts:284 | filtering rows with distinct keys keeps the keys distinct |
| Common.SingletonElements | src/features/tasks/server/route.ts:346-347 | a one-element sequence holds one value only |
| Common.InsertBy | src/lib/db-helpers.ts:316-327 | inserting into the sorted prefix adds exactly one element and keeps all the others |
| Common.InsertBySorted | src/lib/db-helpers.ts:316-327 | insertion keeps a sorted sequence sorted |
| Common.SortBy | src/lib/db-helpers.ts:316-327 | a sort by an integer key is a permutation of its input, sorted ascending |
| Common.SortByMembers | src/lib/db-helpers.ts:316-327 | sorting neither loses nor invents rows |
| Common.SortedFrontIsLeast | src/features/tasks/server/route.ts:142-148 | the first row after an ascending sort is a row of the input with the least key |
| Common.Round | src/lib/optimization.ts:119 | `Math.round` gives the nearest integer, halves rounding up |
| Common.DigitsOf | src/lib/optimization.ts:119 | the decimal text of a natural number is non-empty and made of digits |
| Common.DigitsRoundTrip | src/lib/optimization.ts:119 | the digits of a natural number read back as that number, with no leading zero unless the number is 0 |
| Common.IntToStringRoundTrip | src/lib/optimization.ts:119 | the text of an integer starts with `-` iff it is negative, and the rest reads back as its magnitude |
| DbHelpers.ColumnsShape | src/lib/db-helpers.ts:18-25 | every collection has `id`, `createdAt` and `updatedAt` columns, and no column name holds `_` |
| DbHelpers.ToApiResponse | src/lib/db-helpers.ts:28-37 | null stays null; otherwise `$id` holds the input's `id`, no `id` field remains, every other field is kept, and nothing new appears |
| DbHelpers.ApiResponseRoundTrip | src/lib/db-helpers.ts:28-37 | renaming `$id` back to `id` restores the row, so the response shape loses nothing |
| DbHelpers.ToApiResponseArray | src/lib/db-helpers.ts:39-43 | same length and order; element i is the response shape of row i |
| DbHelpers.FindById | src/lib/db-helpers.ts:111-144 | a `limit(1)` lookup finds nothing iff no row has the id, and otherwise a stored row with that id |
| DbHelpers.FindByIdUnique | src/lib/db-helpers.ts:111-144 | with unique ids the lookup returns the one row holding the id |
| DbHelpers.GetDocument | src/lib/db-helpers.ts:111-144 | an unknown collection throws; otherwise the result is the lookup by id, null when absent |
| DbHelpers.SnakeKeyOfLowercase | src/lib/db-helpers.ts:469-472 | a key without capitals is its own snake_case form |
| DbHelpers.SnakeKeyMarksCapitals | src/lib/db-helpers.ts:469-472 | a key with a capital gets `_` in its snake_case form |
| DbHelpers.SnakeFallbackUnused | src/lib/db-helpers.ts:396-473 | `getColumn` finds a column iff the key itself names one, because no column name holds `_` |
| DbHelpers.BuildConditions | src/lib/db-helpers.ts:251-282 | the loop yields no conditions iff some non-null key names no column; otherwise one condition per non-null entry at most, and a row satisfies all of them iff it matches every non-null filter entry (equality, or membership for `$in` and arrays) |
| DbHelpers.Paginate | src/lib/db-helpers.ts:330-335 | the page starts at row `offset` and holds the next `limit` rows, or every remaining row when fewer remain or no limit is given; each of the two is applied only when non-zero, so with neither the page is all the rows |
| DbHelpers.NewestFirstSlice | src/lib/db-helpers.ts:330-335 | a page of a newest-first sequence is newest first |
| DbHelpers.SortedDescendingIsNewestFirst | src/lib/db-helpers.ts:316-327 | sorting by descending `createdAt` gives newest first |
| DbHelpers.NewestAtFront | src/lib/db-helpers.ts:316-327 | after that sort no row is newer than the first |
| DbHelpers.PageOfSorted | src/lib/db-helpers.ts:316-335 | a page of the sorted rows holds input rows only, at most as many, and all of them when unpaged |
| DbHelpers.NewestPage | src/lib/db-helpers.ts:316-335 | a newest-first page is newest first, and a page without offset starts with the newest row |
| DbHelpers.Arrange | src/lib/db-helpers.ts:316-335 | the ordering and paging step is the page, at `offset` and `limit`, of the rows sorted by the column in the direction; it returns selected rows only, is bounded by the limit, is a permutation when unpaged, and is newest first under the default order |
| DbHelpers.ListDocuments | src/lib/db-helpers.ts:239-374 | an unknown collection throws, and so does an unresolved column; otherwise `total` counts every matching row regardless of paging, and the documents are the page at `offset` and `limit` of the matching rows sorted by the requested column, or newest first when no sort is given; hence no more than `total` or `limit`, all of them when unpaged, and empty iff `total` is 0 when there is no offset |
| DbHelpers.ByFieldSelects | src/lib/db-helpers.ts:251-284 | filtering on one existing column selects exactly the rows holding that value |
| DbHelpers.UnpagedListing | src/lib/db-helpers.ts:330-368 | without paging a listing is a permutation of the matching rows (each as often as it is stored), as many as its total |
| DbHelpers.IdInSelects | src/lib/db-helpers.ts:257-264 | `{ id: { $in: ids } }` selects exactly the rows whose id is listed |
| DbHelpers.ListByField | src/lib/db-helpers.ts:239-374 | `listDocuments(c, { key: s })` returns a permutation of the rows holding s, newest first, with `total` equal to their number |
| DbHelpers.RowsHaveIds | src/lib/db-helpers.ts:50-109 | every stored row carries a text id |
| DbHelpers.ApiListByField | src/lib/db-helpers.ts:39-43 | the same listing through `toApiResponseArray`: element i is the response shape of the listing's i-th row, so every matching row appears once, newest first |
| DbHelpers.FilterKeepsIdFree | src/lib/db-helpers.ts:211-237 | deleting rows cannot bring back an id |
| DbHelpers.DeleteOneMore | src/lib/db-helpers.ts:211-237 | deleting one more id excludes one more value |
| DbHelpers.DeleteRemovesOne | src/lib/db-helpers.ts:211-237 | with unique ids, deleting by the id of row i removes exactly row i and keeps the others in order |
| DbHelpers.NewRow | src/lib/db-helpers.ts:50-109 | the inserted row has only table columns, the new id, `createdAt == updatedAt == now`, the supplied column values, and the defaults elsewhere |
| DbHelpers.UpdateRows | src/lib/db-helpers.ts:146-209 | an update patches every row with the id and leaves every other row alone |
| DbHelpers.UpdateOneRow | src/lib/db-helpers.ts:146-209 | with unique ids it patches exactly that row, and reading it back gives the patched row |
| DbHelpers.NewRows | src/lib/db-helpers.ts:50-109 | a batch of inserts stores one new row per supplied document, in order |
| DbHelpers.Database.constructor | src/lib/db-helpers.ts:18-25 | a fresh store holds every collection with no rows |
| DbHelpers.Database.Create | src/lib/db-helpers.ts:50-109 | `createDocument`: an unknown collection throws and changes nothing; otherwise exactly one new row is appended and returned, and ids stay unique |
| DbHelpers.Database.Get | src/lib/db-helpers.ts:111-144 | `getDocument` returns the stored row with the id, or null |
| DbHelpers.Database.Update | src/lib/db-helpers.ts:146-209 | `updateDocument`: only the supplied columns and `updatedAt` change, on the row with the id; the result is the patched row, or null when no row has the id |
| DbHelpers.Database.Delete | src/lib/db-helpers.ts:211-237 | `deleteDocument` removes exactly the rows with the id and returns true for every known collection |
| DbHelpers.Database.CreateAll | src/lib/db-helpers.ts:50-109 | a batch of creates appends the new rows in order and changes nothing else |
| DbHelpers.Database.List | src/lib/db-helpers.ts:239-374 | `listDocuments`, with its conditions built in a loop, agrees with the listing function |
| MemberLookup.MemberCriteriaSelects | src/features/members/utils.ts:13-23 | the filter always constrains `userId`, and constrains the workspace and project only when they are truthy |
| MemberLookup.SelectedMemberships | src/features/members/utils.ts:13-27 | the rows the query selects are exactly the user's memberships in scope |
| MemberLookup.FirstMembership | src/features/members/utils.ts:25-27 | the `limit 1` query is empty iff there is no membership in scope, and otherwise it holds the newest one |
| MemberLookup.GetMember | src/features/members/utils.ts:4-38 | null iff no membership matches; otherwise a matching row of the user, newest first, with `$id` equal to its `id` and every field kept |
| MemberLookup.WorkspaceMember | src/features/members/utils.ts:4-38 | `getMember` for a workspace is null iff the user has no membership there |
| MemberLookup.WorkspaceMemberInWorkspace | src/features/members/utils.ts:17-23 | a membership found in a non-empty workspace belongs to that workspace and that user |
| WorkspaceQueries.WorkspaceIdsOf | src/features/workspaces/queries.ts:12-18 | the collected ids are exactly the non-null `workspaceId` values of the memberships |
| WorkspaceQueries.MembershipIds | src/features/workspaces/queries.ts:6-22 | a workspace id is collected iff the user has a membership naming it |
| WorkspaceQueries.WorkspacesNamed | src/features/workspaces/queries.ts:20-24 | the listing by `id $in ids` is a permutation of the stored workspaces whose id is listed, newest first, with `total` equal to their number |
| WorkspaceQueries.GetWorkspaces | src/features/workspaces/queries.ts:5-26 | the result is a permutation of the stored workspaces the user belongs to (each once per stored row, none twice), newest first, and `total` equals their number, so no membership means an empty result |
| ProjectQueries.GetProject | src/features/projects/queries.ts:10-32 | null when no project has the id or the user is not a member of its workspace; otherwise the stored row itself |
| MembersRoute.Headcount | src/features/members/server/route.ts:70-72 | the member total is the number of membership rows of the workspace |
| MembersRoute.CountedInWorkspace | src/features/members/server/route.ts:70-72 | every membership row of a workspace is counted |
| MembersRoute.Target | src/features/members/server/route.ts:66-69 | the target is found iff some row with the id has a truthy workspace, and then it is that stored row |
| MembersRoute.CallerFacts | src/features/members/utils.ts:33-37 | the caller's row found by `getMember` keeps its role, and its `$id` names that membership |
| MembersRoute.ListMembers | src/features/members/server/route.ts:13-61 | 401 iff the caller has no membership in the given scope; only then the 400 for a missing scope; otherwise exactly the response-shaped listing of the workspace's members, or else of the project's, with their count as total |
| MembersRoute.DeleteDecision | src/features/members/server/route.ts:63-92 | 404 iff the target is missing or has no workspace; then 401 for a non-member; then 401 unless the caller is the target or an ADMIN; then 400 for the owner; then 409 for the only member. A granted delete names a target that is not the owner, in a workspace with at least two members |
| MembersRoute.DeleteMember | src/features/members/server/route.ts:63-95 | a refused delete changes nothing; a granted one removes exactly the target membership row |
| MembersRoute.ChangeRoleDecision | src/features/members/server/route.ts:96-135 | 404 iff the target is missing; then 401 for a caller without membership and 401 for a non-ADMIN caller; for a self-target, 409 when the role would stay ADMIN and 400 otherwise; a granted change names the target, and is granted whenever an ADMIN acts on another row in a workspace with more than one member |
| MembersRoute.RoleChangeAuthorized | src/features/members/server/route.ts:115-129 | a granted role change comes from an ADMIN of the target's workspace acting on another member's row |
| MembersRoute.RoleChecks | src/features/members/server/route.ts:115-135 | the checks after the lookup, in order: 401 for a missing or non-ADMIN caller; for a self-target 409 when ADMIN is requested, else 400; otherwise 400 when the workspace has one member, else the target |
| MembersRoute.OnlyMemberCheckUnreachable | src/features/members/server/route.ts:121-135 | the "only member" refusal is never the outcome |
| MembersRoute.AloneInWorkspace | src/features/members/server/route.ts:130 | two membership rows of a workspace with a headcount of one are the same row |
| MembersRoute.RoleUpdateWritesRoleOnly | src/features/members/server/route.ts:136-138 | the role update writes the role and `updatedAt` and nothing else |
| MembersRoute.RoleChangeEffect | src/features/members/server/route.ts:136-138 | the role update patches only the target row, and reading it back gives the patched row |
| MembersRoute.ChangeRole | src/features/members/server/route.ts:96-141 | a refused change writes nothing; a granted one changes only the target row's role and update time, and answers it |
| MembersRoute.SkillsAccess | src/features/members/server/route.ts:145-159 | the skills gate: 404 iff there is no target; for an existing target, the target is granted iff the caller's membership of its workspace is that target or an ADMIN, and 401 otherwise |
| MembersRoute.SkillsAccessAuthorized | src/features/members/server/route.ts:153-159 | a caller outside the workspace is refused; an admitted caller is the target member or an ADMIN of its workspace |
| MembersRoute.GetSkills | src/features/members/server/route.ts:142-164 | behind the gate, exactly the response-shaped listing of the target's skill rows, each once, with their total |
| MembersRoute.SkillData | src/features/members/server/route.ts:212-219 | the data of one skill insert carries no id |
| MembersRoute.SkillRow | src/features/members/server/route.ts:212-219 | a stored skill row has its new id, member, workspace, name and category, and no snake_case number keys; the numbers are left to the store |
| MembersRoute.SkillsData | src/features/members/server/route.ts:210-221 | one insert's data per requested skill, in order |
| MembersRoute.SkillRows | src/features/members/server/route.ts:210-221 | one stored row per requested skill, in order, each with its new id |
| MembersRoute.SkillsReplaced | src/features/members/server/route.ts:200-221 | after a replace the member's skill rows are exactly the new rows, and every other member keeps its own |
| MembersRoute.ListedIdsSelect | src/features/members/server/route.ts:201-208 | deleting by the listed ids removes exactly the member's skill rows |
| MembersRoute.DeleteSkillsOf | src/features/members/server/route.ts:200-208 | every skill row of the member is deleted and the other rows stay, in order |
| MembersRoute.InsertSkills | src/features/members/server/route.ts:209-221 | one new row per requested skill is appended, in request order |
| MembersRoute.SwapSkills | src/features/members/server/route.ts:200-221 | the deletion and then the insertion, as a single change to the skills table |
| MembersRoute.ReplaceSkills | src/features/members/server/route.ts:165-224 | an out-of-range skill gives 400 and changes nothing; a refused gate changes nothing; otherwise the member's skills are replaced by the request |
| Optimization.LoadOf | src/lib/optimization.ts:27-38 | a member's weighted load is never negative |
| Optimization.LoadOfIdle | src/lib/optimization.ts:34 | a member without open assigned tasks carries no load |
| Optimization.LoadOfCountsOpenTasks | src/lib/optimization.ts:31-33 | each open task assigned to a member adds at least one unit |
| Optimization.CalculateWorkload | src/lib/optimization.ts:17-41 | the map's keys are exactly the member ids, and each value is the weighted sum of that member's tasks (2 in progress, 1.5 in review, 0 done, 1 otherwise) |
| Optimization.MaxLoad | src/lib/optimization.ts:79 | the largest load of a listed member |
| Optimization.MinLoad | src/lib/optimization.ts:80 | the smallest load of a listed member |
| Optimization.LoadRange | src/lib/optimization.ts:81 | `max - min`, or 1 when every load is equal: always positive |
| Optimization.NormaliseBounds | src/lib/optimization.ts:88 | a load between the bounds normalises into [0, 1] |
| Optimization.NormaliseAntitone | src/lib/optimization.ts:88 | more load never normalises higher |
| Optimization.NormaliseAtMost | src/lib/optimization.ts:88 | a load at or below the minimum normalises to 1 or more |
| Optimization.WorkloadScoreBounds | src/lib/optimization.ts:85-88 | a listed member's workload score lies in [0, 1] |
| Optimization.LeastLoadedScoresOne | src/lib/optimization.ts:85-88 | the least loaded members score exactly 1 |
| Optimization.EqualLoadsScoreOne | src/lib/optimization.ts:79-88 | when every load is equal, every listed member scores exactly 1 |
| Optimization.WorkloadScoreAntitone | src/lib/optimization.ts:85-88 | lower load scores at least as high |
| Optimization.OutsiderScoresAtLeastOne | src/lib/optimization.ts:85 | a candidate outside the member list counts as load 0 and scores at least 1 |
| Optimization.CombinedScoreBounds | src/lib/optimization.ts:97-98 | with match score and coverage in [0, 1], the combined score of a listed member lies in [0, 1] |
| Optimization.FirstMax | src/lib/optimization.ts:109-111 | the position a stable descending sort brings to the front holds a maximal score, and every earlier one is strictly lower |
| Optimization.FindTask | src/lib/optimization.ts:55 | `find` fails iff no task has the id; otherwise it returns a task with that id |
| Optimization.MissingPrerequisiteBlocks | src/lib/optimization.ts:54-57 | an unknown prerequisite makes the dependencies unsatisfied |
| Optimization.UnfinishedPrerequisiteBlocks | src/lib/optimization.ts:54-57 | a prerequisite that is found but not DONE makes them unsatisfied |
| Optimization.ReasonWarnsIffBlocked | src/lib/optimization.ts:117-125 | the reason ends with the dependency warning iff the dependencies are unsatisfied |
| Optimization.OptimizeAssignments | src/lib/optimization.ts:67-133 | null iff there are no candidates |
| Optimization.Scores | src/lib/optimization.ts:84-106 | the combined score of every candidate, in candidate order |
| Optimization.OptimizeAssignmentsPicksBest | src/lib/optimization.ts:97-132 | the result recommends a candidate with the highest combined score, every earlier candidate scoring strictly lower; it carries the task's id, that candidate's id, the score as confidence, and the reason for that candidate |
| Optimization.RecommendationUnique | src/lib/optimization.ts:109-111 | at most one candidate position fits that description |
| Optimization.TieGoesToEarlierCandidate | src/lib/optimization.ts:109-111 | among equal combined scores the first candidate listed wins |
| Optimization.BulkPlan | src/lib/optimization.ts:153-164 | the gathered keys are exactly the visited tasks that have candidates |
| Optimization.BulkPlanNext | src/lib/optimization.ts:153-164 | visiting one more task adds its recommendation when it has one, and otherwise changes nothing |
| Optimization.BulkPlanValues | src/lib/optimization.ts:153-164 | every entry is the recommendation computed for a visited task with that id |
| Optimization.BulkPlanReordered | src/lib/optimization.ts:144-164 | visiting the tasks in any order covers the same ids |
| Optimization.BulkPlanOwnTask | src/lib/optimization.ts:144-164 | with unique task ids, each task gets exactly its own recommendation, scored against the original list |
| Optimization.OptimizeBulkAssignments | src/lib/optimization.ts:138-167 | the loop over the tasks, sorted by prerequisite count, yields the gathered plan |
| Optimization.BulkAssignmentsCover | src/lib/optimization.ts:138-167 | the bulk results cover exactly the tasks with candidates, whatever the visiting order, and each entry is `optimizeAssignments` of its task against the unsorted list |
| Analytics.TextAtMostReflexive | src/features/projects/server/route.ts:364 | the due-date comparison `dueDate <= today` holds when the two are equal |
| Analytics.KindsSplit | src/features/projects/server/route.ts:269-382 | incomplete and complete tasks add up to all tasks; overdue tasks are among the incomplete ones; assigned tasks are among all |
| Analytics.MonthlyCounters | src/features/projects/server/route.ts:287-382 | each count is the number of rows its query selects this month, and each difference is that count minus last month's; so incomplete and complete add up to all, overdue is within incomplete and assigned within all, in both months |
| Analytics.DueTodayIsOverdue | src/features/projects/server/route.ts:359-368 | an incomplete task due today counts as overdue |
| TasksRoute.TaskGate | src/features/tasks/server/route.ts:17-33 | 404 iff no task has the id; otherwise 401 or the stored task |
| TasksRoute.TaskGateRefuses | src/features/tasks/server/route.ts:27-33 | 401 iff the caller has no membership in the task's workspace |
| TasksRoute.DeleteTask | src/features/tasks/server/route.ts:17-36 | a refused delete changes nothing; a granted one removes the task's row and nothing else |
| TasksRoute.ProjectOf | src/features/tasks/server/route.ts:296-301 | a task's project is looked up only when its `projectId` is truthy, and found only when stored |
| TasksRoute.ViewOf | src/features/tasks/server/route.ts:108-120 | a task in response shape with its project, its creation time kept |
| TasksRoute.GetTask | src/features/tasks/server/route.ts:276-318 | the gate's failure, or the task in response shape with `$id` set to the requested id |
| TasksRoute.MatchingTasks | src/features/tasks/server/route.ts:63-83 | a permutation of exactly the tasks meeting the workspace and every truthy filter, newest first |
| TasksRoute.ListTasks | src/features/tasks/server/route.ts:37-123 | 401 iff the caller is not a member of the workspace; otherwise element i is the i-th matching task with its project, so every matching task appears once, and `total` equals the list length |
| TasksRoute.ListTasksNewestFirst | src/features/tasks/server/route.ts:83 | the list is ordered by `createdAt` descending |
| TasksRoute.NewPosition | src/features/tasks/server/route.ts:141-153 | 1000 for an empty column; otherwise the lowest position in the column plus 1000 |
| TasksRoute.NewPositionCanCollide | src/features/tasks/server/route.ts:141-153 | a new task can take the position of a task already in its column |
| TasksRoute.ResolveAssignee | src/features/tasks/server/route.ts:160-187 | no assignee asked for means unassigned; a membership row of this workspace with the id always resolves to that membership's user; an id that is no membership but a user with a membership here always resolves to itself; any other outcome is one of the two 400s |
| TasksRoute.ResolveAssigneeRefuses | src/features/tasks/server/route.ts:164-184 | "not found" iff the id is neither a membership nor a user; a membership of another workspace is refused; so is a user outside the workspace |
| TasksRoute.NewTaskData | src/features/tasks/server/route.ts:189-198 | the insert holds the name, the status, the workspace, the due date and the position; it holds the project and description only when truthy, and the resolved assignee only when there is one |
| TasksRoute.CreateDecision | src/features/tasks/server/route.ts:129-198 | 401 iff the caller is not a member; then the assignee's 400; otherwise exactly the new-task document for the request, the computed position and the resolved assignee |
| TasksRoute.CreateTask | src/features/tasks/server/route.ts:125-200 | a refused create changes nothing; a granted one appends exactly one task row and answers it in response shape |
| TasksRoute.CreatedTaskRow | src/features/tasks/server/route.ts:189-199 | the stored row has the request's fields, the computed position and the creation time |
| TasksRoute.TaskUpdateData | src/features/tasks/server/route.ts:226-266 | the update has a column for each supplied field and no other; a failed assignee gives 400 |
| TasksRoute.TaskUpdateValues | src/features/tasks/server/route.ts:226-266 | supplied values are written as given; a falsy assignee clears it to null |
| TasksRoute.BuildTaskUpdate | src/features/tasks/server/route.ts:226-266 | the field-by-field build agrees with the update-data function |
| TasksRoute.PatchTask | src/features/tasks/server/route.ts:202-275 | gate failures and assignee failures change nothing; otherwise only the task's row changes, by the supplied fields and `updatedAt` |
| TasksRoute.PatchKeepsIdentity | src/features/tasks/server/route.ts:226-266 | a patch never writes the id, `createdAt`, the workspace or the position |
| TasksRoute.PatchChangesOnlySupplied | src/features/tasks/server/route.ts:226-272 | every column outside the update data keeps its value, apart from `updatedAt` |
| TasksRoute.ExistingTasks | src/features/tasks/server/route.ts:339-340 | the stored tasks whose id is listed |
| TasksRoute.OneWorkspace | src/features/tasks/server/route.ts:346-347 | one workspace in the set iff every found task shares the first one's workspace |
| TasksRoute.BulkDecision | src/features/tasks/server/route.ts:319-358 | 400 iff some position is outside [1000, 1000000]; then 404 iff no listed task exists; then 400 for mixed workspaces; then 401 for a non-member; with valid positions and some found task, mixed workspaces give 400 and one workspace is granted iff the caller is a member of it (401 otherwise); a granted request has one workspace holding every found task |
| TasksRoute.BulkEmptyNotFound | src/features/tasks/server/route.ts:325-343 | an empty `tasks` array passes validation, names no task and is answered 404 (an empty `inArray` selecting no rows) |
| TasksRoute.BulkMixedRefused | src/features/tasks/server/route.ts:346-349 | found tasks from two workspaces are refused with 400 |
| TasksRoute.MoveData | src/features/tasks/server/route.ts:363-366 | a move writes no id and no creation time |
| TasksRoute.MovePatch | src/features/tasks/server/route.ts:363-366 | a move writes the status, the position and `updatedAt`, and nothing else |
| TasksRoute.ApplyMoves | src/features/tasks/server/route.ts:360-368 | the moves keep the number of task rows |
| TasksRoute.MoveResults | src/features/tasks/server/route.ts:360-370 | one answer per move |
| TasksRoute.MoveStep | src/features/tasks/server/route.ts:360-368 | the k-th move extends the first k |
| TasksRoute.LastMoveFor | src/features/tasks/server/route.ts:360-368 | the last move naming a row exists iff the row is listed |
| TasksRoute.ApplyMovesEffect | src/features/tasks/server/route.ts:360-368 | a listed task takes the status and position of the last move naming it, stamped with `updatedAt`; an unlisted row is unchanged |
| TasksRoute.MovedRow | src/features/tasks/server/route.ts:360-368 | the same, for each row of the table after the moves |
| TasksRoute.MoveTasks | src/features/tasks/server/route.ts:360-370 | the update loop changes exactly the task table, by the moves, and answers each move's row |
| TasksRoute.BulkUpdate | src/features/tasks/server/route.ts:319-372 | a refused request changes nothing; a granted one applies every move and answers the updated rows |
| ProjectsRoute.ProjectGate | src/features/projects/server/route.ts:169-182 | 404 iff no project has the id; otherwise 401 or the stored project |
| ProjectsRoute.ProjectGateRefuses | src/features/projects/server/route.ts:176-182 | 401 iff the caller has no membership in the project's workspace |
| ProjectsRoute.ProjectData | src/features/projects/server/route.ts:48-54 | the project row has the name, the workspace and the generation type (default manual); it has the image only when uploaded, and the prompt only when non-empty |
| ProjectsRoute.DaysFor | src/features/projects/server/route.ts:114 | `ceil(hours / 8)`, the days of work for an estimate |
| ProjectsRoute.PlanKeysAreColumns | src/features/projects/server/route.ts:117-128 | a planned task writes task columns only, none of them stamped by the store |
| ProjectsRoute.PlanAssignee | src/features/projects/server/route.ts:110-122 | the first matched user, or the creating user when there is no match |
| ProjectsRoute.PlanTaskData | src/features/projects/server/route.ts:117-128 | a planned task writes exactly the plan's columns |
| ProjectsRoute.PlanTaskFields | src/features/projects/server/route.ts:117-128 | the i-th planned task is a TODO task of the new project and workspace, at position (i+1)·1000, named "Task i+1" when its name is empty, due after its estimated days, with `dependsOn` defaulting to [] and every matched user listed in order |
| ProjectsRoute.PlannedCount | src/features/projects/server/route.ts:57-133 | tasks are written only for an AI plan with a prompt; all of them, or those before the failing step |
| ProjectsRoute.PlanData | src/features/projects/server/route.ts:108-129 | the data of task i is the plan's data for task i, for every written task |
| ProjectsRoute.CreateProject | src/features/projects/server/route.ts:20-137 | a non-member gets 401 and nothing changes; otherwise the project row is appended, then its planned task rows in order; a failing AI step keeps the rows already written and still answers the project |
| ProjectsRoute.InsertProjectAndTasks | src/features/projects/server/route.ts:48-129 | the project row, then the task rows, appended in order |
| ProjectsRoute.CreatedProjectRow | src/features/projects/server/route.ts:48-54 | the stored project has the request's name and workspace, the generation type defaulting to manual, and the creation time |
| ProjectsRoute.PlannedTaskRows | src/features/projects/server/route.ts:108-129 | every stored planned task is a TODO task of the new project, assigned to its best match or to the caller, at position (i+1)·1000 |
| ProjectsRoute.PlannedRow | src/features/projects/server/route.ts:117-128 | storing a planned task keeps its data's columns |
| ProjectsRoute.ListProjects | src/features/projects/server/route.ts:139-160 | 401 iff the caller is not a member; otherwise exactly the response-shaped listing of the workspace's projects, each once, newest first |
| ProjectsRoute.ListProjectsSorted | src/features/projects/server/route.ts:153-157 | the explicit sort by `createdAt` descending lists exactly what the default order lists |
| ProjectsRoute.ProjectUpdateData | src/features/projects/server/route.ts:196-203 | the update holds the name and the image, each only when supplied |
| ProjectsRoute.PatchProject | src/features/projects/server/route.ts:161-206 | a gate failure changes nothing; otherwise only the project's row changes, by the supplied fields and `updatedAt` |
| ProjectsRoute.PatchKeepsProject | src/features/projects/server/route.ts:196-203 | a patch never writes the id, `createdAt` or the workspace |
| ProjectsRoute.DeleteProject | src/features/projects/server/route.ts:207-226 | a gate failure changes nothing; otherwise the project's row is removed and nothing else |
| ProjectsRoute.GetProjectRoute | src/features/projects/server/route.ts:227-245 | the gate's failure, or the project in response shape with `$id` set to the requested id |
| ProjectsRoute.MembershipId | src/features/projects/server/route.ts:256-259 | the id of one of the caller's membership rows in the workspace |
| ProjectsRoute.ProjectAnalytics | src/features/projects/server/route.ts:246-397 | the gate's failure; otherwise the ten monthly counters of the project's tasks, with the assigned ones compared against the caller's membership id |
| ProjectsRoute.AssignedCountMissesUser | src/features/projects/server/route.ts:291-308 | tasks assigned to the caller's user id are not counted as assigned when the membership id differs from it |
| WorkspacesRoute.ListWorkspaces | src/features/workspaces/server/route.ts:18-50 | exactly the workspaces `getWorkspaces` finds, in the same order, in response shape |
| WorkspacesRoute.ListedWorkspaces | src/features/workspaces/server/route.ts:22-49 | every listed workspace is one the caller belongs to, and carries its id as `$id` |
| WorkspacesRoute.WorkspaceData | src/features/workspaces/server/route.ts:77-82 | the workspace row has the name, the caller as owner and the invite code; it has the image only when the upload produced one |
| WorkspacesRoute.AdminMembershipData | src/features/workspaces/server/route.ts:84-88 | the creator's membership of the new workspace, with role ADMIN |
| WorkspacesRoute.CreateWorkspace | src/features/workspaces/server/route.ts:51-91 | exactly two rows are appended, the workspace and then the creator's ADMIN membership of it, and the workspace is answered |
| WorkspacesRoute.CreatedWorkspaceRow | src/features/workspaces/server/route.ts:77-90 | the stored workspace is owned by its creator and carries the new id, which the response names as `$id` |
| WorkspacesRoute.CreatorIsAdmin | src/features/workspaces/server/route.ts:84-88 | after the create, the creator holds an ADMIN membership of the new workspace |
| WorkspacesRoute.AdminGate | src/features/workspaces/server/route.ts:102-109 | the gate passes iff the caller's `getMember` row for the workspace exists and is ADMIN, and then yields that row; everyone else gets 401 |
| WorkspacesRoute.ResolveImage | src/features/workspaces/server/route.ts:111-124 | an uploaded file's data URL, a non-empty image text, or nothing |
| WorkspacesRoute.WorkspaceUpdateData | src/features/workspaces/server/route.ts:126-130 | the update holds the name only when it is non-empty, and the image only when one resolves |
| WorkspacesRoute.WorkspacePatchKeeps | src/features/workspaces/server/route.ts:126-136 | a patch never writes the id, `createdAt`, the owner or the invite code |
| WorkspacesRoute.PatchWorkspace | src/features/workspaces/server/route.ts:93-140 | a non-admin gets 401 and nothing changes; otherwise only the workspace's row changes, by the update data and `updatedAt` |
| WorkspacesRoute.DeleteWorkspace | src/features/workspaces/server/route.ts:141-156 | a non-admin gets 401 and nothing changes; otherwise no workspace has the id afterwards, and no other table changes |
| WorkspacesRoute.ProjectIdsOf | src/features/workspaces/server/route.ts:171-175 | the ids of exactly the workspace's projects |
| WorkspacesRoute.NoProjectIds | src/features/workspaces/server/route.ts:175-177 | no project ids iff the workspace has no project |
| WorkspacesRoute.WorkspaceScope | src/features/workspaces/server/route.ts:204 | a task is in scope iff it points at a project of the workspace |
| WorkspacesRoute.CountOutOfScope | src/features/workspaces/server/route.ts:177-193 | a scope that holds no row counts 0 |
| WorkspacesRoute.NoProjectsNoCounters | src/features/workspaces/server/route.ts:177-193 | the early all-zero answer is what counting would have given |
| WorkspacesRoute.WorkspaceAnalytics | src/features/workspaces/server/route.ts:157-330 | 401 iff the caller is not a member; otherwise the ten monthly counters of the tasks of the workspace's projects, all zero when it has none |
| WorkspacesRoute.GetWorkspace | src/features/workspaces/server/route.ts:331-346 | 401 iff the caller is not a member; otherwise the workspace in response shape, or null when no workspace has the id |
| Schemas.RequiredIffNotBlank | src/features/tasks/schemas.ts:5 | `trim().min(1)` accepts a text iff it holds a non-whitespace character |
| Schemas.TrimIdempotent | src/features/tasks/schemas.ts:5 | a trimmed text has no whitespace at either end, and trimming again changes nothing |
| Schemas.ParseCreateTask | src/features/tasks/schemas.ts:4-12 | accepted iff the name and workspace are non-blank, the status is absent or one of the five, the due date is a date and the assignee is absent, null or non-blank; the accepted values are trimmed, and the status defaults to TODO |
| Schemas.ParsedTaskIsTrimmed | src/features/tasks/schemas.ts:5-10 | the accepted texts are already trimmed |
| Schemas.ParseGenerationType | src/features/projects/schema.ts:13 | exactly "manual" and "ai_generated" are accepted, each as itself |
| Schemas.ParseCreateProject | src/features/projects/schema.ts:3-14 | accepted iff the name is non-blank, a workspace is given and the generation type is absent or valid; the name is trimmed; only an uploaded file becomes the image |
| Schemas.AiPlanRequested | src/features/projects/server/route.ts:57 | tasks are planned iff the generation type is "ai_generated" and the prompt is non-empty |
| Schemas.ParseUpdateProject | src/features/projects/schema.ts:16-25 | accepted iff the name is absent or non-blank; the name is trimmed; an empty image text counts as no image |
| SkillsEditor.Coalesce | src/features/members/components/user-skills-manager.tsx:55-69 | `a ?? b ?? 0`: a stored 0 is kept |
| SkillsEditor.FromDoc | src/features/members/components/user-skills-manager.tsx:55-69 | a draft takes name and category as stored; each number comes from its snake_case key, else from its camelCase key, else 0 |
| SkillsEditor.InitialDrafts | src/features/members/components/user-skills-manager.tsx:55-69 | one draft per document, in order; none while nothing is loaded |
| SkillsEditor.ApplyEdit | src/features/members/components/user-skills-manager.tsx:93-97 | an edit changes its field and keeps every other field |
| SkillsEditor.Renamed | src/features/members/components/user-skills-manager.tsx:107-112 | one request entry per saved row |
| SkillsEditor.Submission | src/features/members/components/user-skills-manager.tsx:99-119 | nothing is submitted iff no row has a non-blank name |
| SkillsEditor.SubmittedCount | src/features/members/components/user-skills-manager.tsx:100-102 | one entry per named row: the entries and the blank rows add up to all rows |
| SkillsEditor.NamedRowsSubmitted | src/features/members/components/user-skills-manager.tsx:100-112 | every named row is submitted, renamed, with its values unchanged |
| SkillsEditor.SubmittedAreNamedRows | src/features/members/components/user-skills-manager.tsx:100-112 | every submitted entry is a named row, renamed |
| SkillsEditor.BlankRowIgnored | src/features/members/components/user-skills-manager.tsx:100-102 | a blank row, wherever it stands, changes nothing in what is submitted |
| SkillsEditor.AddedRowNotSubmitted | src/features/members/components/user-skills-manager.tsx:77-88 | a freshly added row is never submitted until it is named |
| SkillsEditor.AllNamedAllSubmitted | src/features/members/components/user-skills-manager.tsx:100-112 | when every row is named, every row is submitted, in order |
| SkillsEditor.SkillsManager.constructor | src/features/members/components/user-skills-manager.tsx:55-69 | a closed dialog without rows |
| SkillsEditor.SkillsManager.OpenChange | src/features/members/components/user-skills-manager.tsx:71-76 | opening reloads the drafts from the documents; closing keeps them |
| SkillsEditor.SkillsManager.AddSkill | src/features/members/components/user-skills-manager.tsx:77-88 | appends exactly one blank draft (name "", category "Other", 0 years, proficiency 50) and keeps the rest |
| SkillsEditor.SkillsManager.RemoveSkill | src/features/members/components/user-skills-manager.tsx:89-91 | removes only row i, the rest keeping their order; an index out of range changes nothing |
| SkillsEditor.SkillsManager.UpdateSkill | src/features/members/components/user-skills-manager.tsx:93-97 | row i takes the edit; the length and every other row are unchanged |
| ProjectModal.CreateProjectModal.QueryParams | src/features/projects/hooks/use-create-project-modal.ts:4-11 | a flag is in the URL iff it is set |
| ProjectModal.CreateProjectModal.constructor | src/features/projects/hooks/use-create-project-modal.ts:4-11 | both flags default to false, and the URL carries neither |
| ProjectModal.CreateProjectModal.GenAiProject | src/features/projects/hooks/use-create-project-modal.ts:12-15 | opens the dialog on the AI form, from any state |
| ProjectModal.CreateProjectModal.Open | src/features/projects/hooks/use-create-project-modal.ts:16-19 | opens the dialog on the manual form, from any state |
| ProjectModal.CreateProjectModal.Close | src/features/projects/hooks/use-create-project-modal.ts:20-23 | both flags false from any state, and so idempotent |
| ProjectModal.CreateProjectModal.SetIsOpen | src/features/projects/hooks/use-create-project-modal.ts:24-31 | sets only `isOpen`; dismissing the AI dialog leaves `use-ai` in the URL |

## Left out

- The AI service (`src/lib/ai-client.ts`): task generation, indexing and matching are inputs to the model. The members-with-skills listing built only for the AI service is not modelled.
- Sessions and authentication: the caller's user id is a parameter.
- Image upload and base64 encoding: an image arrives as an uploaded data URL, or as none when reading the file failed.
- Calendar arithmetic: month windows, today's `YYYY-MM-DD` text, the due date of a planned task, and zod's date coercion are inputs.
- Number formatting: the description of a planned task uses a number-to-text parameter. The percentage in the reason text and the fallback task names use `Common.IntToString`, the integer text without exponent forms.
- JavaScript numbers are modelled as exact reals or integers. Floating-point rounding is not modelled.
- Optimization.OptimizeAssignments: requires a non-empty member list. With no members, `Math.max`/`Math.min` give ±Infinity and the scores are NaN, which is not modelled. The same holds for every optimizer member that requires `|memberIds| > 0`.
- SQL `LIKE` wildcards in the task search: modelled as plain substring containment.
- `getUserById` population of names and e-mails in the listings is left out; only the user's existence matters, for assignee resolution.
- `Promise.all` concurrency: skill deletes, skill inserts and bulk moves happen one after another, in request order.
- Sorting: SQL `ORDER BY` is not stable, and `Common.SortBy` promises nothing about the order of rows with equal keys. A sort given with several keys is not modelled.
- The snake_case conversion lower-cases ASCII letters only.
- `generateInviteCode`: the invite code is a parameter.
- Foreign-key cascades of the database (deleting a workspace, project or member) are not modelled.
- Store failures other than an unknown collection or column are not modelled. A failing AI step is modelled as a position in the plan.
- The task `status` column is assumed never null.
- `inArray` with an empty list: `/bulk-update` accepts an empty `tasks` array and reaches `inArray` with no ids. The model assumes an empty `inArray` selects no rows, so TasksRoute.BulkDecision answers an empty request with 404. Drizzle releases that throw on an empty list would answer 500 instead. The workspace analytics reach `inArray` only when the workspace has projects, and the early zero answer covers the empty case.
- One clock value serves both the handler and the store's timestamps.
- SkillsEditor.SkillsManager.UpdateSkill: requires an index within the list. JavaScript would grow the array for an index past its end, but the dialog only edits rendered rows.
- Toasts, rendering, react-query invalidation and closing the dialog after a save are not modelled. Reading and writing the URL of the create-project dialog is left to the router.
