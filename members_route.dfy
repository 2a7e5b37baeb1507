/**
 * The members API: listing the members of a workspace or project,
 * removing a member, changing a member's role, and reading or replacing
 * a member's skills. Each handler runs a fixed chain of checks over the
 * store, answering with the first failure before it changes anything;
 * the chains are decision functions over a snapshot of the tables, and
 * the handlers that write are methods on the store.
 */
module MembersRoute {
  import opened Common
  import opened DbHelpers
  import opened MemberLookup

  const MemberNotFound: string := "Member not found"
  const ScopeRequired: string := "Either workspaceId or projectId is required"
  const OwnerUndeletable: string := "Cannot delete the owner of the workspace"
  const OnlyMemberUndeletable: string := "Cannot delete the only member of the workspace"
  const OwnerDowngrade: string := "Cannot downgrade the owner of the workspace"
  const AlreadyAdmin: string := "You are already an administrator"
  const OnlyMemberDowngrade: string := "Cannot downgrade the only member of the workspace"

  predicate IsAdmin(m: Doc)
  {
    FieldIs(m, "role", RoleName(ADMIN))
  }

  /** `member.$id === target.id`: the caller's own membership is the target row. */
  predicate SameMembership(caller: Doc, target: Doc)
  {
    "$id" in caller && "id" in target && caller["$id"] == target["id"]
  }

  /** The workspace's owner is the target's user. */
  predicate OwnedBy(workspace: Doc, target: Doc)
  {
    "userId" in workspace && "userId" in target && workspace["userId"] == target["userId"]
  }

  /** `listDocuments(members, { workspaceId }).total`: the number of memberships of a workspace. */
  function Headcount(t: Tables, workspaceId: string): (n: nat)
    ensures n == |Filter(Rows(t, MEMBERS), FieldMatcher("workspaceId", workspaceId))|
  {
    ListByField(t, MEMBERS, "workspaceId", workspaceId).total
  }

  /** A membership row lies in a workspace and is counted by its headcount. */
  lemma CountedInWorkspace(t: Tables, workspaceId: string, m: Doc)
    requires m in Rows(t, MEMBERS) && FieldIs(m, "workspaceId", workspaceId)
    ensures m in Filter(Rows(t, MEMBERS), FieldMatcher("workspaceId", workspaceId))
  {
    var rows := Rows(t, MEMBERS);
    var i :| 0 <= i < |rows| && rows[i] == m;
    assert FieldMatcher("workspaceId", workspaceId)(rows[i]);
  }

  /** The membership row a path addresses, when it exists and belongs to a workspace. */
  function Target(t: Tables, memberId: string): (r: Option<Doc>)
    requires WellFormed(t)
    ensures r.Some? ==> r.value in Rows(t, MEMBERS) && HasId(r.value, memberId) && Truthy(StrField(r.value, "workspaceId"))
    ensures r.None? <==> forall i :: 0 <= i < |Rows(t, MEMBERS)| && HasId(Rows(t, MEMBERS)[i], memberId) ==>
      !Truthy(StrField(Rows(t, MEMBERS)[i], "workspaceId"))
  {
    var rows := Rows(t, MEMBERS);
    match FindById(rows, memberId)
    case None => None
    case Some(m) =>
      assert forall i :: 0 <= i < |rows| && HasId(rows[i], memberId) ==> rows[i] == m by {
        forall i | 0 <= i < |rows| && HasId(rows[i], memberId) ensures rows[i] == m {
          assert MEMBERS in t;
          FindByIdUnique(rows, memberId, i);
        }
      }
      if Truthy(StrField(m, "workspaceId")) then Some(m) else None
  }

  /** The workspace a targeted membership row belongs to. */
  function WorkspaceOf(target: Doc): string
  {
    var ws := StrField(target, "workspaceId");
    if ws.Some? then ws.value else ""
  }

  /** The caller holds a membership of the workspace that is the target row itself or an ADMIN one. */
  predicate MayManage(t: Tables, userId: string, workspaceId: string, target: Doc)
  {
    exists m :: m in Rows(t, MEMBERS) && IsMembership(m, userId, Some(workspaceId), None) && "id" in m &&
      (SameMembership(m["$id" := m["id"]], target) || IsAdmin(m))
  }

  /** The caller holds an ADMIN membership of the workspace other than the target row. */
  predicate AdminOfOther(t: Tables, userId: string, workspaceId: string, target: Doc)
  {
    exists m :: m in Rows(t, MEMBERS) && IsMembership(m, userId, Some(workspaceId), None) && "id" in m &&
      IsAdmin(m) && !SameMembership(m["$id" := m["id"]], target)
  }

  /** `getMember` in a workspace: the caller's admin flag and identity survive the `$id` alias. */
  lemma CallerFacts(t: Tables, userId: string, workspaceId: string)
    requires WellFormed(t)
    requires WorkspaceMember(t, userId, workspaceId).Some?
    ensures var caller := WorkspaceMember(t, userId, workspaceId).value;
      exists m :: m in Rows(t, MEMBERS) && IsMembership(m, userId, Some(workspaceId), None) && "id" in m &&
        caller == m["$id" := m["id"]] && (IsAdmin(caller) <==> IsAdmin(m))
  {
    var caller := WorkspaceMember(t, userId, workspaceId).value;
    var m :| m in Rows(t, MEMBERS) && IsMembership(m, userId, Some(workspaceId), None) && "id" in m &&
      caller == m["$id" := m["id"]];
    assert |"role"| != |"$id"|;
  }

  /** The caller's membership in the target's workspace, as `getMember` answers it. */
  function CallerOf(t: Tables, userId: string, target: Doc): Option<Doc>
    requires WellFormed(t)
  {
    WorkspaceMember(t, userId, WorkspaceOf(target))
  }

  /** The caller may act on the target row: it is the caller's own membership, or the caller is an ADMIN. */
  predicate Permitted(caller: Option<Doc>, target: Doc)
  {
    caller.Some? && (SameMembership(caller.value, target) || IsAdmin(caller.value))
  }

  /** The target's workspace is stored and owned by the target's user. */
  predicate OwnerTarget(t: Tables, target: Doc)
  {
    exists i :: 0 <= i < |Rows(t, WORKSPACES)| && HasId(Rows(t, WORKSPACES)[i], WorkspaceOf(target)) &&
      OwnedBy(Rows(t, WORKSPACES)[i], target)
  }

  /** The column a member listing selects on: the workspace when given, else the project. */
  function ScopeKey(workspaceId: Option<string>): string
  {
    if Truthy(workspaceId) then "workspaceId" else "projectId"
  }

  /**
   * GET `/`: the caller must hold a membership in the given scope; then
   * the members of the workspace, or else of the project, are listed.
   */
  function ListMembers(t: Tables, userId: string, workspaceId: Option<string>, projectId: Option<string>): (r: Response<ListResult>)
    requires WellFormed(t)
    ensures r == Failed(Unauthorized) <==> !HasMembership(t, userId, workspaceId, projectId)
    ensures r == Failed(BadRequest(ScopeRequired)) <==>
      (HasMembership(t, userId, workspaceId, projectId) && !Truthy(workspaceId) && !Truthy(projectId))
    ensures r.Success? ==> Truthy(workspaceId) || Truthy(projectId)
    ensures r.Success? ==>
      var value := if Truthy(workspaceId) then workspaceId.value else projectId.value;
      r.data == ApiListByField(t, MEMBERS, ScopeKey(workspaceId), value) &&
      r.data.total == |Filter(Rows(t, MEMBERS), FieldMatcher(ScopeKey(workspaceId), value))|
  {
    if GetMember(t, userId, workspaceId, projectId).None? then Failed(Unauthorized)
    else if !Truthy(workspaceId) && !Truthy(projectId) then Failed(BadRequest(ScopeRequired))
    else if Truthy(workspaceId) then Success(ApiListByField(t, MEMBERS, "workspaceId", workspaceId.value))
    else Success(ApiListByField(t, MEMBERS, "projectId", projectId.value))
  }

  /**
   * DELETE `/:memberId`, its checks in order: the target exists and has a
   * workspace (404), the caller is a member (401), the caller is the
   * target or an ADMIN (401), the target is not the workspace owner
   * (400), the workspace has another member (409).
   */
  function DeleteDecision(t: Tables, userId: string, memberId: string): (r: Result<Doc, Failure>)
    requires WellFormed(t)
    ensures (r.Err? && r.error.NotFound?) <==> Target(t, memberId).None?
    ensures Target(t, memberId).Some? && !HasMembership(t, userId, Some(WorkspaceOf(Target(t, memberId).value)), None) ==>
      r == Err(Unauthorized)
    ensures r.Ok? ==> Target(t, memberId) == Some(r.value)
    ensures r.Ok? ==> MayManage(t, userId, WorkspaceOf(r.value), r.value)
    ensures r.Ok? ==> !OwnerTarget(t, r.value)
    ensures r.Ok? ==> Headcount(t, WorkspaceOf(r.value)) >= 2
    ensures r == Err(Conflict(OnlyMemberUndeletable)) ==>
      Target(t, memberId).Some? && Headcount(t, WorkspaceOf(Target(t, memberId).value)) == 1
    ensures Target(t, memberId).Some? ==>
      var target := Target(t, memberId).value;
      !Permitted(CallerOf(t, userId, target), target) ==> r == Err(Unauthorized)
    ensures Target(t, memberId).Some? ==>
      var target := Target(t, memberId).value;
      Permitted(CallerOf(t, userId, target), target) && OwnerTarget(t, target) ==> r == Err(BadRequest(OwnerUndeletable))
    ensures Target(t, memberId).Some? ==>
      var target := Target(t, memberId).value;
      Permitted(CallerOf(t, userId, target), target) && !OwnerTarget(t, target) ==>
        r == (if Headcount(t, WorkspaceOf(target)) == 1 then Err(Conflict(OnlyMemberUndeletable)) else Ok(target))
  {
    match Target(t, memberId)
    case None => Err(NotFound(MemberNotFound))
    case Some(target) =>
      var ws := WorkspaceOf(target);
      var total := Headcount(t, ws);
      var caller := WorkspaceMember(t, userId, ws);
      var workspace := FindById(Rows(t, WORKSPACES), ws);
      OwnerFound(t, target);
      if caller.None? then Err(Unauthorized)
      else if !SameMembership(caller.value, target) && !IsAdmin(caller.value) then Err(Unauthorized)
      else if workspace.Some? && OwnedBy(workspace.value, target) then Err(BadRequest(OwnerUndeletable))
      else if total == 1 then Err(Conflict(OnlyMemberUndeletable))
      else
        CallerFacts(t, userId, ws);
        CountedInWorkspace(t, ws, target);
        assert total != 0;
        Ok(target)
  }

  /** The owner check's lookup of the workspace by id finds the owner exactly when one is stored. */
  lemma OwnerFound(t: Tables, target: Doc)
    requires WellFormed(t)
    ensures var workspace := FindById(Rows(t, WORKSPACES), WorkspaceOf(target));
      OwnerTarget(t, target) <==> workspace.Some? && OwnedBy(workspace.value, target)
  {
    var rows := Rows(t, WORKSPACES);
    var ws := WorkspaceOf(target);
    if OwnerTarget(t, target) {
      var i :| 0 <= i < |rows| && HasId(rows[i], ws) && OwnedBy(rows[i], target);
      assert WORKSPACES in t;
      FindByIdUnique(rows, ws, i);
    }
  }

  /** DELETE `/:memberId`: on success exactly the target row leaves the members table. */
  method DeleteMember(db: Database, userId: string, memberId: string) returns (r: Response<string>)
    requires db.Valid()
    modifies db
    ensures db.Valid()
    ensures var d := DeleteDecision(old(db.tables), userId, memberId);
      d.Err? ==> r == Failed(d.error) && db.tables == old(db.tables)
    ensures var d := DeleteDecision(old(db.tables), userId, memberId);
      d.Ok? ==>
        r == Success(memberId) &&
        (exists i :: 0 <= i < |old(db.tables)[MEMBERS]| && old(db.tables)[MEMBERS][i] == d.value &&
          db.tables == old(db.tables)[MEMBERS := old(db.tables)[MEMBERS][..i] + old(db.tables)[MEMBERS][i + 1..]])
  {
    var d := DeleteDecision(db.tables, userId, memberId);
    if d.Err? {
      return Failed(d.error);
    }
    var rows := db.tables[MEMBERS];
    var i :| 0 <= i < |rows| && rows[i] == d.value;
    DeleteRemovesOne(rows, memberId, i);
    var _ := db.Delete(MEMBERS, memberId);
    r := Success(memberId);
  }

  /**
   * PATCH `/:memberId`, its checks in order: the target exists and has a
   * workspace (404), the caller is a member (401) and an ADMIN (401), the
   * caller is not changing their own role (400 when demoting, 409 when
   * re-promoting), the workspace has another member (400).
   */
  function ChangeRoleDecision(t: Tables, userId: string, memberId: string, role: MemberRole): (r: Result<Doc, Failure>)
    requires WellFormed(t)
    ensures (r.Err? && r.error.NotFound?) <==> Target(t, memberId).None?
    ensures r.Ok? ==> Target(t, memberId) == Some(r.value)
    ensures r == Err(BadRequest(OwnerDowngrade)) ==> role != ADMIN
    ensures r == Err(Conflict(AlreadyAdmin)) ==> role == ADMIN
    ensures Target(t, memberId).Some? && !HasMembership(t, userId, Some(WorkspaceOf(Target(t, memberId).value)), None) ==>
      r == Err(Unauthorized)
    ensures Target(t, memberId).Some? ==>
      var target := Target(t, memberId).value;
      var caller := CallerOf(t, userId, target);
      caller.Some? && !IsAdmin(caller.value) ==> r == Err(Unauthorized)
    ensures Target(t, memberId).Some? ==>
      var target := Target(t, memberId).value;
      var caller := CallerOf(t, userId, target);
      caller.Some? && IsAdmin(caller.value) && SameMembership(caller.value, target) ==>
        r == (if role == ADMIN then Err(Conflict(AlreadyAdmin)) else Err(BadRequest(OwnerDowngrade)))
    ensures Target(t, memberId).Some? ==>
      var target := Target(t, memberId).value;
      var caller := CallerOf(t, userId, target);
      (caller.Some? && IsAdmin(caller.value) && !SameMembership(caller.value, target) && Headcount(t, WorkspaceOf(target)) != 1) ==>
        r == Ok(target)
  {
    match Target(t, memberId)
    case None => Err(NotFound(MemberNotFound))
    case Some(target) =>
      var ws := WorkspaceOf(target);
      var caller := WorkspaceMember(t, userId, ws);
      RoleChecks(target, caller, Headcount(t, ws), role)
  }

  /** A role change goes ahead only for an ADMIN of the target's workspace acting on another member's row. */
  lemma RoleChangeAuthorized(t: Tables, userId: string, memberId: string, role: MemberRole)
    requires WellFormed(t)
    requires ChangeRoleDecision(t, userId, memberId, role).Ok?
    ensures var target := ChangeRoleDecision(t, userId, memberId, role).value;
      AdminOfOther(t, userId, WorkspaceOf(target), target)
  {
    var target := Target(t, memberId).value;
    CallerFacts(t, userId, WorkspaceOf(target));
  }

  /** The role change's checks once the target, the caller's membership and the headcount are known. */
  function RoleChecks(target: Doc, caller: Option<Doc>, total: nat, role: MemberRole): (r: Result<Doc, Failure>)
    ensures r.Ok? ==> r.value == target && caller.Some? && IsAdmin(caller.value) && !SameMembership(caller.value, target)
    ensures r.Err? ==> !r.error.NotFound?
    ensures r == Err(BadRequest(OwnerDowngrade)) ==> role != ADMIN
    ensures r == Err(Conflict(AlreadyAdmin)) ==> role == ADMIN
    ensures r == Err(BadRequest(OnlyMemberDowngrade)) ==> caller.Some? && !SameMembership(caller.value, target) && total == 1
    ensures caller.None? || !IsAdmin(caller.value) ==> r == Err(Unauthorized)
    ensures caller.Some? && IsAdmin(caller.value) && SameMembership(caller.value, target) ==>
      r == (if role == ADMIN then Err(Conflict(AlreadyAdmin)) else Err(BadRequest(OwnerDowngrade)))
    ensures caller.Some? && IsAdmin(caller.value) && !SameMembership(caller.value, target) ==>
      r == (if total == 1 then Err(BadRequest(OnlyMemberDowngrade)) else Ok(target))
  {
    assert |OnlyMemberDowngrade| != |OwnerDowngrade|;
    if caller.None? then Err(Unauthorized)
    else if !IsAdmin(caller.value) then Err(Unauthorized)
    else if SameMembership(caller.value, target) && role != ADMIN then Err(BadRequest(OwnerDowngrade))
    else if SameMembership(caller.value, target) && role == ADMIN then Err(Conflict(AlreadyAdmin))
    else if total == 1 then Err(BadRequest(OnlyMemberDowngrade))
    else Ok(target)
  }

  /**
   * The one-member check of the role change never answers: a workspace
   * with one membership row holds both the caller's row and the target,
   * so they are the same row and a self-target check has answered first.
   */
  lemma OnlyMemberCheckUnreachable(t: Tables, userId: string, memberId: string, role: MemberRole)
    requires WellFormed(t)
    ensures ChangeRoleDecision(t, userId, memberId, role) != Err(BadRequest(OnlyMemberDowngrade))
  {
    var target := Target(t, memberId);
    if target.Some? {
      var ws := WorkspaceOf(target.value);
      var caller := WorkspaceMember(t, userId, ws);
      if caller.Some? && Headcount(t, ws) == 1 {
        var m :| m in Rows(t, MEMBERS) && IsMembership(m, userId, Some(ws), None) && "id" in m &&
          caller.value == m["$id" := m["id"]];
        AloneInWorkspace(t, ws, m, target.value);
        assert SameMembership(caller.value, target.value);
      }
    }
  }

  /** Two membership rows of a workspace with a headcount of one are the same row. */
  lemma AloneInWorkspace(t: Tables, workspaceId: string, a: Doc, b: Doc)
    requires a in Rows(t, MEMBERS) && FieldIs(a, "workspaceId", workspaceId)
    requires b in Rows(t, MEMBERS) && FieldIs(b, "workspaceId", workspaceId)
    requires Headcount(t, workspaceId) == 1
    ensures a == b
  {
    CountedInWorkspace(t, workspaceId, a);
    CountedInWorkspace(t, workspaceId, b);
    SingletonElements(Filter(Rows(t, MEMBERS), FieldMatcher("workspaceId", workspaceId)), a, b);
  }

  /** The columns a role change writes. */
  function RolePatch(role: MemberRole, now: int): Doc
  {
    map["role" := VStr(RoleName(role)), "updatedAt" := VTime(now)]
  }

  /** The update of a role change writes the role and the update time, nothing else. */
  lemma RoleUpdateWritesRoleOnly(role: MemberRole, now: int)
    ensures UpdatePatch(MEMBERS, map["role" := VStr(RoleName(role))], now) == RolePatch(role, now)
    ensures "id" !in RolePatch(role, now)
    ensures "id" !in map["role" := VStr(RoleName(role))] && "createdAt" !in map["role" := VStr(RoleName(role))]
  {
    assert "role" in Columns(MEMBERS);
    assert |"role"| != |"updatedAt"|;
    assert |"id"| != |"role"| && |"id"| != |"updatedAt"| && |"role"| != |"createdAt"|;
  }

  /** The members table gained nothing and lost nothing: row i, the target, was patched, and every other table is as it was. */
  ghost predicate PatchedOne(before: Tables, after: Tables, target: Doc, patch: Doc)
  {
    MEMBERS in before &&
    exists i :: 0 <= i < |before[MEMBERS]| && before[MEMBERS][i] == target &&
      after == before[MEMBERS := before[MEMBERS][i := target + patch]]
  }

  /** The store update a granted role change makes patches the target row alone and reads it back. */
  lemma RoleChangeEffect(t: Tables, memberId: string, target: Doc, role: MemberRole, now: int)
    requires WellFormed(t) && MEMBERS in t
    requires target in t[MEMBERS] && HasId(target, memberId)
    ensures var rows := UpdateRows(t[MEMBERS], memberId, UpdatePatch(MEMBERS, map["role" := VStr(RoleName(role))], now));
      PatchedOne(t, t[MEMBERS := rows], target, RolePatch(role, now)) &&
      FindById(rows, memberId) == Some(target + RolePatch(role, now)) && "id" in target
  {
    var rows := t[MEMBERS];
    var i :| 0 <= i < |rows| && rows[i] == target;
    RoleUpdateWritesRoleOnly(role, now);
    UpdateOneRow(rows, memberId, i, RolePatch(role, now));
  }

  /** PATCH `/:memberId`: on success only the target row changes, and only its role and update time. */
  method ChangeRole(db: Database, userId: string, memberId: string, role: MemberRole, now: int) returns (r: Response<Option<Doc>>)
    requires db.Valid()
    modifies db
    ensures db.Valid()
    ensures var d := ChangeRoleDecision(old(db.tables), userId, memberId, role);
      d.Err? ==> r == Failed(d.error) && db.tables == old(db.tables)
    ensures var d := ChangeRoleDecision(old(db.tables), userId, memberId, role);
      d.Ok? ==> PatchedOne(old(db.tables), db.tables, d.value, RolePatch(role, now))
    ensures var d := ChangeRoleDecision(old(db.tables), userId, memberId, role);
      d.Ok? ==> "id" in d.value && r == Success(ToApiResponse(Some(d.value + RolePatch(role, now))))
  {
    var d := ChangeRoleDecision(db.tables, userId, memberId, role);
    if d.Err? {
      return Failed(d.error);
    }
    RoleChangeEffect(db.tables, memberId, d.value, role, now);
    RoleUpdateWritesRoleOnly(role, now);
    var data := map["role" := VStr(RoleName(role))];
    var updated := db.Update(MEMBERS, memberId, data, now);
    r := Success(ToApiResponse(updated.value));
  }

  /** The skills routes' gate: the target exists in a workspace, and the caller is that member or an ADMIN of it. */
  function SkillsAccess(t: Tables, userId: string, memberId: string): (r: Result<Doc, Failure>)
    requires WellFormed(t)
    ensures (r.Err? && r.error.NotFound?) <==> Target(t, memberId).None?
    ensures r.Err? ==> r.error.NotFound? || r.error == Unauthorized
    ensures r.Ok? ==> Target(t, memberId) == Some(r.value)
    ensures Target(t, memberId).Some? ==>
      var target := Target(t, memberId).value;
      r == (if Permitted(CallerOf(t, userId, target), target) then Ok(target) else Err(Unauthorized))
  {
    match Target(t, memberId)
    case None => Err(NotFound(MemberNotFound))
    case Some(target) =>
      var caller := WorkspaceMember(t, userId, WorkspaceOf(target));
      if caller.None? then Err(Unauthorized)
      else if !SameMembership(caller.value, target) && !IsAdmin(caller.value) then Err(Unauthorized)
      else Ok(target)
  }

  /**
   * The skills gate admits exactly the callers allowed to manage the
   * target: a caller outside the target's workspace is refused.
   */
  lemma SkillsAccessAuthorized(t: Tables, userId: string, memberId: string)
    requires WellFormed(t)
    ensures Target(t, memberId).Some? && !HasMembership(t, userId, Some(WorkspaceOf(Target(t, memberId).value)), None) ==>
      SkillsAccess(t, userId, memberId) == Err(Unauthorized)
    ensures SkillsAccess(t, userId, memberId).Ok? ==>
      MayManage(t, userId, WorkspaceOf(SkillsAccess(t, userId, memberId).value), SkillsAccess(t, userId, memberId).value)
  {
    var target := Target(t, memberId);
    if target.Some? {
      var caller := WorkspaceMember(t, userId, WorkspaceOf(target.value));
      if caller.Some? {
        CallerFacts(t, userId, WorkspaceOf(target.value));
      }
    }
  }

  /** GET `/:memberId/skills`: behind the gate, the target's skill rows in the `$id` shape. */
  function GetSkills(t: Tables, userId: string, memberId: string): (r: Response<ListResult>)
    requires WellFormed(t)
    ensures r.Failed? <==> SkillsAccess(t, userId, memberId).Err?
    ensures r.Failed? ==> r.failure == SkillsAccess(t, userId, memberId).error
    ensures r.Success? ==>
      r.data == ApiListByField(t, USER_SKILLS, "memberId", memberId) &&
      r.data.total == |Filter(Rows(t, USER_SKILLS), FieldMatcher("memberId", memberId))|
  {
    var access := SkillsAccess(t, userId, memberId);
    if access.Err? then Failed(access.error)
    else Success(ApiListByField(t, USER_SKILLS, "memberId", memberId))
  }

  /** One entry of the skills replace request. */
  datatype SkillInput = SkillInput(name: string, category: string, experienceYears: real, proficiencyScore: real)

  /** The request schema: experience within [0, 50] years, proficiency within [0, 100]. */
  predicate ValidSkill(s: SkillInput)
  {
    0.0 <= s.experienceYears <= 50.0 && 0.0 <= s.proficiencyScore <= 100.0
  }

  /** The fields the handler hands to the insert of one skill; the two numbers go under snake_case keys. */
  function SkillData(memberId: string, workspaceId: string, s: SkillInput): (r: Doc)
    ensures "id" !in r
  {
    assert |"id"| !in {|"memberId"|, |"workspaceId"|, |"name"|, |"category"|, |"experience_years"|, |"proficiency_score"|};
    map["memberId" := VStr(memberId), "workspaceId" := VStr(workspaceId), "name" := VStr(s.name),
        "category" := VStr(s.category), "experience_years" := VReal(s.experienceYears),
        "proficiency_score" := VReal(s.proficiencyScore)]
  }

  /** The row the insert of one skill stores. */
  function SkillRow(memberId: string, workspaceId: string, s: SkillInput, now: int, newId: string, defaults: Doc): (r: Doc)
    ensures HasId(r, newId)
    ensures FieldIs(r, "memberId", memberId) && FieldIs(r, "workspaceId", workspaceId)
    ensures FieldIs(r, "name", s.name) && FieldIs(r, "category", s.category)
    ensures "experience_years" !in r && "proficiency_score" !in r
  {
    ColumnsShape(USER_SKILLS);
    var data := SkillData(memberId, workspaceId, s);
    assert |"memberId"| != |"id"| && |"memberId"| != |"createdAt"| && |"memberId"| != |"updatedAt"|;
    assert |"workspaceId"| != |"id"| && |"workspaceId"| != |"createdAt"| && |"workspaceId"| != |"updatedAt"|;
    assert |"name"| != |"id"| && |"name"| != |"createdAt"| && |"name"| != |"updatedAt"|;
    assert |"category"| != |"id"| && |"category"| != |"createdAt"| && |"category"| != |"updatedAt"|;
    assert "memberId" in data && "workspaceId" in data && "name" in data && "category" in data;
    assert "memberId" in Columns(USER_SKILLS) && "workspaceId" in Columns(USER_SKILLS);
    assert "name" in Columns(USER_SKILLS) && "category" in Columns(USER_SKILLS);
    assert !NoUnderscore("experience_years") by {
      assert "experience_years"[10] == '_';
    }
    assert !NoUnderscore("proficiency_score") by {
      assert "proficiency_score"[11] == '_';
    }
    NewRow(USER_SKILLS, data, now, newId, defaults)
  }

  /** The fields handed to the inserts of a replace request, one per requested skill. */
  function SkillsData(memberId: string, workspaceId: string, skills: seq<SkillInput>): (r: seq<Doc>)
    ensures |r| == |skills|
    ensures forall i :: 0 <= i < |r| ==> r[i] == SkillData(memberId, workspaceId, skills[i]) && "id" !in r[i]
  {
    seq(|skills|, i requires 0 <= i < |skills| => SkillData(memberId, workspaceId, skills[i]))
  }

  /** The rows the inserts of a replace request store, in request order. */
  function SkillRows(memberId: string, workspaceId: string, skills: seq<SkillInput>, now: int, newIds: seq<string>, defaults: Doc): (r: seq<Doc>)
    requires |newIds| == |skills|
    ensures |r| == |skills|
    ensures forall i :: 0 <= i < |r| ==> r[i] == SkillRow(memberId, workspaceId, skills[i], now, newIds[i], defaults)
    ensures forall i :: 0 <= i < |r| ==> HasId(r[i], newIds[i]) && "id" in r[i]
  {
    NewRows(USER_SKILLS, SkillsData(memberId, workspaceId, skills), now, newIds, defaults)
  }

  /** Keeps the skill rows of every other member. */
  function OtherMembersSkill(memberId: string): Doc -> bool
  {
    d => !FieldIs(d, "memberId", memberId)
  }

  /**
   * After a replace the member's skills are exactly the new rows, and the
   * skills of any other member are those it had before.
   */
  lemma SkillsReplaced(rows: seq<Doc>, memberId: string, created: seq<Doc>, other: string)
    requires forall i :: 0 <= i < |created| ==> FieldIs(created[i], "memberId", memberId)
    requires other != memberId
    ensures Filter(Filter(rows, OtherMembersSkill(memberId)) + created, FieldMatcher("memberId", memberId)) == created
    ensures Filter(Filter(rows, OtherMembersSkill(memberId)) + created, FieldMatcher("memberId", other)) ==
      Filter(rows, FieldMatcher("memberId", other))
  {
    var kept := Filter(rows, OtherMembersSkill(memberId));
    FilterAppend(kept, created, FieldMatcher("memberId", memberId));
    FilterNone(kept, FieldMatcher("memberId", memberId));
    FilterAll(created, FieldMatcher("memberId", memberId));
    FilterAppend(kept, created, FieldMatcher("memberId", other));
    FilterNone(created, FieldMatcher("memberId", other));
    FilterFilter(rows, OtherMembersSkill(memberId), FieldMatcher("memberId", other), FieldMatcher("memberId", other));
  }

  /** The ids of the listed skill rows pick out exactly the member's skill rows. */
  lemma ListedIdsSelect(rows: seq<Doc>, memberId: string, existing: seq<Doc>, ids: seq<Value>)
    requires UniqueIds(rows)
    requires forall d :: d in existing <==> d in rows && FieldIs(d, "memberId", memberId)
    requires |ids| == |existing| && forall j :: 0 <= j < |ids| ==> ids[j] == IdOf(existing[j])
    ensures Filter(rows, NoneOf(ids)) == Filter(rows, OtherMembersSkill(memberId))
  {
    forall x | x in rows ensures NoneOf(ids)(x) == OtherMembersSkill(memberId)(x) {
      if IdOf(x) in ids {
        var j :| 0 <= j < |ids| && ids[j] == IdOf(x);
        assert existing[j] in existing;
        var a :| 0 <= a < |rows| && rows[a] == x;
        var b :| 0 <= b < |rows| && rows[b] == existing[j];
        assert IdOf(rows[a]) == IdOf(rows[b]);
      }
      if FieldIs(x, "memberId", memberId) {
        assert x in existing;
        var j :| 0 <= j < |existing| && existing[j] == x;
        assert ids[j] == IdOf(x);
      }
    }
    FilterCongruent(rows, NoneOf(ids), OtherMembersSkill(memberId));
  }

  /** The member's skill rows, as the replace lists them before deleting: each carries an id. */
  function SkillRowsOf(t: Tables, memberId: string): (r: seq<Doc>)
    requires WellFormed(t)
    ensures forall d :: d in r <==> d in Rows(t, USER_SKILLS) && FieldIs(d, "memberId", memberId)
    ensures forall j :: 0 <= j < |r| ==> "id" in r[j] && r[j]["id"].VStr?
  {
    var docs := ListByField(t, USER_SKILLS, "memberId", memberId).documents;
    assert forall j :: 0 <= j < |docs| ==> "id" in docs[j] && docs[j]["id"].VStr? by {
      forall j | 0 <= j < |docs| ensures "id" in docs[j] && docs[j]["id"].VStr? {
        RowsHaveIds(t, USER_SKILLS, docs[j]);
      }
    }
    docs
  }

  /** The deletion step of a replace: every skill row of the member goes, the others stay in order. */
  method DeleteSkillsOf(db: Database, memberId: string)
    requires db.Valid()
    modifies db
    ensures db.Valid()
    ensures db.tables == old(db.tables)[USER_SKILLS := Filter(old(db.tables)[USER_SKILLS], OtherMembersSkill(memberId))]
  {
    ghost var before := db.tables;
    ghost var original := db.tables[USER_SKILLS];
    var existing := SkillRowsOf(db.tables, memberId);
    ghost var ids := seq(|existing|, j requires 0 <= j < |existing| => IdOf(existing[j]));
    FilterAll(original, NoneOf(ids[..0]));
    WriteSame(before, USER_SKILLS);
    for k := 0 to |existing|
      invariant db.Valid()
      invariant db.tables == before[USER_SKILLS := Filter(original, NoneOf(ids[..k]))]
    {
      var id := existing[k]["id"].s;
      DeleteOneMore(original, ids, k, id);
      WriteTwice(before, USER_SKILLS, Filter(original, NoneOf(ids[..k])), Filter(original, NoneOf(ids[..k + 1])));
      var _ := db.Delete(USER_SKILLS, id);
    }
    assert ids[..|existing|] == ids;
    ListedIdsSelect(original, memberId, existing, ids);
  }

  /** The insertion step of a replace: one new row per requested skill, appended in request order. */
  method InsertSkills(db: Database, memberId: string, workspaceId: string, skills: seq<SkillInput>,
                      now: int, newIds: seq<string>, defaults: Doc) returns (created: seq<Doc>)
    requires db.Valid()
    requires |newIds| == |skills|
    requires forall i, j :: 0 <= i < j < |newIds| ==> newIds[i] != newIds[j]
    requires forall i :: 0 <= i < |newIds| ==> IdFree(db.tables[USER_SKILLS], newIds[i])
    modifies db
    ensures db.Valid()
    ensures created == SkillRows(memberId, workspaceId, skills, now, newIds, defaults)
    ensures db.tables == old(db.tables)[USER_SKILLS := old(db.tables)[USER_SKILLS] + created]
  {
    created := db.CreateAll(USER_SKILLS, SkillsData(memberId, workspaceId, skills), now, newIds, defaults);
  }

  /** Behind the gate of a replace: the member's skill rows go, then the new rows are appended. */
  method SwapSkills(db: Database, memberId: string, workspaceId: string, skills: seq<SkillInput>,
                    now: int, newIds: seq<string>, defaults: Doc) returns (created: seq<Doc>)
    requires db.Valid()
    requires |newIds| == |skills|
    requires forall i, j :: 0 <= i < j < |newIds| ==> newIds[i] != newIds[j]
    requires forall i :: 0 <= i < |newIds| ==> IdFree(db.tables[USER_SKILLS], newIds[i])
    modifies db
    ensures db.Valid()
    ensures created == SkillRows(memberId, workspaceId, skills, now, newIds, defaults)
    ensures db.tables ==
      old(db.tables)[USER_SKILLS := Filter(old(db.tables)[USER_SKILLS], OtherMembersSkill(memberId)) + created]
  {
    ghost var original := db.tables[USER_SKILLS];
    DeleteSkillsOf(db, memberId);
    forall i | 0 <= i < |newIds| ensures IdFree(db.tables[USER_SKILLS], newIds[i]) {
      FilterKeepsIdFree(original, OtherMembersSkill(memberId), newIds[i]);
    }
    ghost var kept := db.tables[USER_SKILLS];
    created := InsertSkills(db, memberId, workspaceId, skills, now, newIds, defaults);
    WriteTwice(old(db.tables), USER_SKILLS, kept, kept + created);
  }

  /**
   * POST `/:memberId/skills`: a request with an out-of-range skill is
   * refused (400); behind the gate, every skill row of the member is
   * deleted and one row per requested skill inserted, in request order.
   */
  method ReplaceSkills(db: Database, userId: string, memberId: string, skills: seq<SkillInput>,
                       now: int, newIds: seq<string>, defaults: Doc) returns (r: Response<seq<Doc>>)
    requires db.Valid()
    requires |newIds| == |skills|
    requires forall i, j :: 0 <= i < j < |newIds| ==> newIds[i] != newIds[j]
    requires forall i :: 0 <= i < |newIds| ==> IdFree(db.tables[USER_SKILLS], newIds[i])
    modifies db
    ensures db.Valid()
    ensures !(forall i :: 0 <= i < |skills| ==> ValidSkill(skills[i])) ==>
      r == Failed(ValidationFailed) && db.tables == old(db.tables)
    ensures (forall i :: 0 <= i < |skills| ==> ValidSkill(skills[i])) && SkillsAccess(old(db.tables), userId, memberId).Err? ==>
      r == Failed(SkillsAccess(old(db.tables), userId, memberId).error) && db.tables == old(db.tables)
    ensures (forall i :: 0 <= i < |skills| ==> ValidSkill(skills[i])) && SkillsAccess(old(db.tables), userId, memberId).Ok? ==>
      var created := SkillRows(memberId, WorkspaceOf(SkillsAccess(old(db.tables), userId, memberId).value), skills, now, newIds, defaults);
      db.tables == old(db.tables)[USER_SKILLS := Filter(old(db.tables)[USER_SKILLS], OtherMembersSkill(memberId)) + created] &&
      r == Success(ToApiResponseArray(created))
  {
    if !(forall i :: 0 <= i < |skills| ==> ValidSkill(skills[i])) {
      return Failed(ValidationFailed);
    }
    var access := SkillsAccess(db.tables, userId, memberId);
    if access.Err? {
      return Failed(access.error);
    }
    var created := SwapSkills(db, memberId, WorkspaceOf(access.value), skills, now, newIds, defaults);
    r := Success(ToApiResponseArray(created));
  }
}
