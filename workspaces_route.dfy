/**
 * The workspaces API: listing the caller's workspaces, creating a
 * workspace (its creator becomes its first ADMIN), patching and deleting
 * it (ADMIN only), reading it, and its monthly task counters over the
 * tasks of its projects.
 *
 * The invite code generator and image upload are outside the model: the
 * code and the uploaded image's data URL arrive as values.
 */
module WorkspacesRoute {
  import opened Common
  import opened DbHelpers
  import opened MemberLookup
  import opened WorkspaceQueries
  import opened Analytics
  import MembersRoute

  /**
   * GET `/`: the workspaces `getWorkspaces` finds for the caller, each in
   * its response shape, in the same order.
   */
  function ListWorkspaces(t: Tables, userId: string): (r: ListResult)
    requires WellFormed(t)
    ensures r.total == |r.documents| == |GetWorkspaces(t, userId).documents|
    ensures forall i :: 0 <= i < |r.documents| ==>
      "id" in GetWorkspaces(t, userId).documents[i] &&
      Some(r.documents[i]) == ToApiResponse(Some(GetWorkspaces(t, userId).documents[i]))
  {
    var docs := GetWorkspaces(t, userId).documents;
    FoundWorkspacesHaveIds(t, userId);
    ListResult(ToApiResponseArray(docs), |docs|)
  }

  /** The workspaces `getWorkspaces` finds are stored rows, so each carries an id. */
  lemma FoundWorkspacesHaveIds(t: Tables, userId: string)
    requires WellFormed(t)
    ensures forall i :: 0 <= i < |GetWorkspaces(t, userId).documents| ==> "id" in GetWorkspaces(t, userId).documents[i]
  {
    var docs := GetWorkspaces(t, userId).documents;
    forall i | 0 <= i < |docs| ensures "id" in docs[i] {
      assert docs[i] in docs;
      RowsHaveIds(t, WORKSPACES, docs[i]);
    }
  }

  /** Every listed workspace is one the caller belongs to, and carries its id as `$id`. */
  lemma ListedWorkspaces(t: Tables, userId: string, i: int)
    requires WellFormed(t) && 0 <= i < |ListWorkspaces(t, userId).documents|
    ensures var w := GetWorkspaces(t, userId).documents[i];
      w in Rows(t, WORKSPACES) && MemberOfWorkspace(t, userId, w) &&
      "$id" in ListWorkspaces(t, userId).documents[i] && ListWorkspaces(t, userId).documents[i]["$id"] == IdOf(w)
  {
    var docs := GetWorkspaces(t, userId).documents;
    assert docs[i] in docs;
  }

  lemma WorkspaceKeysDistinct()
    ensures "name" != "userId" && "name" != "imageUrl" && "name" != "inviteCode"
    ensures "userId" != "imageUrl" && "userId" != "inviteCode" && "imageUrl" != "inviteCode"
    ensures "name" != "id" && "userId" != "id" && "imageUrl" != "id" && "inviteCode" != "id"
    ensures "name" != "createdAt" && "userId" != "createdAt" && "imageUrl" != "createdAt" && "inviteCode" != "createdAt"
    ensures "name" != "updatedAt" && "userId" != "updatedAt" && "imageUrl" != "updatedAt" && "inviteCode" != "updatedAt"
    ensures "workspaceId" != "userId" && "workspaceId" != "role" && "userId" != "role"
    ensures "workspaceId" != "id" && "role" != "id" && "workspaceId" != "createdAt" && "role" != "createdAt"
    ensures "workspaceId" != "updatedAt" && "role" != "updatedAt"
  {
    assert |"name"| == 4 && |"userId"| == 6 && |"imageUrl"| == 8 && |"inviteCode"| == 10;
    assert |"workspaceId"| == 11 && |"role"| == 4 && "role"[0] == 'r' && "name"[0] == 'n';
    assert |"id"| == 2 && |"createdAt"| == 9 && |"updatedAt"| == 9;
  }

  /**
   * The workspace row's data: the name, the creator as owner, the invite
   * code, and the image only when the upload produced a non-empty URL.
   */
  function WorkspaceData(name: string, userId: string, imageUrl: Option<string>, inviteCode: string): (r: Doc)
    ensures r.Keys <= WorkspaceColumns
    ensures "id" !in r && "createdAt" !in r && "updatedAt" !in r
    ensures FieldIs(r, "name", name) && FieldIs(r, "userId", userId) && FieldIs(r, "inviteCode", inviteCode)
    ensures ("imageUrl" in r <==> Truthy(imageUrl)) && (Truthy(imageUrl) ==> FieldIs(r, "imageUrl", imageUrl.value))
  {
    WorkspaceKeysDistinct();
    var base := map["name" := VStr(name), "userId" := VStr(userId), "inviteCode" := VStr(inviteCode)];
    if Truthy(imageUrl) then base["imageUrl" := VStr(imageUrl.value)] else base
  }

  /** The creator's membership: ADMIN of the new workspace. */
  function AdminMembershipData(workspaceId: string, userId: string): (r: Doc)
    ensures r.Keys <= MemberColumns
    ensures "id" !in r && "createdAt" !in r && "updatedAt" !in r
    ensures IsMembership(r, userId, Some(workspaceId), None) && MembersRoute.IsAdmin(r)
  {
    WorkspaceKeysDistinct();
    map["workspaceId" := VStr(workspaceId), "userId" := VStr(userId), "role" := VStr(RoleName(ADMIN))]
  }

  /**
   * POST `/`: stores the workspace, then the creator's ADMIN membership of
   * it, and answers the workspace row.
   */
  method CreateWorkspace(db: Database, userId: string, name: string, imageUrl: Option<string>, inviteCode: string,
                         now: int, workspaceId: string, memberId: string, defaults: Doc) returns (r: Doc)
    requires db.Valid() && IdFree(db.tables[WORKSPACES], workspaceId) && IdFree(db.tables[MEMBERS], memberId)
    modifies db
    ensures db.Valid()
    ensures var workspace := NewRow(WORKSPACES, WorkspaceData(name, userId, imageUrl, inviteCode), now, workspaceId, defaults);
      var member := NewRow(MEMBERS, AdminMembershipData(workspaceId, userId), now, memberId, defaults);
      db.tables == old(db.tables)[WORKSPACES := old(db.tables)[WORKSPACES] + [workspace]]
        [MEMBERS := old(db.tables)[MEMBERS] + [member]] &&
      r == ToApiResponse(Some(workspace)).value
  {
    var workspace := db.Create(WORKSPACES, WorkspaceData(name, userId, imageUrl, inviteCode), now, workspaceId, defaults);
    var _ := db.Create(MEMBERS, AdminMembershipData(workspaceId, userId), now, memberId, defaults);
    r := ToApiResponse(Some(workspace.value)).value;
  }

  /** The stored workspace row is owned by its creator and carries the new id, which the response names. */
  lemma CreatedWorkspaceRow(userId: string, name: string, imageUrl: Option<string>, inviteCode: string,
                            now: int, workspaceId: string, defaults: Doc)
    ensures var workspace := NewRow(WORKSPACES, WorkspaceData(name, userId, imageUrl, inviteCode), now, workspaceId, defaults);
      HasId(workspace, workspaceId) && FieldIs(workspace, "userId", userId) && FieldIs(workspace, "name", name) &&
      FieldIs(workspace, "inviteCode", inviteCode) && ToApiResponse(Some(workspace)).value["$id"] == VStr(workspaceId)
  {
    WorkspaceKeysDistinct();
  }

  /**
   * The stored membership row makes the creator an ADMIN member of the
   * new workspace, so the member gate lets the creator in afterwards.
   */
  lemma CreatorIsAdmin(t: Tables, userId: string, now: int, workspaceId: string, memberId: string, defaults: Doc)
    requires MEMBERS in t
    ensures var member := NewRow(MEMBERS, AdminMembershipData(workspaceId, userId), now, memberId, defaults);
      IsMembership(member, userId, Some(workspaceId), None) && MembersRoute.IsAdmin(member) &&
      HasMembership(t[MEMBERS := t[MEMBERS] + [member]], userId, Some(workspaceId), None)
  {
    WorkspaceKeysDistinct();
    var member := NewRow(MEMBERS, AdminMembershipData(workspaceId, userId), now, memberId, defaults);
    var rows := Rows(t[MEMBERS := t[MEMBERS] + [member]], MEMBERS);
    assert rows[|rows| - 1] == member;
  }

  /** The gate of PATCH and DELETE: the caller's membership of the workspace is an ADMIN one (401 otherwise). */
  function AdminGate(t: Tables, userId: string, workspaceId: string): (r: Result<Doc, Failure>)
    requires WellFormed(t)
    ensures r.Err? ==> r.error == Unauthorized
    ensures !HasMembership(t, userId, Some(workspaceId), None) ==> r.Err?
    ensures r.Ok? ==>
      MembersRoute.IsAdmin(r.value) &&
      exists m :: m in Rows(t, MEMBERS) && IsMembership(m, userId, Some(workspaceId), None) && MembersRoute.IsAdmin(m)
    ensures var caller := WorkspaceMember(t, userId, workspaceId);
      r.Ok? <==> caller.Some? && MembersRoute.IsAdmin(caller.value)
    ensures r.Ok? ==> r.value == WorkspaceMember(t, userId, workspaceId).value
  {
    match WorkspaceMember(t, userId, workspaceId)
    case None => Err(Unauthorized)
    case Some(member) =>
      if !MembersRoute.IsAdmin(member) then Err(Unauthorized)
      else
        AdminRowStored(t, userId, workspaceId);
        Ok(member)
  }

  /** An ADMIN `getMember` row comes from a stored ADMIN membership of the workspace. */
  lemma AdminRowStored(t: Tables, userId: string, workspaceId: string)
    requires WellFormed(t)
    requires WorkspaceMember(t, userId, workspaceId).Some? && MembersRoute.IsAdmin(WorkspaceMember(t, userId, workspaceId).value)
    ensures exists m :: m in Rows(t, MEMBERS) && IsMembership(m, userId, Some(workspaceId), None) && MembersRoute.IsAdmin(m)
  {
    var m :| m in Rows(t, MEMBERS) && IsMembership(m, userId, Some(workspaceId), None) && "id" in m &&
      WorkspaceMember(t, userId, workspaceId).value == m["$id" := m["id"]];
    assert |"$id"| != |"role"|;
  }

  /** What a PATCH request carries for the image: nothing, an uploaded file, or a text. */
  datatype ImageInput = NoImage | ImageFile(dataUrl: Option<string>) | ImageText(text: string)

  /**
   * The image to store: the uploaded file's data URL (none when reading
   * the file failed), or a non-empty text.
   */
  function ResolveImage(image: ImageInput): (r: Option<string>)
    ensures image.NoImage? ==> r.None?
    ensures image.ImageText? ==> (r.Some? <==> image.text != "") && (r.Some? ==> r.value == image.text)
    ensures image.ImageFile? ==> r == image.dataUrl
  {
    match image
    case NoImage => None
    case ImageFile(url) => url
    case ImageText(text) => if text != "" then Some(text) else None
  }

  /** The update data of PATCH `/:workspaceId`: a non-empty name, and the resolved image. */
  function WorkspaceUpdateData(name: Option<string>, image: ImageInput): (r: Doc)
    ensures r.Keys <= {"name", "imageUrl"}
    ensures ("name" in r <==> Truthy(name)) && (Truthy(name) ==> r["name"] == VStr(name.value))
    ensures ("imageUrl" in r <==> ResolveImage(image).Some?) &&
      (ResolveImage(image).Some? ==> r["imageUrl"] == VStr(ResolveImage(image).value))
  {
    WorkspaceKeysDistinct();
    var imageUrl := ResolveImage(image);
    var withName: Doc := if Truthy(name) then map["name" := VStr(name.value)] else map[];
    if imageUrl.Some? then withName["imageUrl" := VStr(imageUrl.value)] else withName
  }

  /** A workspace patch never writes its id, creation time, owner or invite code. */
  lemma WorkspacePatchKeeps(data: Doc, now: int)
    requires data.Keys <= {"name", "imageUrl"}
    ensures var patch := UpdatePatch(WORKSPACES, data, now);
      "id" !in patch && "createdAt" !in patch && "userId" !in patch && "inviteCode" !in patch &&
      patch["updatedAt"] == VTime(now)
  {
    WorkspaceKeysDistinct();
  }

  /**
   * PATCH `/:workspaceId`: an ADMIN writes the supplied name and image;
   * the answer is the patched row, or null when no workspace has the id.
   */
  method PatchWorkspace(db: Database, userId: string, workspaceId: string, name: Option<string>, image: ImageInput,
                        now: int) returns (r: Response<Option<Doc>>)
    requires db.Valid()
    modifies db
    ensures db.Valid()
    ensures AdminGate(old(db.tables), userId, workspaceId).Err? ==> r == Failed(Unauthorized) && db.tables == old(db.tables)
    ensures AdminGate(old(db.tables), userId, workspaceId).Ok? ==>
      var patch := UpdatePatch(WORKSPACES, WorkspaceUpdateData(name, image), now);
      db.tables == old(db.tables)[WORKSPACES := UpdateRows(old(db.tables)[WORKSPACES], workspaceId, patch)] &&
      r == Success(ToApiResponse(FindById(db.tables[WORKSPACES], workspaceId)))
  {
    if AdminGate(db.tables, userId, workspaceId).Err? {
      return Failed(Unauthorized);
    }
    var data := WorkspaceUpdateData(name, image);
    WorkspacePatchKeeps(data, now);
    var updated := db.Update(WORKSPACES, workspaceId, data, now);
    r := Success(ToApiResponse(updated.value));
  }

  /** DELETE `/:workspaceId`: an ADMIN removes the workspace's row; afterwards no workspace has the id. */
  method DeleteWorkspace(db: Database, userId: string, workspaceId: string) returns (r: Response<string>)
    requires db.Valid()
    modifies db
    ensures db.Valid()
    ensures AdminGate(old(db.tables), userId, workspaceId).Err? ==> r == Failed(Unauthorized) && db.tables == old(db.tables)
    ensures AdminGate(old(db.tables), userId, workspaceId).Ok? ==>
      r == Success(workspaceId) &&
      db.tables == old(db.tables)[WORKSPACES := Filter(old(db.tables)[WORKSPACES], NotId(workspaceId))] &&
      IdFree(db.tables[WORKSPACES], workspaceId)
  {
    if AdminGate(db.tables, userId, workspaceId).Err? {
      return Failed(Unauthorized);
    }
    var _ := db.Delete(WORKSPACES, workspaceId);
    r := Success(workspaceId);
  }

  /** `inArray(tasks.projectId, ids)`: a task whose project id is one of the ids; a null one never is. */
  function InProjects(ids: seq<Value>): Doc -> bool
  {
    d => "projectId" in d && d["projectId"] != VNull && d["projectId"] in ids
  }

  /** The ids of the workspace's projects, as its analytics list them. */
  function ProjectIdsOf(t: Tables, workspaceId: string): (r: seq<Value>)
    ensures |r| == |Filter(Rows(t, PROJECTS), FieldMatcher("workspaceId", workspaceId))|
    ensures forall v :: v in r <==>
      exists p :: p in Rows(t, PROJECTS) && FieldIs(p, "workspaceId", workspaceId) && v == IdOf(p)
  {
    ColumnsShape(PROJECTS);
    var listed := ListByField(t, PROJECTS, "workspaceId", workspaceId);
    IdsOfListed(t, workspaceId, listed.documents)
  }

  /** The ids of listed projects: one per row, and exactly the ids of the rows listed. */
  function IdsOfListed(t: Tables, workspaceId: string, docs: seq<Doc>): (r: seq<Value>)
    requires forall d :: d in docs <==> d in Rows(t, PROJECTS) && FieldIs(d, "workspaceId", workspaceId)
    ensures |r| == |docs|
    ensures forall v :: v in r <==>
      exists p :: p in Rows(t, PROJECTS) && FieldIs(p, "workspaceId", workspaceId) && v == IdOf(p)
  {
    var ids := seq(|docs|, i requires 0 <= i < |docs| => IdOf(docs[i]));
    assert forall p :: p in docs ==> IdOf(p) in ids by {
      forall p | p in docs ensures IdOf(p) in ids {
        var i :| 0 <= i < |docs| && docs[i] == p;
        assert ids[i] == IdOf(p);
      }
    }
    ids
  }

  /** A workspace has no project exactly when the analytics find no project id. */
  lemma NoProjectIds(t: Tables, workspaceId: string)
    ensures ProjectIdsOf(t, workspaceId) == [] <==>
      forall p :: p in Rows(t, PROJECTS) ==> !FieldIs(p, "workspaceId", workspaceId)
  {
    var ids := ProjectIdsOf(t, workspaceId);
    if ids != [] {
      assert ids[0] in ids;
    }
  }

  /**
   * On a well-formed store, the scope of the workspace counters holds
   * exactly the tasks that point at a project of the workspace.
   */
  lemma WorkspaceScope(t: Tables, workspaceId: string, d: Doc)
    requires WellFormed(t)
    ensures InProjects(ProjectIdsOf(t, workspaceId))(d) <==>
      exists p :: p in Rows(t, PROJECTS) && FieldIs(p, "workspaceId", workspaceId) &&
        "projectId" in d && d["projectId"] == IdOf(p)
  {
    var ids := ProjectIdsOf(t, workspaceId);
    if InProjects(ids)(d) {
      assert d["projectId"] in ids;
    }
    if exists p :: p in Rows(t, PROJECTS) && FieldIs(p, "workspaceId", workspaceId) &&
        "projectId" in d && d["projectId"] == IdOf(p) {
      var p :| p in Rows(t, PROJECTS) && FieldIs(p, "workspaceId", workspaceId) &&
        "projectId" in d && d["projectId"] == IdOf(p);
      RowsHaveIds(t, PROJECTS, p);
      assert IdOf(p) in ids;
    }
  }

  /** A kind counted over a scope that holds no row is zero. */
  lemma CountOutOfScope(rows: seq<Doc>, scope: Doc -> bool, kind: Kind, assignee: Value, today: string, w: Window)
    requires forall i :: 0 <= i < |rows| ==> !scope(rows[i])
    ensures Count(rows, scope, kind, assignee, today, w) == 0
  {
    FilterNone(rows, Query(scope, kind, assignee, today, w));
  }

  /** The early answer for a workspace without projects is what counting would give. */
  lemma NoProjectsNoCounters(rows: seq<Doc>, assignee: Value, today: string, thisMonth: Window, lastMonth: Window)
    ensures MonthlyCounters(rows, InProjects([]), assignee, today, thisMonth, lastMonth) == NoCounters
  {
    var scope := InProjects([]);
    assert forall i :: 0 <= i < |rows| ==> !scope(rows[i]);
    var kinds := [AnyTask, Assigned, Incomplete, Complete, Overdue];
    forall k | k in kinds
      ensures Count(rows, scope, k, assignee, today, thisMonth) == 0
      ensures Count(rows, scope, k, assignee, today, lastMonth) == 0
    {
      CountOutOfScope(rows, scope, k, assignee, today, thisMonth);
      CountOutOfScope(rows, scope, k, assignee, today, lastMonth);
    }
  }

  /**
   * GET `/:workspaceId/analytics`: a member (401 otherwise) gets the ten
   * monthly counters of the tasks of the workspace's projects, the
   * assigned ones being those assigned to the caller; all zero when the
   * workspace has no project.
   */
  function WorkspaceAnalytics(t: Tables, userId: string, workspaceId: string, today: string,
                              thisMonth: Window, lastMonth: Window): (r: Response<Counters>)
    requires WellFormed(t)
    ensures r.Failed? <==> !HasMembership(t, userId, Some(workspaceId), None)
    ensures r.Failed? ==> r.failure == Unauthorized
    ensures r.Success? ==>
      r.data == MonthlyCounters(Rows(t, TASKS), InProjects(ProjectIdsOf(t, workspaceId)), VStr(userId),
        today, thisMonth, lastMonth)
    ensures r.Success? && (forall p :: p in Rows(t, PROJECTS) ==> !FieldIs(p, "workspaceId", workspaceId)) ==>
      r.data == NoCounters
  {
    if GetMember(t, userId, Some(workspaceId), None).None? then Failed(Unauthorized)
    else
      var ids := ProjectIdsOf(t, workspaceId);
      NoProjectIds(t, workspaceId);
      NoProjectsNoCounters(Rows(t, TASKS), VStr(userId), today, thisMonth, lastMonth);
      if ids == [] then Success(NoCounters)
      else Success(MonthlyCounters(Rows(t, TASKS), InProjects(ids), VStr(userId), today, thisMonth, lastMonth))
  }

  /** GET `/:workspaceId`: a member (401 otherwise) reads the workspace, or null when no workspace has the id. */
  function GetWorkspace(t: Tables, userId: string, workspaceId: string): (r: Response<Option<Doc>>)
    requires WellFormed(t)
    ensures r.Failed? <==> !HasMembership(t, userId, Some(workspaceId), None)
    ensures r.Failed? ==> r.failure == Unauthorized
    ensures r.Success? ==> (r.data.None? <==> IdFree(Rows(t, WORKSPACES), workspaceId))
    ensures r.Success? && r.data.Some? ==>
      exists w :: w in Rows(t, WORKSPACES) && HasId(w, workspaceId) && r.data.value == ToApiResponse(Some(w)).value
  {
    if GetMember(t, userId, Some(workspaceId), None).None? then Failed(Unauthorized)
    else
      var found := GetDocument(t, WORKSPACES, workspaceId);
      Success(ToApiResponse(found.value))
  }
}
