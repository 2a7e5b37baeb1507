/**
 * `getMember`: the membership row of a user, optionally narrowed to a
 * workspace and a project, returned with a `$id` alias of its id.
 */
module MemberLookup {
  import opened Common
  import opened DbHelpers

  /** The filter `getMember` builds: the user, plus each truthy scope. */
  function MemberCriteria(userId: string, workspaceId: Option<string>, projectId: Option<string>): Criteria
  {
    [FilterEntry("userId", Scalar(VStr(userId)))]
    + (if Truthy(workspaceId) then [FilterEntry("workspaceId", Scalar(VStr(workspaceId.value)))] else [])
    + (if Truthy(projectId) then [FilterEntry("projectId", Scalar(VStr(projectId.value)))] else [])
  }

  /** A membership row of userId in the given scope; an empty or absent scope does not narrow. */
  predicate IsMembership(d: Doc, userId: string, workspaceId: Option<string>, projectId: Option<string>)
  {
    FieldIs(d, "userId", userId) &&
    (Truthy(workspaceId) ==> FieldIs(d, "workspaceId", workspaceId.value)) &&
    (Truthy(projectId) ==> FieldIs(d, "projectId", projectId.value))
  }

  lemma MemberCriteriaSelects(userId: string, workspaceId: Option<string>, projectId: Option<string>)
    ensures FilterResolves(MEMBERS, MemberCriteria(userId, workspaceId, projectId))
    ensures forall d :: MatchesFilter(MEMBERS, MemberCriteria(userId, workspaceId, projectId), d) <==>
      IsMembership(d, userId, workspaceId, projectId)
  {
    var f := MemberCriteria(userId, workspaceId, projectId);
    SnakeFallbackUnused(MEMBERS, "userId");
    SnakeFallbackUnused(MEMBERS, "workspaceId");
    SnakeFallbackUnused(MEMBERS, "projectId");
    assert forall i :: 0 <= i < |f| ==> f[i].key in {"userId", "workspaceId", "projectId"} && !Nullish(f[i].value);
    forall d ensures MatchesFilter(MEMBERS, f, d) <==> IsMembership(d, userId, workspaceId, projectId) {
      assert f[0] == FilterEntry("userId", Scalar(VStr(userId)));
      if Truthy(workspaceId) {
        assert f[1] == FilterEntry("workspaceId", Scalar(VStr(workspaceId.value)));
      }
      if Truthy(projectId) {
        assert f[|f| - 1] == FilterEntry("projectId", Scalar(VStr(projectId.value)));
      }
    }
  }

  /** Whether the members table holds a membership of userId in the scope. */
  predicate HasMembership(t: Tables, userId: string, workspaceId: Option<string>, projectId: Option<string>)
  {
    exists i :: 0 <= i < |Rows(t, MEMBERS)| && IsMembership(Rows(t, MEMBERS)[i], userId, workspaceId, projectId)
  }

  /** The rows `getMember`'s query selects are exactly the memberships in scope. */
  lemma SelectedMemberships(t: Tables, userId: string, workspaceId: Option<string>, projectId: Option<string>)
    ensures FilterResolves(MEMBERS, MemberCriteria(userId, workspaceId, projectId))
    ensures forall x :: x in Selected(t, MEMBERS, MemberCriteria(userId, workspaceId, projectId)) <==>
      x in Rows(t, MEMBERS) && IsMembership(x, userId, workspaceId, projectId)
    ensures HasMembership(t, userId, workspaceId, projectId) <==>
      Selected(t, MEMBERS, MemberCriteria(userId, workspaceId, projectId)) != []
  {
    var criteria := MemberCriteria(userId, workspaceId, projectId);
    MemberCriteriaSelects(userId, workspaceId, projectId);
    var rows := Rows(t, MEMBERS);
    var selected := Selected(t, MEMBERS, criteria);
    forall x ensures x in selected <==> x in rows && IsMembership(x, userId, workspaceId, projectId) {
      if x in selected {
        var i :| 0 <= i < |selected| && selected[i] == x;
      }
      if x in rows && IsMembership(x, userId, workspaceId, projectId) {
        var i :| 0 <= i < |rows| && rows[i] == x;
      }
    }
    if HasMembership(t, userId, workspaceId, projectId) {
      var i :| 0 <= i < |rows| && IsMembership(rows[i], userId, workspaceId, projectId);
      assert rows[i] in selected;
    }
    if selected != [] {
      var x := selected[0];
      assert x in rows && IsMembership(x, userId, workspaceId, projectId);
      var i :| 0 <= i < |rows| && rows[i] == x;
    }
  }

  /** The one-row query `getMember` runs: empty iff no membership, else the newest membership. */
  lemma FirstMembership(t: Tables, userId: string, workspaceId: Option<string>, projectId: Option<string>)
    ensures ListDocuments(t, MEMBERS, MemberCriteria(userId, workspaceId, projectId), ListOptions(1, 0, None)).Ok?
    ensures var docs := ListDocuments(t, MEMBERS, MemberCriteria(userId, workspaceId, projectId), ListOptions(1, 0, None)).value.documents;
      (docs == [] <==> !HasMembership(t, userId, workspaceId, projectId)) &&
      (docs != [] ==> docs[0] in Rows(t, MEMBERS) && IsMembership(docs[0], userId, workspaceId, projectId)) &&
      (docs != [] ==> forall x :: x in Rows(t, MEMBERS) && IsMembership(x, userId, workspaceId, projectId) ==>
         SortValue(x, "createdAt") <= SortValue(docs[0], "createdAt"))
  {
    SelectedMemberships(t, userId, workspaceId, projectId);
  }

  /**
   * `getMember`: null when the user has no membership in the scope;
   * otherwise the newest such row, with `$id` set to its id.
   */
  function GetMember(t: Tables, userId: string, workspaceId: Option<string>, projectId: Option<string>): (r: Option<Doc>)
    requires WellFormed(t)
    ensures r.None? <==> !HasMembership(t, userId, workspaceId, projectId)
    ensures r.Some? ==>
      (exists m :: m in Rows(t, MEMBERS) && IsMembership(m, userId, workspaceId, projectId) && "id" in m &&
         r.value == m["$id" := m["id"]])
    ensures r.Some? ==>
      forall m :: m in Rows(t, MEMBERS) && IsMembership(m, userId, workspaceId, projectId) ==>
        SortValue(m, "createdAt") <= SortValue(r.value, "createdAt")
  {
    var result := ListDocuments(t, MEMBERS, MemberCriteria(userId, workspaceId, projectId), ListOptions(1, 0, None));
    FirstMembership(t, userId, workspaceId, projectId);
    if result.Err? || |result.value.documents| == 0 then None
    else
      var member := result.value.documents[0];
      assert "id" in member by {
        var rows := Rows(t, MEMBERS);
        var i :| 0 <= i < |rows| && rows[i] == member;
        assert MEMBERS in t && UniqueIds(t[MEMBERS]);
      }
      assert "$id" != "createdAt" by {
        assert |"$id"| != |"createdAt"|;
      }
      SortValueOther(member, "$id", member["id"], "createdAt");
      Some(member["$id" := member["id"]])
  }

  /** `getMember` for a workspace, as the route handlers call it. */
  function WorkspaceMember(t: Tables, userId: string, workspaceId: string): (r: Option<Doc>)
    requires WellFormed(t)
    ensures r.None? <==> !HasMembership(t, userId, Some(workspaceId), None)
  {
    GetMember(t, userId, Some(workspaceId), None)
  }

  /** A membership of a non-empty workspace holds that workspace's id. */
  lemma WorkspaceMemberInWorkspace(t: Tables, userId: string, workspaceId: string)
    requires WellFormed(t) && workspaceId != ""
    requires WorkspaceMember(t, userId, workspaceId).Some?
    ensures FieldIs(WorkspaceMember(t, userId, workspaceId).value, "workspaceId", workspaceId)
    ensures FieldIs(WorkspaceMember(t, userId, workspaceId).value, "userId", userId)
  {
  }
}
