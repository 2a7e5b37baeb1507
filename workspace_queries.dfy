/**
 * `getWorkspaces`: the workspaces a user belongs to, newest first, found
 * through the user's membership rows.
 */
module WorkspaceQueries {
  import opened Common
  import opened DbHelpers

  /** The non-null `workspaceId` values of the membership rows, in order. */
  function WorkspaceIdsOf(members: seq<Doc>): (r: seq<Value>)
    ensures forall v :: v in r <==> v != VNull && exists m :: m in members && "workspaceId" in m && m["workspaceId"] == v
    decreases |members|
  {
    if members == [] then []
    else
      var init := members[..|members| - 1];
      var m := members[|members| - 1];
      assert forall x :: x in members <==> x in init || x == m;
      WorkspaceIdsOf(init) + (if "workspaceId" in m && m["workspaceId"] != VNull then [m["workspaceId"]] else [])
  }

  /** Some membership row of userId names the workspace w. */
  predicate MemberOfWorkspace(t: Tables, userId: string, w: Doc)
  {
    exists m :: m in Rows(t, MEMBERS) && FieldIs(m, "userId", userId) && "workspaceId" in m &&
      m["workspaceId"] != VNull && m["workspaceId"] == IdOf(w)
  }

  /** The ids collected from a user's membership rows name exactly the workspaces the user belongs to. */
  lemma MembershipIds(t: Tables, userId: string, members: seq<Doc>)
    requires forall m :: m in members <==> m in Rows(t, MEMBERS) && FieldIs(m, "userId", userId)
    ensures forall w :: (IdOf(w) != VNull && IdOf(w) in WorkspaceIdsOf(members)) <==> MemberOfWorkspace(t, userId, w)
  {
    var ids := WorkspaceIdsOf(members);
    forall w ensures (IdOf(w) != VNull && IdOf(w) in ids) <==> MemberOfWorkspace(t, userId, w) {
      if MemberOfWorkspace(t, userId, w) {
        var m :| m in Rows(t, MEMBERS) && FieldIs(m, "userId", userId) && "workspaceId" in m &&
          m["workspaceId"] != VNull && m["workspaceId"] == IdOf(w);
        assert m in members;
      }
    }
  }

  /** The options of the workspace lookup: everything, newest first. */
  const NewestFirstOptions := ListOptions(0, 0, Some(SortSpec("createdAt", Descending)))

  /** The workspace rows whose id is one of `ids`. */
  function NamedMatcher(ids: seq<Value>): Doc -> bool
  {
    w => IdOf(w) != VNull && IdOf(w) in ids
  }

  /** The workspace rows a membership of the user names. */
  function MemberMatcher(t: Tables, userId: string): Doc -> bool
  {
    w => MemberOfWorkspace(t, userId, w)
  }

  /** `listDocuments(workspaces, { id: { $in: ids } }, { sort: createdAt desc })`: the named workspaces, newest first. */
  function WorkspacesNamed(t: Tables, ids: seq<Value>): (r: ListResult)
    ensures forall w :: w in r.documents <==> w in Rows(t, WORKSPACES) && IdOf(w) != VNull && IdOf(w) in ids
    ensures r.total == |r.documents|
    ensures NewestFirst(r.documents)
    ensures multiset(r.documents) == multiset(Filter(Rows(t, WORKSPACES), NamedMatcher(ids)))
  {
    var criteria := [FilterEntry("id", InOperator(ids))];
    IdInSelects(WORKSPACES, ids);
    ColumnsShape(WORKSPACES);
    SnakeFallbackUnused(WORKSPACES, "createdAt");
    UnpagedListing(t, WORKSPACES, criteria, NewestFirstOptions);
    FilterCongruent(Rows(t, WORKSPACES), Matcher(WORKSPACES, criteria), NamedMatcher(ids));
    ListDocuments(t, WORKSPACES, criteria, NewestFirstOptions).value
  }

  /**
   * `getWorkspaces`: empty when the user has no membership or no
   * membership names a workspace; otherwise the workspaces so named.
   */
  function GetWorkspaces(t: Tables, userId: string): (r: ListResult)
    ensures forall w :: w in r.documents <==> w in Rows(t, WORKSPACES) && MemberOfWorkspace(t, userId, w)
    ensures r.total == |r.documents|
    ensures NewestFirst(r.documents)
    ensures multiset(r.documents) == multiset(Filter(Rows(t, WORKSPACES), MemberMatcher(t, userId)))
  {
    ColumnsShape(MEMBERS);
    var members := ListByField(t, MEMBERS, "userId", userId);
    MembershipIds(t, userId, members.documents);
    var ids := WorkspaceIdsOf(members.documents);
    FilterCongruent(Rows(t, WORKSPACES), NamedMatcher(ids), MemberMatcher(t, userId));
    if members.total == 0 then
      FilterNone(Rows(t, WORKSPACES), NamedMatcher(ids));
      ListResult([], 0)
    else
      if ids == [] then
        FilterNone(Rows(t, WORKSPACES), NamedMatcher(ids));
        ListResult([], 0)
      else
        WorkspacesNamed(t, ids)
  }
}
