/**
 * `getProject`: a project as seen by a user, visible only to members of
 * the project's workspace.
 */
module ProjectQueries {
  import opened Common
  import opened DbHelpers
  import opened MemberLookup

  /**
   * `getProject`: null when no project has the id, null when the user has
   * no membership in the project's workspace, otherwise the stored row.
   */
  function GetProject(t: Tables, projectId: string, userId: string): (r: Option<Doc>)
    requires WellFormed(t)
    ensures r.Some? <==>
      exists i :: 0 <= i < |Rows(t, PROJECTS)| && HasId(Rows(t, PROJECTS)[i], projectId) &&
        HasMembership(t, userId, StrField(Rows(t, PROJECTS)[i], "workspaceId"), None)
    ensures r.Some? ==> r.value in Rows(t, PROJECTS) && HasId(r.value, projectId)
  {
    var rows := Rows(t, PROJECTS);
    match FindById(rows, projectId)
    case None => None
    case Some(project) =>
      assert forall i :: 0 <= i < |rows| && HasId(rows[i], projectId) ==> rows[i] == project by {
        forall i | 0 <= i < |rows| && HasId(rows[i], projectId) ensures rows[i] == project {
          assert PROJECTS in t;
          FindByIdUnique(rows, projectId, i);
        }
      }
      if GetMember(t, userId, StrField(project, "workspaceId"), None).None? then None
      else Some(project)
  }
}
