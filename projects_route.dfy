/** POST /api/projects (app/api/projects/route.ts): the guard cascade and the
    created project. */
module ProjectsRoute {
  import opened Js
  import opened Api

  datatype ProjectBody = ProjectBody(title: Option<string>, teamId: Option<string>)

  datatype ProjectRecord = ProjectRecord(id: string, title: string, teamId: string)

  /** `userTeam.findUnique({ where: { userId_teamId } })` finds a row. */
  predicate IsMember(rows: seq<Membership>, userId: string, teamId: string) {
    exists i :: 0 <= i < |rows| && rows[i].userId == userId && rows[i].teamId == teamId
  }

  /** `newId` is the id the store assigns to the created row. */
  function Post(session: Option<Session>, body: ProjectBody, rows: seq<Membership>, newId: string): Reply<ProjectRecord> {
    if !SignedIn(session) then Failure(401, "Unauthorized")
    else if !Truthy(body.title) || !Truthy(body.teamId) then Failure(400, "Title and Team ID are required")
    else if !IsMember(rows, Caller(session).id, body.teamId.value) then Failure(403, "Not a member of this team")
    else Success(201, ProjectRecord(newId, body.title.value, body.teamId.value))
  }

  /** The cascade: each status exactly when the earlier guards pass and its own fails;
      a created project carries the given title and team. */
  lemma PostCascade(session: Option<Session>, body: ProjectBody, rows: seq<Membership>, newId: string)
    ensures var r := Post(session, body, rows, newId);
            && (r.status == 401 <==> !SignedIn(session))
            && (r.status == 400 <==> SignedIn(session) && (!Truthy(body.title) || !Truthy(body.teamId)))
            && (r.status == 403 <==>
                  SignedIn(session) && Truthy(body.title) && Truthy(body.teamId)
                  && !IsMember(rows, Caller(session).id, body.teamId.value))
            && (r.Success? <==>
                  SignedIn(session) && Truthy(body.title) && Truthy(body.teamId)
                  && IsMember(rows, Caller(session).id, body.teamId.value))
            && (r.Success? <==> r.status == 201)
            && (r.Success? ==> r.body == ProjectRecord(newId, body.title.value, body.teamId.value))
  {
  }

  /** Whatever the body, a caller with no membership row for the team creates nothing. */
  lemma NonMemberCreatesNothing(session: Option<Session>, body: ProjectBody, rows: seq<Membership>, newId: string)
    requires SignedIn(session) && body.teamId.Some?
    requires forall m :: m in rows ==> m.userId != Caller(session).id || m.teamId != body.teamId.value
    ensures Post(session, body, rows, newId).Failure?
  {
    forall i | 0 <= i < |rows|
      ensures rows[i].userId != Caller(session).id || rows[i].teamId != body.teamId.value
    {
      assert rows[i] in rows;
    }
  }
}
