/** GET and POST /api/teams (app/api/teams/route.ts): the caller's teams, and team
    creation with the caller seeded as owner. */
module TeamsRoute {
  import opened Js
  import opened Types
  import opened Api

  /** A `UserTeam` row with its team (and the team's projects) included. */
  datatype UserTeamRow = UserTeamRow(userId: string, role: Role, team: Team)

  /** `findMany({ where: { userId } })` followed by `.map(ut => ut.team)`. */
  function TeamsOf(rows: seq<UserTeamRow>, userId: string): seq<Team> {
    if rows == [] then []
    else if rows[0].userId == userId then [rows[0].team] + TeamsOf(rows[1..], userId)
    else TeamsOf(rows[1..], userId)
  }

  function Get(session: Option<Session>, rows: seq<UserTeamRow>): Reply<seq<Team>> {
    if !SignedIn(session) then Failure(401, "Unauthorized")
    else Success(200, TeamsOf(rows, Caller(session).id))
  }

  /** Without a signed-in user the reply is 401; otherwise it is 200 with the teams of
      the caller's rows. */
  lemma GetCascade(session: Option<Session>, rows: seq<UserTeamRow>)
    ensures Get(session, rows).Failure? <==> !SignedIn(session)
    ensures Get(session, rows).Failure? ==> Get(session, rows).status == 401
    ensures Get(session, rows).Success? ==>
              Get(session, rows).status == 200 && Get(session, rows).body == TeamsOf(rows, Caller(session).id)
  {
  }

  /** A team is listed iff one of the caller's rows holds it. */
  lemma {:induction false} TeamsOfMembers(rows: seq<UserTeamRow>, userId: string, t: Team)
    ensures t in TeamsOf(rows, userId) <==> exists r :: r in rows && r.userId == userId && r.team == t
  {
    if rows != [] {
      TeamsOfMembers(rows[1..], userId, t);
      assert rows == [rows[0]] + rows[1..];
    }
  }

  /** The listing follows row order: it distributes over concatenation of rows. */
  lemma {:induction false} TeamsOfAppend(a: seq<UserTeamRow>, b: seq<UserTeamRow>, userId: string)
    ensures TeamsOf(a + b, userId) == TeamsOf(a, userId) + TeamsOf(b, userId)
  {
    if a == [] {
      assert a + b == b;
    } else {
      assert (a + b)[1..] == a[1..] + b;
      TeamsOfAppend(a[1..], b, userId);
    }
  }

  /** Over the caller's own rows there is exactly one team per row, in row order. */
  lemma {:induction false} TeamsOfOwnRows(rows: seq<UserTeamRow>, userId: string)
    requires forall r :: r in rows ==> r.userId == userId
    ensures |TeamsOf(rows, userId)| == |rows|
    ensures forall i :: 0 <= i < |rows| ==> TeamsOf(rows, userId)[i] == rows[i].team
  {
    if rows != [] {
      assert rows[0] in rows;
      assert forall r :: r in rows[1..] ==> r in rows;
      TeamsOfOwnRows(rows[1..], userId);
    }
  }

  // ---------------------------------------------------------------------------
  // POST

  /** The JSON body; the team form also sends `members`, which the handler never reads. */
  datatype TeamBody = TeamBody(name: Option<string>, members: Option<seq<Member>>)

  /** The created team row as returned (its members are written but not included). */
  datatype TeamRecord = TeamRecord(id: string, name: string)

  /** The reply and the `UserTeam` rows afterwards; `newId` is the id the store assigns. */
  datatype PostResult = PostResult(reply: Reply<TeamRecord>, rows: seq<UserTeamRow>)

  function Post(session: Option<Session>, body: TeamBody, rows: seq<UserTeamRow>, newId: string): PostResult {
    if !SignedIn(session) then PostResult(Failure(401, "Unauthorized"), rows)
    else if !Truthy(body.name) then PostResult(Failure(400, "Name is required"), rows)
    else
      var created := Team(newId, body.name.value, []);
      PostResult(Success(201, TeamRecord(newId, body.name.value)),
                 rows + [UserTeamRow(Caller(session).id, OWNER, created)])
  }

  /** 401 before 400 before 201; a failure writes nothing; a success writes exactly one
      row, making the caller the OWNER of a team with the given name. */
  lemma PostCascade(session: Option<Session>, body: TeamBody, rows: seq<UserTeamRow>, newId: string)
    ensures var p := Post(session, body, rows, newId);
            && (p.reply.Failure? ==> p.rows == rows)
            && (p.reply.status == 401 <==> !SignedIn(session))
            && (p.reply.status == 400 <==> SignedIn(session) && !Truthy(body.name))
            && (p.reply.Success? <==> SignedIn(session) && Truthy(body.name))
            && (p.reply.Success? ==>
                  && p.reply.status == 201
                  && p.reply.body == TeamRecord(newId, body.name.value)
                  && p.rows == rows + [UserTeamRow(Caller(session).id, OWNER, Team(newId, body.name.value, []))])
  {
  }

  /** Only the name is read: the reply and the rows written do not depend on `members`. */
  lemma PostIgnoresMembers(session: Option<Session>, b1: TeamBody, b2: TeamBody, rows: seq<UserTeamRow>, newId: string)
    requires b1.name == b2.name
    ensures Post(session, b1, rows, newId) == Post(session, b2, rows, newId)
  {
  }

  /** After a successful create, the creator's listing is the previous one with the new,
      project-less team at the end. */
  lemma PostThenGet(session: Option<Session>, body: TeamBody, rows: seq<UserTeamRow>, newId: string)
    requires Post(session, body, rows, newId).reply.Success?
    ensures Get(session, Post(session, body, rows, newId).rows) ==
            Success(200, TeamsOf(rows, Caller(session).id) + [Team(newId, body.name.value, [])])
  {
    var me := Caller(session).id;
    var row := UserTeamRow(me, OWNER, Team(newId, body.name.value, []));
    TeamsOfAppend(rows, [row], me);
    assert TeamsOf([row], me) == [row.team] by {
      assert [row][1..] == [];
    }
  }
}
