/** The records the client components pass around (types/Member.ts, types/Project.ts
    and the `Team` shape the teams endpoint returns). */
module Types {
  import opened Js

  /** The membership roles of the `UserTeam` table. */
  datatype Role = OWNER | ADMIN | MEMBER

  datatype User = User(id: string, email: string, name: string, image: Option<string>, emailVerified: Option<int>)

  /** A member of a team being edited; `role` is optional in the client type. */
  datatype Member = Member(userId: string, user: User, role: Option<Role>)

  datatype ProjectRef = ProjectRef(id: string, title: string)

  /** A team as `GET /api/teams` returns it: the team row with its projects included. */
  datatype Team = Team(id: string, name: string, projects: seq<ProjectRef>)
}
