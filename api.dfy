/** What the route handlers under app/api share: the session `getServerSession`
    yields, the JSON reply with its status, and the `UserTeam` membership rows. */
module Api {
  import opened Js
  import opened Types

  /** `session.user`; the id is read `as string`. */
  datatype SessionUser = SessionUser(id: string, email: Option<string>, name: Option<string>)

  /** A session whose `user` may be missing; no session at all is `None`. */
  datatype Session = Session(user: Option<SessionUser>)

  /** The common first guard `!session || !session.user` passes. */
  predicate SignedIn(s: Option<Session>) {
    s.Some? && s.value.user.Some?
  }

  function Caller(s: Option<Session>): SessionUser
    requires SignedIn(s)
  {
    s.value.user.value
  }

  /** `NextResponse.json({ error }, { status })` or `NextResponse.json(value, { status })`. */
  datatype Reply<T> = Failure(status: int, error: string) | Success(status: int, body: T)

  /** A row of the `UserTeam` table. */
  datatype Membership = Membership(userId: string, teamId: string, role: Role)
}
