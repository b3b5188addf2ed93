/** GET and POST /api/invitations (app/api/invitations/route.ts): the caller's
    pending invitations, and sending one (owner check, token, expiry, notification). */
module InvitationsRoute {
  import opened Js
  import opened Types
  import opened Api
  import opened Hex

  /** Milliseconds into a day. */
  type TimeOfDay = t: int | 0 <= t < 86_400_000

  /** A `Date` as a calendar day number and a time of day. */
  datatype Instant = Instant(day: int, time: TimeOfDay)

  /** `a > b` on dates. */
  predicate Later(a: Instant, b: Instant) {
    a.day > b.day || (a.day == b.day && a.time > b.time)
  }

  /** `d.setDate(d.getDate() + n)`: n calendar days later, same time of day. */
  function AddDays(d: Instant, n: int): Instant {
    d.(day := d.day + n)
  }

  datatype InvitationStatus = PENDING | ACCEPTED

  datatype Invitation = Invitation(id: string, email: string, teamId: string, token: string,
                                   expiresAt: Instant, status: InvitationStatus)

  // ---------------------------------------------------------------------------
  // GET

  /** The `where` of `findMany`: the caller's address, still pending, not yet expired. */
  predicate Visible(inv: Invitation, email: string, now: Instant) {
    inv.email == email && inv.status == PENDING && Later(inv.expiresAt, now)
  }

  function VisibleOf(invs: seq<Invitation>, email: string, now: Instant): seq<Invitation> {
    if invs == [] then []
    else if Visible(invs[0], email, now) then [invs[0]] + VisibleOf(invs[1..], email, now)
    else VisibleOf(invs[1..], email, now)
  }

  function Get(session: Option<Session>, invs: seq<Invitation>, now: Instant): Reply<seq<Invitation>> {
    if !SignedIn(session) || !Truthy(Caller(session).email) then Failure(401, "Unauthorized")
    else Success(200, VisibleOf(invs, Caller(session).email.value, now))
  }

  /** An invitation is listed iff it is stored and visible to that address now. */
  lemma {:induction false} VisibleOfMembers(invs: seq<Invitation>, email: string, now: Instant, x: Invitation)
    ensures x in VisibleOf(invs, email, now) <==> x in invs && Visible(x, email, now)
  {
    if invs != [] {
      VisibleOfMembers(invs[1..], email, now, x);
      assert invs == [invs[0]] + invs[1..];
    }
  }

  /** The listing keeps store order. */
  lemma {:induction false} VisibleOfAppend(a: seq<Invitation>, b: seq<Invitation>, email: string, now: Instant)
    ensures VisibleOf(a + b, email, now) == VisibleOf(a, email, now) + VisibleOf(b, email, now)
  {
    if a == [] {
      assert a + b == b;
    } else {
      assert (a + b)[1..] == a[1..] + b;
      VisibleOfAppend(a[1..], b, email, now);
    }
  }

  /** 401 without a user or a non-empty e-mail; otherwise only that address's pending,
      unexpired invitations. */
  lemma GetFilter(session: Option<Session>, invs: seq<Invitation>, now: Instant, x: Invitation)
    ensures Get(session, invs, now).Failure? <==> !SignedIn(session) || !Truthy(Caller(session).email)
    ensures Get(session, invs, now).Failure? ==> Get(session, invs, now).status == 401
    ensures Get(session, invs, now).Success? ==>
              (x in Get(session, invs, now).body <==>
                 x in invs && x.email == Caller(session).email.value && x.status == PENDING && Later(x.expiresAt, now))
  {
    if SignedIn(session) && Truthy(Caller(session).email) {
      VisibleOfMembers(invs, Caller(session).email.value, now, x);
    }
  }

  // ---------------------------------------------------------------------------
  // POST

  datatype InvitationBody = InvitationBody(email: Option<string>, teamId: Option<string>)

  /** A team row with its `UserTeam` members. */
  datatype TeamRow = TeamRow(name: string, members: seq<Membership>)

  /** `team?.members.some(m => m.userId === userId && m.role === "OWNER")`: false when the
      team is missing. */
  predicate IsOwner(teams: map<string, TeamRow>, teamId: string, userId: string) {
    teamId in teams &&
    exists i :: 0 <= i < |teams[teamId].members| &&
      teams[teamId].members[i].userId == userId && teams[teamId].members[i].role == OWNER
  }

  /** The `pusher.trigger(channel, event, data)` call. */
  datatype Notification = Notification(channel: string, event: string, teamName: string,
                                       token: string, inviterName: Option<string>)

  /** The reply, the stored invitations afterwards, and the notification attempted. */
  datatype PostResult = PostResult(reply: Reply<Invitation>, stored: seq<Invitation>, notified: Option<Notification>)

  /** `bytes` stands for `crypto.randomBytes(32)`, `now` for `new Date()`, `created` for
      the id the store assigns (`None` when `invitation.create` throws), and
      `notifyOk` for whether `pusher.trigger` resolves. */
  function Post(session: Option<Session>, body: InvitationBody, teams: map<string, TeamRow>,
                stored: seq<Invitation>, bytes: seq<byte>, now: Instant,
                created: Option<string>, notifyOk: bool): PostResult {
    if !SignedIn(session) then PostResult(Failure(401, "Unauthorized"), stored, None)
    else if !Truthy(body.email) || !Truthy(body.teamId) then
      PostResult(Failure(400, "Email and Team ID are required"), stored, None)
    else if !IsOwner(teams, body.teamId.value, Caller(session).id) then
      PostResult(Failure(403, "Only team owners can send invitations"), stored, None)
    else if body.teamId.value !in teams then PostResult(Failure(404, "Team not found"), stored, None)
    else if created.None? then PostResult(Failure(500, "Failed to send invitation"), stored, None)
    else
      var inv := Invitation(created.value, body.email.value, body.teamId.value, Encode(bytes),
                            AddDays(now, 7), PENDING);
      var note := Notification("user-" + inv.email, "new-invitation", teams[body.teamId.value].name,
                               inv.token, Caller(session).name);
      if notifyOk then PostResult(Success(201, inv), stored + [inv], Some(note))
      else PostResult(Failure(500, "Failed to send invitation"), stored + [inv], Some(note))
  }

  /** The cascade 401, 400, 403, then 500 or 201. The owner check already fails for a
      missing team, so the reply is never 404. Nothing is stored or sent before the
      create succeeds. */
  lemma PostCascade(session: Option<Session>, body: InvitationBody, teams: map<string, TeamRow>,
                    stored: seq<Invitation>, bytes: seq<byte>, now: Instant, created: Option<string>, notifyOk: bool)
    ensures var p := Post(session, body, teams, stored, bytes, now, created, notifyOk);
            && (p.reply.status == 401 <==> !SignedIn(session))
            && (p.reply.status == 400 <==> SignedIn(session) && (!Truthy(body.email) || !Truthy(body.teamId)))
            && (p.reply.status == 403 <==>
                  SignedIn(session) && Truthy(body.email) && Truthy(body.teamId)
                  && !IsOwner(teams, body.teamId.value, Caller(session).id))
            && p.reply.status != 404
            && (p.reply.status == 500 <==>
                  SignedIn(session) && Truthy(body.email) && Truthy(body.teamId)
                  && IsOwner(teams, body.teamId.value, Caller(session).id) && (created.None? || !notifyOk))
            && (p.reply.status == 201 <==> p.reply.Success?)
            && (p.reply.Success? <==>
                  SignedIn(session) && Truthy(body.email) && Truthy(body.teamId)
                  && IsOwner(teams, body.teamId.value, Caller(session).id) && created.Some? && notifyOk)
            && (p.stored != stored <==> p.notified.Some?)
            && (p.notified.Some? <==>
                  SignedIn(session) && Truthy(body.email) && Truthy(body.teamId)
                  && IsOwner(teams, body.teamId.value, Caller(session).id) && created.Some?)
  {
  }

  /** A request for a team the store does not have is refused with 403. */
  lemma MissingTeamIsForbidden(session: Option<Session>, body: InvitationBody, teams: map<string, TeamRow>,
                               stored: seq<Invitation>, bytes: seq<byte>, now: Instant,
                               created: Option<string>, notifyOk: bool)
    requires SignedIn(session) && Truthy(body.email) && Truthy(body.teamId)
    requires body.teamId.value !in teams
    ensures Post(session, body, teams, stored, bytes, now, created, notifyOk).reply.status == 403
  {
  }

  /** Once created, the invitation is stored at the end (also when the notification
      then fails); it is PENDING, expires seven calendar days after `now` at the same
      time of day, its token is the hex of the random bytes (64 lower-case digits for
      32 bytes), and the notification goes to channel "user-" + e-mail. */
  lemma CreatedInvitation(session: Option<Session>, body: InvitationBody, teams: map<string, TeamRow>,
                          stored: seq<Invitation>, bytes: seq<byte>, now: Instant,
                          created: Option<string>, notifyOk: bool)
    requires Post(session, body, teams, stored, bytes, now, created, notifyOk).notified.Some?
    ensures var p := Post(session, body, teams, stored, bytes, now, created, notifyOk);
            && |p.stored| == |stored| + 1 && p.stored[..|stored|] == stored
            && var inv := p.stored[|stored|];
            && inv.email == body.email.value && inv.teamId == body.teamId.value
            && inv.status == PENDING
            && inv.expiresAt.day == now.day + 7 && inv.expiresAt.time == now.time
            && Decode(inv.token) == Some(bytes)
            && (|bytes| == 32 ==> |inv.token| == 64 && forall i :: 0 <= i < 64 ==> IsLowerHexDigit(inv.token[i]))
            && p.notified.value.channel == "user-" + body.email.value
            && p.notified.value.teamName == teams[body.teamId.value].name
            && p.notified.value.token == inv.token
            && (p.reply.Success? ==> p.reply.body == inv)
  {
    DecodeEncode(bytes);
    var p := Post(session, body, teams, stored, bytes, now, created, notifyOk);
    assert p.stored == stored + [p.stored[|stored|]];
  }

  /** The partner of GET: a sent invitation is listed for its address at every instant
      before its expiry, and no longer at the expiry itself. */
  lemma SentInvitationIsListedUntilExpiry(session: Option<Session>, body: InvitationBody,
                                          teams: map<string, TeamRow>, stored: seq<Invitation>,
                                          bytes: seq<byte>, now: Instant, created: Option<string>,
                                          notifyOk: bool, later: Instant)
    requires Post(session, body, teams, stored, bytes, now, created, notifyOk).notified.Some?
    ensures var p := Post(session, body, teams, stored, bytes, now, created, notifyOk);
            var inv := p.stored[|stored|];
            && (Later(AddDays(now, 7), later) ==> inv in VisibleOf(p.stored, body.email.value, later))
            && inv !in VisibleOf([inv], body.email.value, AddDays(now, 7))
  {
    var p := Post(session, body, teams, stored, bytes, now, created, notifyOk);
    var inv := p.stored[|stored|];
    VisibleOfMembers(p.stored, body.email.value, later, inv);
    VisibleOfMembers([inv], body.email.value, AddDays(now, 7), inv);
  }
}
