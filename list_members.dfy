/** The member-list widget (components/list/ListMembers.tsx): the e-mail and role
    inputs, the checks before a member is built, and the callbacks it invokes. */
module ListMembers {
  import opened Js
  import opened Types
  import Email
  import TeamMembers

  /** The widget's state: the e-mail being typed and the selected role. */
  datatype Form = Form(email: string, role: Role)

  /** The role select starts on MEMBER and the e-mail input empty. */
  const InitialForm := Form("", MEMBER)

  const EmptyEmailAlert := "El email no puede estar vacío"
  const InvalidEmailAlert := "El email no es válido"

  /** `s.split("@")[0]`: the longest prefix of s without '@'. */
  function LocalPart(s: string): (r: string)
    ensures |r| <= |s| && r == s[..|r|]
    ensures '@' !in r
    ensures |r| == |s| || s[|r|] == '@'
  {
    if s == [] || s[0] == '@' then [] else [s[0]] + LocalPart(s[1..])
  }

  /** The name ends right before the first '@'. */
  lemma {:induction false} LocalPartBeforeFirstAt(s: string, k: nat)
    requires k < |s| && s[k] == '@' && '@' !in s[..k]
    ensures LocalPart(s) == s[..k]
  {
    if k > 0 {
      assert s[0] == s[..k][0];
      assert s[1..][..k - 1] == s[1..k];
      LocalPartBeforeFirstAt(s[1..], k - 1);
    }
  }

  /** For an accepted address the name is the non-empty part before its '@'. */
  lemma LocalPartOfValidEmail(s: string)
    requires Email.IsValidEmail(s)
    ensures |LocalPart(s)| > 0
    ensures s == LocalPart(s) + "@" + s[|LocalPart(s)| + 1..]
  {
    var k := Email.IndexOf(s, '@').value;
    LocalPartBeforeFirstAt(s, k);
    assert s == s[..k] + [s[k]] + s[k + 1..];
  }

  /** What one press of the add button yields: the new widget state, the alert
      shown, and the member handed to `onAddMember` (when that callback is given). */
  datatype AddStep = AddStep(form: Form, alert: Option<string>, added: Option<Member>)

  /** The member `handleAddMember` builds; `now` stands for `Date.now().toString()`. */
  function BuildMember(email: string, role: Role, now: string): Member {
    Member(now, User(now, email, LocalPart(email), None, None), Some(role))
  }

  /** `handleAddMember()` */
  function HandleAddMember(form: Form, now: string, hasOnAddMember: bool): AddStep {
    if form.email == "" then AddStep(form, Some(EmptyEmailAlert), None)
    else if !Email.IsValidEmail(form.email) then AddStep(form, Some(InvalidEmailAlert), None)
    else AddStep(form.(email := ""), None,
                 if hasOnAddMember then Some(BuildMember(form.email, form.role, now)) else None)
  }

  /** The guards: an empty or rejected e-mail alerts, builds nothing and leaves the
      input as it was; an accepted one clears the input and nothing else. */
  lemma HandleAddMemberGuards(form: Form, now: string, cb: bool)
    ensures form.email == "" ==> HandleAddMember(form, now, cb) == AddStep(form, Some(EmptyEmailAlert), None)
    ensures form.email != "" && !Email.IsValidEmail(form.email) ==>
              HandleAddMember(form, now, cb) == AddStep(form, Some(InvalidEmailAlert), None)
    ensures HandleAddMember(form, now, cb).added.Some? ==> Email.IsValidEmail(form.email)
    ensures HandleAddMember(form, now, cb).form ==
              if Email.IsValidEmail(form.email) then form.(email := "") else form
  {
    Email.RejectedExamples();
  }

  /** A built member carries the entered e-mail, the non-empty part before its '@'
      as name, and the selected role. */
  lemma BuiltMember(form: Form, now: string)
    requires HandleAddMember(form, now, true).added.Some?
    ensures var m := HandleAddMember(form, now, true).added.value;
            && m.user.email == form.email
            && m.role == Some(form.role)
            && |m.user.name| > 0
            && form.email == m.user.name + "@" + form.email[|m.user.name| + 1..]
  {
    LocalPartOfValidEmail(form.email);
  }

  /** `handleRemoveMember(member)`: the e-mail passed to `onRemoveMember`, if given. */
  function HandleRemoveMember(m: Member, hasOnRemoveMember: bool): (r: Option<string>)
    ensures hasOnRemoveMember <==> r.Some?
    ensures r.Some? ==> r.value == m.user.email
  {
    if hasOnRemoveMember then Some(m.user.email) else None
  }

  /** The row's `onChangeRole`: the member with the new role, handed to `onAddMember`. */
  function ChangeRole(m: Member, role: Role): Member {
    m.(role := Some(role))
  }

  /** In the team form (unique e-mails), a role change of a listed member goes
      through the upsert and replaces exactly that entry. */
  lemma ChangeRoleReplacesEntry(ms: seq<Member>, k: nat, role: Role)
    requires TeamMembers.UniqueEmails(ms) && k < |ms|
    requires ms[k].role != Some(role)
    ensures TeamMembers.AddMember(ms, ChangeRole(ms[k], role)) ==
            TeamMembers.AddOutcome(ms[k := ChangeRole(ms[k], role)], None)
  {
    TeamMembers.AddKnownEmail(ms, ChangeRole(ms[k], role), k);
  }

  /** An accepted e-mail not yet in the team form's list ends up appended to it. */
  lemma AddedMemberIsAppended(form: Form, now: string, ms: seq<Member>)
    requires Email.IsValidEmail(form.email)
    requires !TeamMembers.HasEmail(ms, form.email)
    ensures var m := HandleAddMember(form, now, true).added.value;
            TeamMembers.AddMember(ms, m) == TeamMembers.AddOutcome(ms + [m], None)
  {
    Email.RejectedExamples();
  }
}
