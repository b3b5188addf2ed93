/** The member list edited in the team form (components/modals/CreateTeamModal.tsx):
    an upsert keyed by e-mail and a removal by e-mail. */
module TeamMembers {
  import opened Js
  import opened Types

  /** No two members share an e-mail. */
  predicate UniqueEmails(ms: seq<Member>) {
    forall i, j :: 0 <= i < j < |ms| ==> ms[i].user.email != ms[j].user.email
  }

  predicate HasEmail(ms: seq<Member>, email: string) {
    exists i :: 0 <= i < |ms| && ms[i].user.email == email
  }

  /** `members.find(m => m.user.email === email)`, as the index of the first match. */
  function FindByEmail(ms: seq<Member>, email: string): (r: Option<nat>)
    ensures r.None? <==> !HasEmail(ms, email)
    ensures r.Some? ==> r.value < |ms| && ms[r.value].user.email == email
    ensures r.Some? ==> forall i :: 0 <= i < r.value ==> ms[i].user.email != email
  {
    if ms == [] then None
    else if ms[0].user.email == email then Some(0)
    else
      var r := FindByEmail(ms[1..], email);
      assert HasEmail(ms, email) ==> HasEmail(ms[1..], email) by {
        if HasEmail(ms, email) {
          var i :| 0 <= i < |ms| && ms[i].user.email == email;
          assert ms[1..][i - 1] == ms[i];
        }
      }
      assert HasEmail(ms[1..], email) ==> HasEmail(ms, email) by {
        if HasEmail(ms[1..], email) {
          var i :| 0 <= i < |ms[1..]| && ms[1..][i].user.email == email;
          assert ms[i + 1] == ms[1..][i];
        }
      }
      if r.None? then None else Some(r.value + 1)
  }

  /** `members.map(m => m.user.email === member.user.email ? member : m)` */
  function ReplaceByEmail(ms: seq<Member>, m: Member): (r: seq<Member>)
    ensures |r| == |ms|
    ensures forall i :: 0 <= i < |ms| ==> r[i] == if ms[i].user.email == m.user.email then m else ms[i]
  {
    if ms == [] then []
    else [if ms[0].user.email == m.user.email then m else ms[0]] + ReplaceByEmail(ms[1..], m)
  }

  const AlreadyInvitedAlert := "El miembro ya ha sido invitado"

  /** The new list and the alert shown, if any. */
  datatype AddOutcome = AddOutcome(members: seq<Member>, alert: Option<string>)

  /** `handleAddMember(member)` */
  function AddMember(ms: seq<Member>, m: Member): AddOutcome {
    match FindByEmail(ms, m.user.email)
    case None => AddOutcome(ms + [m], None)
    case Some(k) =>
      if ms[k].role != m.role then AddOutcome(ReplaceByEmail(ms, m), None)
      else AddOutcome(ms, Some(AlreadyInvitedAlert))
  }

  /** A new e-mail is appended at the end. */
  lemma AddNewEmailAppends(ms: seq<Member>, m: Member)
    requires !HasEmail(ms, m.user.email)
    ensures AddMember(ms, m) == AddOutcome(ms + [m], None)
  {
  }

  /** In a list with unique e-mails, a known e-mail with another role replaces that
      one entry in place; with the same role the list is unchanged and an alert shows. */
  lemma AddKnownEmail(ms: seq<Member>, m: Member, k: nat)
    requires UniqueEmails(ms)
    requires k < |ms| && ms[k].user.email == m.user.email
    ensures ms[k].role != m.role ==> AddMember(ms, m) == AddOutcome(ms[k := m], None)
    ensures ms[k].role == m.role ==> AddMember(ms, m) == AddOutcome(ms, Some(AlreadyInvitedAlert))
  {
    var r := FindByEmail(ms, m.user.email);
    assert r == Some(k) by {
      assert r.Some?;
      assert !(r.value < k) && !(k < r.value);
    }
    if ms[k].role != m.role {
      var s := ReplaceByEmail(ms, m);
      assert |s| == |ms[k := m]|;
      forall i | 0 <= i < |ms| ensures s[i] == ms[k := m][i] {
        if i != k {
          assert ms[i].user.email != m.user.email;
        }
      }
    }
  }

  /** Adding keeps e-mails unique, and afterwards the e-mail is in the list. */
  lemma AddKeepsEmailsUnique(ms: seq<Member>, m: Member)
    requires UniqueEmails(ms)
    ensures UniqueEmails(AddMember(ms, m).members)
    ensures HasEmail(AddMember(ms, m).members, m.user.email)
  {
    var r := AddMember(ms, m).members;
    match FindByEmail(ms, m.user.email)
    case None =>
      assert r[|ms|] == m;
    case Some(k) =>
      AddKnownEmail(ms, m, k);
      assert r[k].user.email == m.user.email;
  }

  /** `members.filter(member => member.user.email !== email)` */
  function RemoveMember(ms: seq<Member>, email: string): seq<Member> {
    if ms == [] then []
    else if ms[0].user.email != email then [ms[0]] + RemoveMember(ms[1..], email)
    else RemoveMember(ms[1..], email)
  }

  /** Removal keeps exactly the members with another e-mail. */
  lemma {:induction false} RemoveMemberMembers(ms: seq<Member>, email: string, x: Member)
    ensures x in RemoveMember(ms, email) <==> x in ms && x.user.email != email
  {
    if ms != [] {
      RemoveMemberMembers(ms[1..], email, x);
      assert ms == [ms[0]] + ms[1..];
    }
  }

  /** Removal commutes with concatenation, so the kept members stay in order. */
  lemma {:induction false} RemoveMemberAppend(a: seq<Member>, b: seq<Member>, email: string)
    ensures RemoveMember(a + b, email) == RemoveMember(a, email) + RemoveMember(b, email)
  {
    if a == [] {
      assert a + b == b;
    } else {
      assert (a + b)[1..] == a[1..] + b;
      RemoveMemberAppend(a[1..], b, email);
    }
  }

  /** Removing an e-mail nobody has changes nothing. */
  lemma {:induction false} RemoveAbsentEmail(ms: seq<Member>, email: string)
    requires !HasEmail(ms, email)
    ensures RemoveMember(ms, email) == ms
  {
    if ms != [] {
      assert !HasEmail(ms[1..], email) by {
        forall i | 0 <= i < |ms[1..]| ensures ms[1..][i].user.email != email {
          assert ms[1..][i] == ms[i + 1];
        }
      }
      RemoveAbsentEmail(ms[1..], email);
      assert ms[0].user.email != email;
    }
  }

  /** Removing the e-mail just added undoes the add. */
  lemma RemoveUndoesAdd(ms: seq<Member>, m: Member)
    requires !HasEmail(ms, m.user.email)
    ensures RemoveMember(AddMember(ms, m).members, m.user.email) == ms
  {
    RemoveMemberAppend(ms, [m], m.user.email);
    RemoveAbsentEmail(ms, m.user.email);
    assert RemoveMember([m], m.user.email) == [];
  }

  /** Removal keeps e-mails unique. */
  lemma {:induction false} RemoveKeepsEmailsUnique(ms: seq<Member>, email: string)
    requires UniqueEmails(ms)
    ensures UniqueEmails(RemoveMember(ms, email))
  {
    if ms != [] {
      RemoveKeepsEmailsUnique(ms[1..], email);
      var rest := RemoveMember(ms[1..], email);
      if ms[0].user.email != email {
        forall j | 0 <= j < |rest| ensures rest[j].user.email != ms[0].user.email {
          RemoveMemberMembers(ms[1..], email, rest[j]);
          var i :| 0 <= i < |ms[1..]| && ms[1..][i] == rest[j];
          assert ms[i + 1] == rest[j];
        }
      }
    }
  }
}
