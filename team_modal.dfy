/** The team form (components/modals/CreateTeamModal.tsx): the name check, the
    request it sends, the "Equipos" rebuild after a team is created, the rename after
    an update, the initial owner seed and `closeCreateModal`. */
module TeamModal {
  import opened Js
  import opened Types
  import opened ModalStore
  import opened Sidebar

  // ---------------------------------------------------------------------------
  // Ordering sub-items by name. `localeCompare(..., "es", { sensitivity: "base" })`
  // is locale collation; it is represented by a comparator `le` ("a sorts no later
  // than b") that is a total preorder.

  ghost predicate TotalPreorder(le: (string, string) -> bool) {
    && (forall a, b :: le(a, b) || le(b, a))
    && (forall a, b, c :: le(a, b) && le(b, c) ==> le(a, c))
  }

  ghost predicate SortedByName(s: seq<SubItem>, le: (string, string) -> bool) {
    forall i, j :: 0 <= i < j < |s| ==> le(s[i].name, s[j].name)
  }

  /** Places x after every element that sorts no later than it. */
  function InsertByName(x: SubItem, s: seq<SubItem>, le: (string, string) -> bool): seq<SubItem> {
    if s == [] then [x]
    else if le(s[0].name, x.name) then [s[0]] + InsertByName(x, s[1..], le)
    else [x] + s
  }

  /** `Array.prototype.sort` with the name comparator, as an insertion sort. */
  function SortByName(s: seq<SubItem>, le: (string, string) -> bool): seq<SubItem> {
    if s == [] then [] else InsertByName(s[|s| - 1], SortByName(s[..|s| - 1], le), le)
  }

  lemma {:induction false} InsertByNamePermutes(x: SubItem, s: seq<SubItem>, le: (string, string) -> bool)
    ensures multiset(InsertByName(x, s, le)) == multiset(s) + multiset{x}
  {
    if s != [] {
      assert s == [s[0]] + s[1..];
      if le(s[0].name, x.name) {
        InsertByNamePermutes(x, s[1..], le);
      }
    }
  }

  lemma {:induction false} InsertByNameSorted(x: SubItem, s: seq<SubItem>, le: (string, string) -> bool)
    requires TotalPreorder(le) && SortedByName(s, le)
    ensures SortedByName(InsertByName(x, s, le), le)
  {
    if s != [] {
      var r := InsertByName(x, s, le);
      if le(s[0].name, x.name) {
        var rest := InsertByName(x, s[1..], le);
        InsertByNameSorted(x, s[1..], le);
        InsertByNamePermutes(x, s[1..], le);
        assert r == [s[0]] + rest;
        forall j | 0 <= j < |rest| ensures le(s[0].name, rest[j].name) {
          assert rest[j] in multiset(s[1..]) + multiset{x};
          if rest[j] != x {
            var k :| 0 <= k < |s[1..]| && s[1..][k] == rest[j];
            assert s[k + 1] == rest[j];
          }
        }
        forall i, j | 0 <= i < j < |r| ensures le(r[i].name, r[j].name) {
          assert r[j] == rest[j - 1];
          if i > 0 {
            assert r[i] == rest[i - 1];
          }
        }
      } else {
        assert r == [x] + s;
        forall i, j | 0 <= i < j < |r| ensures le(r[i].name, r[j].name) {
          if i == 0 {
            assert le(x.name, s[0].name);
            if j > 1 {
              assert le(s[0].name, s[j - 1].name);
            }
          } else {
            assert r[i] == s[i - 1] && r[j] == s[j - 1];
          }
        }
      }
    }
  }

  /** The sort yields a name-ordered permutation of its input. */
  lemma {:induction false} SortByNameCorrect(s: seq<SubItem>, le: (string, string) -> bool)
    requires TotalPreorder(le)
    ensures multiset(SortByName(s, le)) == multiset(s)
    ensures SortedByName(SortByName(s, le), le)
  {
    if s != [] {
      var init := s[..|s| - 1];
      SortByNameCorrect(init, le);
      InsertByNamePermutes(s[|s| - 1], SortByName(init, le), le);
      InsertByNameSorted(s[|s| - 1], SortByName(init, le), le);
      assert s == init + [s[|s| - 1]];
    }
  }

  // ---------------------------------------------------------------------------
  // The rebuild after a team is created

  /** The team record `POST /api/teams` replies with (only `id` and `name` are read). */
  datatype CreatedTeam = CreatedTeam(id: string, name: string)

  /** The entry pushed for the new team; its action reopens the form on that team. */
  function NewTeamEntry(t: CreatedTeam): SubItem {
    SubItem(t.name, None, Some(t.id), None, Some(OpenTeam(Str(t.id))))
  }

  /** The "Crear Equipo" entry pushed last; its action opens an empty form. */
  const CreateTeamSentinel := SubItem(CreateTeamName, None, Some("new"), None, Some(OpenTeam(Null)))

  /** `subItems.filter(item => item.name !== "Crear Equipo")` */
  function WithoutCreateEntries(subs: seq<SubItem>): (r: seq<SubItem>)
    ensures forall x :: x in r <==> x in subs && x.name != CreateTeamName
  {
    if subs == [] then []
    else
      var rest := WithoutCreateEntries(subs[1..]);
      assert subs == [subs[0]] + subs[1..];
      if subs[0].name != CreateTeamName then [subs[0]] + rest else rest
  }

  /** The filter keeps order and multiplicity: it works entry by entry (a single entry
      is kept iff it is not named exactly "Crear Equipo") and distributes over
      concatenation. */
  lemma {:induction false} WithoutCreateEntriesAppend(a: seq<SubItem>, b: seq<SubItem>)
    ensures forall x :: WithoutCreateEntries([x]) == if x.name != CreateTeamName then [x] else []
    ensures WithoutCreateEntries(a + b) == WithoutCreateEntries(a) + WithoutCreateEntries(b)
  {
    forall x ensures WithoutCreateEntries([x]) == if x.name != CreateTeamName then [x] else [] {
      assert [x][1..] == [];
    }
    if a == [] {
      assert a + b == b;
    } else {
      assert (a + b)[1..] == a[1..] + b;
      WithoutCreateEntriesAppend(a[1..], b);
    }
  }

  /** `newSidebarTeams` before the push: the kept entries of the first "Equipos" item
      (none when it has no sub-items) and the new team, sorted by name. */
  function SortedTeamEntries(equipos: Item, t: CreatedTeam, le: (string, string) -> bool): seq<SubItem> {
    var kept := if equipos.subItems.Some? then WithoutCreateEntries(equipos.subItems.value) else [];
    SortByName(kept + [NewTeamEntry(t)], le)
  }

  function ReplaceTeamsSubItems(items: seq<Item>, subs: seq<SubItem>): (r: seq<Item>)
    ensures |r| == |items|
    ensures forall i :: 0 <= i < |items| ==>
              r[i] == if items[i].name == TeamsName then items[i].(subItems := Some(subs)) else items[i]
  {
    if items == [] then []
    else [if items[0].name == TeamsName then items[0].(subItems := Some(subs)) else items[0]]
         + ReplaceTeamsSubItems(items[1..], subs)
  }

  /** The new sidebar after a successful create, or `None` when there is no
      "Equipos" item (`sidebarTeams[0].subItems` then throws, which the handler catches). */
  function ItemsAfterCreate(items: seq<Item>, t: CreatedTeam, le: (string, string) -> bool): Option<seq<Item>> {
    match FindItem(items, TeamsName)
    case None => None
    case Some(k) => Some(ReplaceTeamsSubItems(items, SortedTeamEntries(items[k], t, le) + [CreateTeamSentinel]))
  }

  /** The entries before the trailing "Crear Equipo" entry: the new team and the kept
      entries, in name order. */
  lemma SortedTeamEntriesShape(equipos: Item, t: CreatedTeam, le: (string, string) -> bool)
    requires TotalPreorder(le)
    ensures var sorted := SortedTeamEntries(equipos, t, le);
            var kept := if equipos.subItems.Some? then equipos.subItems.value else [];
            && SortedByName(sorted, le)
            && multiset(sorted) == multiset(WithoutCreateEntries(kept)) + multiset{NewTeamEntry(t)}
            && forall x :: x in sorted <==> x == NewTeamEntry(t) || (x in kept && x.name != CreateTeamName)
  {
    var kept := if equipos.subItems.Some? then WithoutCreateEntries(equipos.subItems.value) else [];
    var sorted := SortedTeamEntries(equipos, t, le);
    SortByNameCorrect(kept + [NewTeamEntry(t)], le);
    assert equipos.subItems.None? ==> kept == WithoutCreateEntries([]);
    forall x ensures x in sorted <==> x in kept + [NewTeamEntry(t)] {
      assert x in sorted <==> x in multiset(sorted);
      assert x in kept + [NewTeamEntry(t)] <==> x in multiset(kept + [NewTeamEntry(t)]);
    }
  }

  /** After a create, every "Equipos" item holds the earlier entries of the first
      "Equipos" item not named "Crear Equipo" plus the new team, in name order, then
      one "Crear Equipo" entry with id "new"; all other items are unchanged. */
  lemma ItemsAfterCreateShape(items: seq<Item>, t: CreatedTeam, le: (string, string) -> bool, i: int)
    requires TotalPreorder(le)
    requires 0 <= i < |items| && items[i].name == TeamsName
    ensures ItemsAfterCreate(items, t, le).Some?
    ensures var r := ItemsAfterCreate(items, t, le).value;
            var k := FindItem(items, TeamsName).value;
            var kept := if items[k].subItems.Some? then items[k].subItems.value else [];
            && |r| == |items|
            && (forall j :: 0 <= j < |items| && items[j].name != TeamsName ==> r[j] == items[j])
            && r[i].subItems.Some?
            && var subs := r[i].subItems.value;
               && |subs| > 0 && subs[|subs| - 1] == CreateTeamSentinel
               && SortedByName(subs[..|subs| - 1], le)
               && multiset(subs[..|subs| - 1]) == multiset(WithoutCreateEntries(kept)) + multiset{NewTeamEntry(t)}
               && (forall x :: x in subs[..|subs| - 1] <==>
                     x == NewTeamEntry(t) || (x in kept && x.name != CreateTeamName))
  {
    var k := FindItem(items, TeamsName).value;
    var sorted := SortedTeamEntries(items[k], t, le);
    SortedTeamEntriesShape(items[k], t, le);
    var subs := sorted + [CreateTeamSentinel];
    assert subs[..|subs| - 1] == sorted;
  }

  /** Without an "Equipos" item the rebuild throws and the sidebar is not replaced. */
  lemma ItemsAfterCreateNeedsTeamsItem(items: seq<Item>, t: CreatedTeam, le: (string, string) -> bool)
    requires forall i :: 0 <= i < |items| ==> items[i].name != TeamsName
    ensures ItemsAfterCreate(items, t, le).None?
  {
  }

  /** The filter is by exact name: the store's initial placeholder "Crear equipo"
      survives a create, while an earlier team literally named "Crear Equipo" is dropped. */
  lemma CreateFilterIsExactName(x: SubItem, y: SubItem)
    requires x.name == "Crear equipo" && y.name == CreateTeamName
    ensures WithoutCreateEntries([x, y]) == [x]
  {
    assert x.name != CreateTeamName by {
      assert x.name[6] == 'e' && CreateTeamName[6] == 'E';
    }
    assert [y][1..] == [];
    assert WithoutCreateEntries([y]) == [];
    assert [x, y][1..] == [y];
    assert WithoutCreateEntries([x, y]) == [x] + WithoutCreateEntries([y]);
  }

  // ---------------------------------------------------------------------------
  // The rename after an update

  function RenameSubItem(s: SubItem, teamId: string, name: string): SubItem {
    if s.id == Some(teamId) then s.(name := name) else s
  }

  function RenameSubItems(subs: seq<SubItem>, teamId: string, name: string): (r: seq<SubItem>)
    ensures |r| == |subs|
    ensures forall j :: 0 <= j < |subs| ==> r[j] == RenameSubItem(subs[j], teamId, name)
  {
    if subs == [] then [] else [RenameSubItem(subs[0], teamId, name)] + RenameSubItems(subs[1..], teamId, name)
  }

  function RenameItem(item: Item, teamId: string, name: string): Item {
    if item.name == TeamsName then
      item.(subItems := if item.subItems.Some? then Some(RenameSubItems(item.subItems.value, teamId, name)) else None)
    else item
  }

  /** The new sidebar after a successful update of team `teamId` to `name`. */
  function ItemsAfterUpdate(items: seq<Item>, teamId: string, name: string): (r: seq<Item>)
    ensures |r| == |items|
    ensures forall i :: 0 <= i < |items| ==> r[i] == RenameItem(items[i], teamId, name)
  {
    if items == [] then [] else [RenameItem(items[0], teamId, name)] + ItemsAfterUpdate(items[1..], teamId, name)
  }

  /** Only the "Equipos" sub-items whose id is `teamId` change, and only their name. */
  lemma ItemsAfterUpdateChangesOnlyThatTeam(items: seq<Item>, teamId: string, name: string, i: int)
    requires 0 <= i < |items|
    ensures var r := ItemsAfterUpdate(items, teamId, name);
            && r[i].name == items[i].name && r[i].href == items[i].href
            && r[i].subItems.Some? == items[i].subItems.Some?
            && (items[i].name != TeamsName ==> r[i] == items[i])
            && (items[i].subItems.Some? ==>
                  && |r[i].subItems.value| == |items[i].subItems.value|
                  && forall j :: 0 <= j < |items[i].subItems.value| ==>
                       var before, after := items[i].subItems.value[j], r[i].subItems.value[j];
                       if items[i].name == TeamsName && before.id == Some(teamId)
                       then after == before.(name := name)
                       else after == before)
  {
  }

  // ---------------------------------------------------------------------------
  // The form, its request and its handlers

  /** The form's own state: the name input and the member list. */
  datatype TeamForm = TeamForm(teamName: string, members: seq<Member>)

  datatype Invite = Invite(email: string, role: Option<Role>)
  datatype RoleUpdate = RoleUpdate(userId: string, role: Option<Role>)

  /** The request `handleCreateTeam` sends. */
  datatype TeamRequest =
    | PostTeam(name: string, invites: seq<Invite>)
    | PutTeam(teamId: string, name: string, updates: seq<RoleUpdate>)

  function Invites(ms: seq<Member>): (r: seq<Invite>)
    ensures |r| == |ms|
    ensures forall i :: 0 <= i < |ms| ==> r[i] == Invite(ms[i].user.email, ms[i].role)
  {
    if ms == [] then [] else [Invite(ms[0].user.email, ms[0].role)] + Invites(ms[1..])
  }

  function RoleUpdates(ms: seq<Member>): (r: seq<RoleUpdate>)
    ensures |r| == |ms|
    ensures forall i :: 0 <= i < |ms| ==> r[i] == RoleUpdate(ms[i].userId, ms[i].role)
  {
    if ms == [] then [] else [RoleUpdate(ms[0].userId, ms[0].role)] + RoleUpdates(ms[1..])
  }

  const EmptyNameAlert := "El nombre del equipo no puede estar vacío"
  const CreatedAlert := "Equipo creado con éxito"
  const UpdatedAlert := "Equipo actualizado con éxito"
  const CreateErrorAlert := "Error al crear el equipo"
  const UpdateErrorAlert := "Error al actualizar el equipo"

  /** The request for the form, or `None` when the name is blank. A truthy `teamId`
      makes it an update of that team, anything else a create. */
  function RequestFor(form: TeamForm, teamId: Field): Option<TeamRequest> {
    if Trim(form.teamName) == "" then None
    else if FieldTruthy(teamId) then Some(PutTeam(teamId.s, form.teamName, RoleUpdates(form.members)))
    else Some(PostTeam(form.teamName, Invites(form.members)))
  }

  /** A blank or whitespace-only name sends nothing; otherwise the request carries
      the typed name and one entry per listed member. */
  lemma RequestForGuard(form: TeamForm, teamId: Field)
    ensures RequestFor(form, teamId).None? <==> Blank(form.teamName)
    ensures RequestFor(form, teamId).Some? ==>
              match RequestFor(form, teamId).value
              case PostTeam(name, invites) => !FieldTruthy(teamId) && name == form.teamName && |invites| == |form.members|
              case PutTeam(id, name, updates) => teamId == Str(id) && id != "" && name == form.teamName && |updates| == |form.members|
  {
    TrimEmptyIffBlank(form.teamName);
  }

  /** How the request ended: a 2xx reply with the team's id and name, another
      status with an optional `message`, or a thrown fetch. */
  datatype TeamReply = ReplyOk(id: string, name: string) | ReplyError(message: Option<string>) | FetchThrew

  /** The owner seed of a new-team form: the signed-in user, as OWNER. */
  function OwnerSeed(userId: string, email: string, name: string, image: Option<string>, now: int): seq<Member> {
    [Member(userId, User(userId, email, name, image, Some(now)), Some(OWNER))]
  }

  /** The effect that fills the form when it is shown: `Some` only for a new team
      (no truthy `teamId`) of a "team" modal with an authenticated session. */
  function SeedOnOpen(teamId: Field, kind: Option<ModalKind>, authenticated: bool,
                      userId: string, email: string, name: string, image: Option<string>, now: int): (r: Option<TeamForm>)
    ensures r.Some? <==> !FieldTruthy(teamId) && kind == Some(TeamModal) && authenticated
    ensures r.Some? ==> r.value.teamName == "" && |r.value.members| == 1
                        && r.value.members[0].role == Some(OWNER) && r.value.members[0].userId == userId
  {
    if FieldTruthy(teamId) then None
    else if kind == Some(TeamModal) && authenticated then Some(TeamForm("", OwnerSeed(userId, email, name, image, now)))
    else None
  }

  /** `closeCreateModal()`: clears the name, closes the modal, and empties the member
      list only when no team was being edited. */
  method CloseCreateModal(form: TeamForm, store: Store) returns (form': TeamForm)
    modifies store
    ensures store.State() == Close(old(store.State()))
    ensures form'.teamName == ""
    ensures form'.members == if FieldTruthy(TeamIdOf(old(store.payload))) then form.members else []
  {
    var teamId := TeamIdOf(store.payload);
    form' := form.(teamName := "");
    store.CloseModal();
    if !FieldTruthy(teamId) {
      form' := form'.(members := []);
    }
  }

  /** `handleCreateTeam`, with the reply to its request given: the request sent, the
      new form, the new sidebar, and the last alert shown. */
  method HandleSubmit(form: TeamForm, items: seq<Item>, reply: TeamReply,
                      le: (string, string) -> bool, store: Store)
    returns (request: Option<TeamRequest>, form': TeamForm, items': seq<Item>, alert: Option<string>)
    modifies store
    ensures var teamId := TeamIdOf(old(store.payload));
            request == RequestFor(form, teamId)
    ensures request.None? ==> alert == Some(EmptyNameAlert)
    ensures request.None? || !reply.ReplyOk? ==>
              form' == form && items' == items && store.State() == old(store.State())
    ensures request.Some? && reply.FetchThrew? ==>
              alert == Some(if request.value.PostTeam? then CreateErrorAlert else UpdateErrorAlert)
    ensures request.Some? && reply.ReplyError? ==>
              alert == Some(if Truthy(reply.message) then reply.message.value
                            else if request.value.PostTeam? then CreateErrorAlert else UpdateErrorAlert)
    ensures request.Some? && request.value.PostTeam? && reply.ReplyOk? ==>
              var rebuilt := ItemsAfterCreate(items, CreatedTeam(reply.id, reply.name), le);
              if rebuilt.Some? then
                && items' == rebuilt.value && alert == Some(CreatedAlert)
                && form' == TeamForm("", []) && store.State() == Close(old(store.State()))
              else
                items' == items && form' == form && alert == Some(CreateErrorAlert)
                && store.State() == old(store.State())
    ensures request.Some? && request.value.PutTeam? && reply.ReplyOk? ==>
              && items' == ItemsAfterUpdate(items, request.value.teamId, reply.name)
              && alert == Some(UpdatedAlert)
              && form' == TeamForm("", form.members) && store.State() == Close(old(store.State()))
  {
    var teamId := TeamIdOf(store.payload);
    request := RequestFor(form, teamId);
    form', items' := form, items;
    if request.None? {
      alert := Some(EmptyNameAlert);
      return;
    }
    var creating := request.value.PostTeam?;
    match reply
    case FetchThrew =>
      alert := Some(if creating then CreateErrorAlert else UpdateErrorAlert);
    case ReplyError(message) =>
      alert := Some(if Truthy(message) then message.value else if creating then CreateErrorAlert else UpdateErrorAlert);
    case ReplyOk(id, name) =>
      if creating {
        var rebuilt := ItemsAfterCreate(items, CreatedTeam(id, name), le);
        if rebuilt.None? {
          alert := Some(CreateErrorAlert);
        } else {
          items' := rebuilt.value;
          alert := Some(CreatedAlert);
          form' := CloseCreateModal(form, store);
        }
      } else {
        items' := ItemsAfterUpdate(items, request.value.teamId, name);
        alert := Some(UpdatedAlert);
        form' := CloseCreateModal(form, store);
      }
  }
}
