/** The navigation sidebar (types/Sidebar.ts, components/Navigation/SideBar.tsx):
    its items, the rebuild after the teams are fetched, the active/expandable
    tests, and what a click on a sub-item does. */
module Sidebar {
  import opened Js
  import opened Types
  import opened ModalStore

  /** The closures a sub-item's `action` can hold, named by what they do when called. */
  datatype Action =
    | HandleModal               // SideBar's `handleModal(id, type)`
    | OpenTeam(teamId: Field)   // CreateTeamModal's `() => openModal("team", { teamId })`
    | SignInAlert               // the initial store's `() => alert(...)`

  /** A sub-item; `kind` is the optional `type` field. */
  datatype SubItem = SubItem(name: string, href: Option<string>, id: Option<string>,
                             kind: Option<string>, action: Option<Action>)

  /** A sidebar entry; the icon is presentation and left out. */
  datatype Item = Item(name: string, href: string, subItems: Option<seq<SubItem>>)

  /** What clicking produces: a navigation, a modal-store `openModal`, an alert, or nothing. */
  datatype Effect =
    | Navigate(url: string)
    | OpenModalEffect(kind: Option<ModalKind>, payload: Payload)
    | AlertEffect(message: string)
    | NoEffect

  const ProjectsName := "Proyectos"
  const TeamsName := "Equipos"
  const CreateTeamName := "Crear Equipo"

  /** The items the app store starts with (store/appStore.ts); note the lower-case
      "Crear equipo" of its placeholder sub-item. */
  const InitialItems: seq<Item> := [
    Item("Inicio", "/dashboard", None),
    Item(ProjectsName, "/projects", None),
    Item(TeamsName, "/teams", Some([SubItem("Crear equipo", None, Some("new"), Some("team"), Some(SignInAlert))])),
    Item("Configuración", "/settings", None)
  ]

  /** `items.find(item => item.name === name)`, as the index of the first match. */
  function FindItem(items: seq<Item>, name: string): (r: Option<nat>)
    ensures r.None? ==> forall i :: 0 <= i < |items| ==> items[i].name != name
    ensures r.Some? ==> r.value < |items| && items[r.value].name == name
    ensures r.Some? ==> forall i :: 0 <= i < r.value ==> items[i].name != name
  {
    if items == [] then None
    else if items[0].name == name then Some(0)
    else match FindItem(items[1..], name)
      case None => None
      case Some(k) => Some(k + 1)
  }

  // ---------------------------------------------------------------------------
  // The rebuild in `fetchTeams`

  function ProjectLink(p: ProjectRef): SubItem {
    SubItem(p.title, Some("/projects/" + p.id), None, None, None)
  }

  function ProjectLinks(ps: seq<ProjectRef>): (r: seq<SubItem>)
    ensures |r| == |ps|
    ensures forall i :: 0 <= i < |ps| ==> r[i] == ProjectLink(ps[i])
  {
    if ps == [] then [] else [ProjectLink(ps[0])] + ProjectLinks(ps[1..])
  }

  /** `data.map(team => team.projects?.map(...)).flat()` */
  function ProjectSubItems(teams: seq<Team>): seq<SubItem> {
    if teams == [] then [] else ProjectLinks(teams[0].projects) + ProjectSubItems(teams[1..])
  }

  /** Flattening distributes over concatenation: the projects come in team order. */
  lemma {:induction false} ProjectSubItemsAppend(a: seq<Team>, b: seq<Team>)
    ensures ProjectSubItems(a + b) == ProjectSubItems(a) + ProjectSubItems(b)
  {
    if a == [] {
      assert a + b == b;
    } else {
      assert (a + b)[1..] == a[1..] + b;
      ProjectSubItemsAppend(a[1..], b);
    }
  }

  /** A sub-item is a project link iff it links a project of one of the teams. */
  lemma {:induction false} ProjectSubItemsMembers(teams: seq<Team>, s: SubItem)
    ensures s in ProjectSubItems(teams) <==>
            exists t, p :: t in teams && p in t.projects && s == ProjectLink(p)
  {
    if teams != [] {
      ProjectSubItemsMembers(teams[1..], s);
      var head := ProjectLinks(teams[0].projects);
      if s in head {
        var i :| 0 <= i < |head| && head[i] == s;
        assert teams[0] in teams && teams[0].projects[i] in teams[0].projects;
      }
      if exists t, p :: t in teams && p in t.projects && s == ProjectLink(p) {
        var t, p :| t in teams && p in t.projects && s == ProjectLink(p);
        if t == teams[0] {
          var i :| 0 <= i < |t.projects| && t.projects[i] == p;
          assert head[i] == s;
        } else {
          assert t in teams[1..];
        }
      }
    }
  }

  /** The entry `fetchTeams` makes for a fetched team. */
  function TeamEntry(t: Team): SubItem {
    SubItem(t.name, None, Some(t.id), Some("team"), Some(HandleModal))
  }

  /** The trailing "Crear Equipo" entry of the rebuild in `fetchTeams`. */
  const CreateTeamEntry := SubItem(CreateTeamName, None, Some("new"), Some("team"), Some(HandleModal))

  function TeamEntries(teams: seq<Team>): (r: seq<SubItem>)
    ensures |r| == |teams|
    ensures forall i :: 0 <= i < |teams| ==> r[i] == TeamEntry(teams[i])
  {
    if teams == [] then [] else [TeamEntry(teams[0])] + TeamEntries(teams[1..])
  }

  function RebuildItem(item: Item, teams: seq<Team>): Item {
    if item.name == ProjectsName then item.(subItems := Some(ProjectSubItems(teams)))
    else if item.name == TeamsName then item.(subItems := Some(TeamEntries(teams) + [CreateTeamEntry]))
    else item
  }

  /** `newSidebarItems` of `fetchTeams`. */
  function RebuildAfterFetch(items: seq<Item>, teams: seq<Team>): (r: seq<Item>)
    ensures |r| == |items|
    ensures forall i :: 0 <= i < |items| ==> r[i] == RebuildItem(items[i], teams)
  {
    if items == [] then [] else [RebuildItem(items[0], teams)] + RebuildAfterFetch(items[1..], teams)
  }

  /** What the rebuild does to each item: names, hrefs and order stay; "Proyectos"
      gets every project link, "Equipos" one entry per team in fetch order and a
      final "Crear Equipo" entry with id "new"; every other item is unchanged. */
  lemma RebuildAfterFetchShape(items: seq<Item>, teams: seq<Team>, i: int)
    requires 0 <= i < |items|
    ensures |RebuildAfterFetch(items, teams)| == |items|
    ensures RebuildAfterFetch(items, teams)[i].name == items[i].name
    ensures RebuildAfterFetch(items, teams)[i].href == items[i].href
    ensures items[i].name == ProjectsName ==>
              RebuildAfterFetch(items, teams)[i].subItems == Some(ProjectSubItems(teams))
    ensures items[i].name == TeamsName ==>
              var subs := RebuildAfterFetch(items, teams)[i].subItems;
              && subs.Some? && |subs.value| == |teams| + 1
              && (forall j :: 0 <= j < |teams| ==> subs.value[j] == TeamEntry(teams[j]))
              && subs.value[|teams|] == CreateTeamEntry
    ensures items[i].name != ProjectsName && items[i].name != TeamsName ==>
              RebuildAfterFetch(items, teams)[i] == items[i]
  {
  }

  // ---------------------------------------------------------------------------
  // `isActive`, `haveSubItems`

  /** `subItems.some(sub => sub.href === path)` */
  function SomeHrefIs(subs: seq<SubItem>, path: string): (b: bool)
    ensures b <==> exists j :: 0 <= j < |subs| && subs[j].href == Some(path)
  {
    if subs == [] then false
    else if subs[0].href == Some(path) then true
    else
      var b := SomeHrefIs(subs[1..], path);
      assert b ==> exists j :: 0 <= j < |subs| && subs[j].href == Some(path) by {
        if b {
          var j :| 0 <= j < |subs[1..]| && subs[1..][j].href == Some(path);
          assert subs[j + 1] == subs[1..][j];
        }
      }
      assert (exists j :: 0 <= j < |subs| && subs[j].href == Some(path)) ==> b by {
        if exists j :: 0 <= j < |subs| && subs[j].href == Some(path) {
          var j :| 0 <= j < |subs| && subs[j].href == Some(path);
          assert subs[1..][j - 1] == subs[j];
        }
      }
      b
  }

  /** `isActive`: the path is the item's own href or the href of one of its sub-items. */
  predicate IsActive(item: Item, path: string) {
    path == item.href || (item.subItems.Some? && SomeHrefIs(item.subItems.value, path))
  }

  lemma IsActiveIff(item: Item, path: string)
    ensures IsActive(item, path) <==>
            || path == item.href
            || (item.subItems.Some? && exists s :: s in item.subItems.value && s.href == Some(path))
  {
    if item.subItems.Some? && exists s :: s in item.subItems.value && s.href == Some(path) {
      var s :| s in item.subItems.value && s.href == Some(path);
      var j :| 0 <= j < |item.subItems.value| && item.subItems.value[j] == s;
    }
  }

  /** `haveSubItems` */
  predicate HaveSubItems(item: Item) {
    item.subItems.Some? && |item.subItems.value| > 0
  }

  // ---------------------------------------------------------------------------
  // `handleModal`, `teamTrigger` and the sub-item click

  /** `teamTrigger(id)`: `openModal("team", { teamId })`, id "new" meaning a new team. */
  function TeamTrigger(id: string): (e: Effect)
    ensures e.OpenModalEffect? && e.kind == Some(TeamModal) && e.payload.projectId == Undefined
    ensures id == "new" <==> e.payload.teamId == Null
    ensures id != "new" ==> e.payload.teamId == Str(id)
  {
    OpenModalEffect(Some(TeamModal), Payload(if id == "new" then Null else Str(id), Undefined))
  }

  /** `handleModal(id, type)`: only type "team" does anything. */
  function HandleModalCall(id: string, kind: string): (e: Effect)
    ensures kind == "team" ==> e == TeamTrigger(id)
    ensures kind != "team" ==> e == NoEffect
  {
    if kind == "team" then TeamTrigger(id) else NoEffect
  }

  function RunAction(a: Action, id: string, kind: string): Effect {
    match a
    case HandleModal => HandleModalCall(id, kind)
    case OpenTeam(teamId) => OpenModalEffect(Some(TeamModal), Payload(teamId, Undefined))
    case SignInAlert => AlertEffect("Primero debes iniciar sesión")
  }

  /** The sub-item button's `onClick`. */
  function Click(s: SubItem): Effect {
    if Truthy(s.href) then Navigate(s.href.value)
    else if s.action.Some? && Truthy(s.id) then
      RunAction(s.action.value, s.id.value, if Truthy(s.kind) then s.kind.value else "team")
    else NoEffect
  }

  /** The dispatch: a non-empty href wins over the action; the action runs only with a
      non-empty id, and a missing or empty type counts as "team". */
  lemma ClickDispatch(s: SubItem)
    ensures Truthy(s.href) ==> Click(s) == Navigate(s.href.value)
    ensures !Truthy(s.href) && (s.action.None? || !Truthy(s.id)) ==> Click(s) == NoEffect
    ensures !Truthy(s.href) && s.action == Some(HandleModal) && Truthy(s.id) && !Truthy(s.kind) ==>
              Click(s) == TeamTrigger(s.id.value)
  {
  }

  /** Clicking a team entry built by the rebuild opens that team; clicking the
      trailing entry opens the form for a new team. */
  lemma ClickRebuiltTeamEntries(t: Team)
    requires t.id != "" && t.id != "new"
    ensures Click(TeamEntry(t)) == OpenModalEffect(Some(TeamModal), Payload(Str(t.id), Undefined))
    ensures Click(CreateTeamEntry) == OpenModalEffect(Some(TeamModal), Payload(Null, Undefined))
  {
  }
}
