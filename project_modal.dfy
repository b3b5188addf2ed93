/** The project form (components/modals/CreateProjectModal.tsx): the name check, the
    "Proyectos" prepend after a create, the team options offered, and
    `closeCreateModal`. */
module ProjectModal {
  import opened Js
  import opened Types
  import opened ModalStore
  import opened Sidebar

  /** The form's own state: the name input, the selected team id, and whether
      project details were loaded (`projectInfo !== null`). */
  datatype ProjectForm = ProjectForm(projectName: string, teamId: string, hasInfo: bool)

  datatype ProjectRequest = PostProject(title: string, teamId: string)

  /** What a submit does before any reply: alert, send, or nothing (the update branch is empty). */
  datatype SubmitStep = AlertStep(message: string) | Send(request: ProjectRequest) | Idle

  const EmptyNameAlert := "El nombre del proyecto no puede estar vacío"

  function SubmitStepFor(form: ProjectForm, projectId: Field): SubmitStep {
    if Trim(form.projectName) == "" then AlertStep(EmptyNameAlert)
    else if FieldTruthy(projectId) then Idle
    else Send(PostProject(form.projectName, form.teamId))
  }

  /** A blank name alerts and sends nothing; with a truthy `projectId` nothing is
      sent either; otherwise the typed name and selected team are sent. */
  lemma SubmitStepForGuard(form: ProjectForm, projectId: Field)
    ensures SubmitStepFor(form, projectId).AlertStep? <==> Blank(form.projectName)
    ensures SubmitStepFor(form, projectId).Send? <==> !Blank(form.projectName) && !FieldTruthy(projectId)
    ensures SubmitStepFor(form, projectId).Send? ==>
              SubmitStepFor(form, projectId).request == PostProject(form.projectName, form.teamId)
  {
    TrimEmptyIffBlank(form.projectName);
  }

  // ---------------------------------------------------------------------------
  // The prepend after a create

  /** `subItems: item.subItems && [entry, ...item.subItems]` on "Proyectos". */
  function PrependToProjects(item: Item, entry: SubItem): Item {
    if item.name == ProjectsName then
      item.(subItems := if item.subItems.Some? then Some([entry] + item.subItems.value) else None)
    else item
  }

  function ItemsAfterCreate(items: seq<Item>, name: string, id: string): (r: seq<Item>)
    ensures |r| == |items|
    ensures forall i :: 0 <= i < |items| ==> r[i] == PrependToProjects(items[i], ProjectLink(ProjectRef(id, name)))
  {
    if items == [] then []
    else [PrependToProjects(items[0], ProjectLink(ProjectRef(id, name)))] + ItemsAfterCreate(items[1..], name, id)
  }

  /** Only "Proyectos" items change: a defined sub-item list gains the new link in
      front, an undefined one stays undefined. */
  lemma ItemsAfterCreateShape(items: seq<Item>, name: string, id: string, i: int)
    requires 0 <= i < |items|
    ensures var r := ItemsAfterCreate(items, name, id);
            && (items[i].name != ProjectsName ==> r[i] == items[i])
            && r[i].name == items[i].name && r[i].href == items[i].href
            && (items[i].subItems.None? ==> r[i].subItems.None?)
            && (items[i].name == ProjectsName && items[i].subItems.Some? ==>
                  && r[i].subItems.Some?
                  && r[i].subItems.value[0] == SubItem(name, Some("/projects/" + id), None, None, None)
                  && r[i].subItems.value[1..] == items[i].subItems.value)
  {
  }

  // ---------------------------------------------------------------------------
  // The team options

  datatype TeamOption = TeamOption(id: Option<string>, name: string)

  /** `subItems.map(item => item.name !== "Crear Equipo" ? { id, name } : null).filter(Boolean)` */
  function OptionsOf(subs: seq<SubItem>): seq<TeamOption> {
    if subs == [] then []
    else if subs[0].name != CreateTeamName then [TeamOption(subs[0].id, subs[0].name)] + OptionsOf(subs[1..])
    else OptionsOf(subs[1..])
  }

  /** The options of the first "Equipos" item; `None` when there is none or it has
      no sub-items. */
  function TeamOptions(items: seq<Item>): Option<seq<TeamOption>> {
    match FindItem(items, TeamsName)
    case None => None
    case Some(k) => if items[k].subItems.Some? then Some(OptionsOf(items[k].subItems.value)) else None
  }

  /** The options keep sub-item order: `OptionsOf` distributes over concatenation. */
  lemma {:induction false} OptionsOfAppend(a: seq<SubItem>, b: seq<SubItem>)
    ensures OptionsOf(a + b) == OptionsOf(a) + OptionsOf(b)
  {
    if a == [] {
      assert a + b == b;
    } else {
      assert (a + b)[1..] == a[1..] + b;
      OptionsOfAppend(a[1..], b);
    }
  }

  /** An option is offered iff some sub-item not named exactly "Crear Equipo" has its id and name. */
  lemma {:induction false} OptionsOfMembers(subs: seq<SubItem>, o: TeamOption)
    ensures o in OptionsOf(subs) <==>
            exists s :: s in subs && s.name != CreateTeamName && o == TeamOption(s.id, s.name)
  {
    if subs != [] {
      OptionsOfMembers(subs[1..], o);
      assert subs == [subs[0]] + subs[1..];
    }
  }

  /** The exclusion is case-sensitive: the store's initial "Crear equipo" placeholder
      is offered as a team. */
  lemma InitialTeamOptions()
    ensures TeamOptions(InitialItems) == Some([TeamOption(Some("new"), "Crear equipo")])
  {
    assert InitialItems[1..][1..] == InitialItems[2..];
    assert FindItem(InitialItems[2..], TeamsName) == Some(0);
    assert FindItem(InitialItems[1..], TeamsName) == Some(1);
    assert FindItem(InitialItems, TeamsName) == Some(2);
    var subs := InitialItems[2].subItems.value;
    assert subs[0].name != CreateTeamName by {
      assert subs[0].name[6] == 'e' && CreateTeamName[6] == 'E';
    }
    assert subs[1..] == [];
    assert OptionsOf(subs[1..]) == [];
    assert OptionsOf(subs) == [TeamOption(subs[0].id, subs[0].name)];
  }

  lemma {:induction false} OptionsOfTeamEntries(teams: seq<Team>)
    requires forall t :: t in teams ==> t.name != CreateTeamName
    ensures |OptionsOf(TeamEntries(teams))| == |teams|
    ensures forall j :: 0 <= j < |teams| ==>
              OptionsOf(TeamEntries(teams))[j] == TeamOption(Some(teams[j].id), teams[j].name)
  {
    if teams != [] {
      OptionsOfTeamEntries(teams[1..]);
      assert TeamEntries(teams)[1..] == TeamEntries(teams[1..]);
      assert teams[0] in teams;
    }
  }

  /** After the sidebar is rebuilt from the fetched teams, the options are exactly
      those teams, in fetch order (when none is itself named "Crear Equipo"). */
  lemma TeamOptionsAfterFetch(items: seq<Item>, teams: seq<Team>)
    requires exists i :: 0 <= i < |items| && items[i].name == TeamsName
    requires forall t :: t in teams ==> t.name != CreateTeamName
    ensures var opts := TeamOptions(RebuildAfterFetch(items, teams));
            && opts.Some? && |opts.value| == |teams|
            && forall j :: 0 <= j < |teams| ==> opts.value[j] == TeamOption(Some(teams[j].id), teams[j].name)
  {
    var r := RebuildAfterFetch(items, teams);
    var k := FindItem(items, TeamsName).value;
    assert FindItem(r, TeamsName) == FindItem(items, TeamsName) by {
      FindItemSameNames(items, r, TeamsName);
    }
    OptionsOfAppend(TeamEntries(teams), [CreateTeamEntry]);
    OptionsOfTeamEntries(teams);
    assert OptionsOf([CreateTeamEntry]) == [] by {
      assert [CreateTeamEntry][1..] == [];
    }
  }

  /** `find` by name only looks at names. */
  lemma {:induction false} FindItemSameNames(a: seq<Item>, b: seq<Item>, name: string)
    requires |a| == |b| && forall i :: 0 <= i < |a| ==> a[i].name == b[i].name
    ensures FindItem(a, name) == FindItem(b, name)
  {
    if a != [] {
      FindItemSameNames(a[1..], b[1..], name);
    }
  }

  // ---------------------------------------------------------------------------
  // Handlers

  /** `closeCreateModal()`: clears the name and the loaded details and closes the modal. */
  method CloseCreateModal(form: ProjectForm, store: Store) returns (form': ProjectForm)
    modifies store
    ensures store.State() == Close(old(store.State()))
    ensures form' == form.(projectName := "", hasInfo := false)
  {
    form' := form.(projectName := "", hasInfo := false);
    store.CloseModal();
  }

  /** `handleCreateProject`, with the reply given (`Some(id)` for a 2xx reply carrying
      the new project's id, `None` for another status or a thrown fetch): the step
      taken, the new sidebar and form, and the path navigated to. */
  method HandleSubmit(form: ProjectForm, items: seq<Item>, reply: Option<string>, store: Store)
    returns (step: SubmitStep, items': seq<Item>, form': ProjectForm, navigate: Option<string>)
    modifies store
    ensures step == SubmitStepFor(form, ProjectIdOf(old(store.payload)))
    ensures !step.Send? || reply.None? ==>
              items' == items && form' == form && navigate.None? && store.State() == old(store.State())
    ensures step.Send? && reply.Some? ==>
              && items' == ItemsAfterCreate(items, form.projectName, reply.value)
              && form' == form.(projectName := "", hasInfo := false)
              && navigate == Some("/projects/" + reply.value)
              && store.State() == Close(old(store.State()))
  {
    step := SubmitStepFor(form, ProjectIdOf(store.payload));
    items', form', navigate := items, form, None;
    if step.Send? && reply.Some? {
      items' := ItemsAfterCreate(items, form.projectName, reply.value);
      form' := CloseCreateModal(form, store);
      navigate := Some("/projects/" + reply.value);
    }
  }
}
