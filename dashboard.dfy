/** The dashboard page (app/dashboard/page.tsx): the team and project forms and
    their updates of the teams list, and the invite dialog's open/close. */
module Dashboard {
  import opened Js
  import opened Types

  /** The team an invitation dialog is opened for. */
  datatype TeamRef = TeamRef(id: string, name: string)

  /** The page's state hooks (the loading flag and the session status are left out). */
  datatype Page = Page(teams: seq<Team>, newTeamName: string, newProjectName: string,
                       selectedTeamId: string, inviteOpen: bool, selectedTeam: Option<TeamRef>)

  // ---------------------------------------------------------------------------
  // `handleCreateTeam`

  /** The name sent to POST /api/teams, or `None` when the guard returns early. */
  function CreateTeamRequest(p: Page): Option<string> {
    if Trim(p.newTeamName) == "" then None else Some(p.newTeamName)
  }

  /** The page after the create, given the parsed reply (`None` for a non-2xx status or
      a thrown fetch). */
  function AfterCreateTeam(p: Page, reply: Option<Team>): Page {
    if CreateTeamRequest(p).Some? && reply.Some? then
      p.(teams := p.teams + [reply.value], newTeamName := "")
    else p
  }

  /** A blank name sends nothing; otherwise the typed name is sent as is. */
  lemma CreateTeamGuard(p: Page)
    ensures CreateTeamRequest(p).None? <==> Blank(p.newTeamName)
    ensures CreateTeamRequest(p).Some? ==> CreateTeamRequest(p).value == p.newTeamName
  {
    TrimEmptyIffBlank(p.newTeamName);
  }

  /** On success the new team goes at the end, the existing teams stay as they were,
      the name input clears and nothing else changes; on failure nothing changes. */
  lemma AfterCreateTeamAppends(p: Page, reply: Option<Team>)
    ensures var q := AfterCreateTeam(p, reply);
            if !Blank(p.newTeamName) && reply.Some? then
              && |q.teams| == |p.teams| + 1
              && q.teams[..|p.teams|] == p.teams
              && q.teams[|p.teams|] == reply.value
              && q == p.(teams := q.teams, newTeamName := "")
            else q == p
  {
    CreateTeamGuard(p);
    if !Blank(p.newTeamName) && reply.Some? {
      assert (p.teams + [reply.value])[..|p.teams|] == p.teams;
    }
  }

  // ---------------------------------------------------------------------------
  // `handleCreateProject`

  datatype ProjectRequest = ProjectRequest(title: string, teamId: string)

  function CreateProjectRequest(p: Page): Option<ProjectRequest> {
    if Trim(p.newProjectName) == "" || p.selectedTeamId == "" then None
    else Some(ProjectRequest(p.newProjectName, p.selectedTeamId))
  }

  /** `teams.map(team => team.id === teamId ? { ...team, projects: [...team.projects, project] } : team)` */
  function AppendProject(teams: seq<Team>, teamId: string, project: ProjectRef): (r: seq<Team>)
    ensures |r| == |teams|
    ensures forall i :: 0 <= i < |teams| ==>
              r[i] == if teams[i].id == teamId then teams[i].(projects := teams[i].projects + [project]) else teams[i]
  {
    if teams == [] then []
    else [if teams[0].id == teamId then teams[0].(projects := teams[0].projects + [project]) else teams[0]]
         + AppendProject(teams[1..], teamId, project)
  }

  function AfterCreateProject(p: Page, reply: Option<ProjectRef>): Page {
    if CreateProjectRequest(p).Some? && reply.Some? then
      p.(teams := AppendProject(p.teams, p.selectedTeamId, reply.value),
         newProjectName := "", selectedTeamId := "")
    else p
  }

  /** A request goes out iff the name is not blank and a team is selected. */
  lemma CreateProjectGuard(p: Page)
    ensures CreateProjectRequest(p).Some? <==> !Blank(p.newProjectName) && p.selectedTeamId != ""
    ensures CreateProjectRequest(p).Some? ==>
              CreateProjectRequest(p).value == ProjectRequest(p.newProjectName, p.selectedTeamId)
  {
    TrimEmptyIffBlank(p.newProjectName);
  }

  /** On success only the selected team gains the project, at the end of its list;
      every team keeps its id and name, the others are unchanged, and both inputs
      reset to "". */
  lemma AfterCreateProjectUpdates(p: Page, reply: Option<ProjectRef>)
    ensures var q := AfterCreateProject(p, reply);
            if !Blank(p.newProjectName) && p.selectedTeamId != "" && reply.Some? then
              && |q.teams| == |p.teams|
              && (forall i :: 0 <= i < |p.teams| && p.teams[i].id != p.selectedTeamId ==> q.teams[i] == p.teams[i])
              && (forall i :: 0 <= i < |p.teams| && p.teams[i].id == p.selectedTeamId ==>
                    && q.teams[i].id == p.teams[i].id && q.teams[i].name == p.teams[i].name
                    && q.teams[i].projects == p.teams[i].projects + [reply.value])
              && q.newProjectName == "" && q.selectedTeamId == ""
              && q == p.(teams := q.teams, newProjectName := "", selectedTeamId := "")
            else q == p
  {
    CreateProjectGuard(p);
  }

  /** When no team has the selected id, the list is unchanged (the inputs still reset). */
  lemma AppendProjectToUnknownTeam(teams: seq<Team>, teamId: string, project: ProjectRef)
    requires forall t :: t in teams ==> t.id != teamId
    ensures AppendProject(teams, teamId, project) == teams
  {
    var r := AppendProject(teams, teamId, project);
    forall i | 0 <= i < |teams| ensures r[i] == teams[i] {
      assert teams[i] in teams;
    }
  }

  // ---------------------------------------------------------------------------
  // The invite dialog

  function OpenInvite(p: Page, team: TeamRef): Page {
    p.(selectedTeam := Some(team), inviteOpen := true)
  }

  function CloseInvite(p: Page): Page {
    p.(selectedTeam := None, inviteOpen := false)
  }

  /** Opening sets both the team and the flag; closing clears both; the teams list
      and the inputs are untouched, and opening then closing is the same as closing. */
  lemma InviteOpenClose(p: Page, team: TeamRef)
    ensures OpenInvite(p, team).inviteOpen && OpenInvite(p, team).selectedTeam == Some(team)
    ensures !CloseInvite(p).inviteOpen && CloseInvite(p).selectedTeam.None?
    ensures OpenInvite(p, team).teams == p.teams && CloseInvite(p).teams == p.teams
    ensures CloseInvite(OpenInvite(p, team)) == CloseInvite(p)
    ensures CloseInvite(p) == p.(selectedTeam := None, inviteOpen := false)
  {
  }
}
