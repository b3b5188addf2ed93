/** POST /api/tasks (app/api/tasks/route.ts): the guard cascade, the default status
    and the assignee default. */
module TasksRoute {
  import opened Js
  import opened Api

  /** The schema's task statuses; this route only ever creates TO_DO. */
  datatype TaskStatus = BACKLOG | TO_DO | IN_PROGRESS | DONE

  datatype TaskBody = TaskBody(title: Option<string>, projectId: Option<string>, assignedId: Option<string>)

  datatype TaskRecord = TaskRecord(id: string, title: string, projectId: string,
                                   status: TaskStatus, assignedToId: Option<string>)

  /** `assignedId || null` */
  function AssigneeOf(assignedId: Option<string>): (r: Option<string>)
    ensures r.Some? <==> Truthy(assignedId)
    ensures r.Some? ==> r == assignedId
  {
    if Truthy(assignedId) then assignedId else None
  }

  /** `project` is found and `project.team.members.some(m => m.userId === userId)`;
      `projects` maps each project id to its team's member user ids. */
  predicate MayAddTasks(projects: map<string, seq<string>>, projectId: string, userId: string) {
    projectId in projects && userId in projects[projectId]
  }

  /** `created` is the id the store assigns, or `None` when `task.create` throws. */
  function Post(session: Option<Session>, body: TaskBody, projects: map<string, seq<string>>,
                created: Option<string>): Reply<TaskRecord> {
    if !SignedIn(session) then Failure(401, "Unauthorized")
    else if !Truthy(body.title) || !Truthy(body.projectId) then Failure(400, "Title and project ID are required")
    else if !MayAddTasks(projects, body.projectId.value, Caller(session).id) then
      Failure(403, "Not authorized to add tasks to this project")
    else if created.None? then Failure(500, "Failed to create task")
    else Success(201, TaskRecord(created.value, body.title.value, body.projectId.value, TO_DO, AssigneeOf(body.assignedId)))
  }

  /** The cascade 401, 400, 403, 500, 201; a missing project answers 403 like a
      non-member, never 404. */
  lemma PostCascade(session: Option<Session>, body: TaskBody, projects: map<string, seq<string>>, created: Option<string>)
    ensures var r := Post(session, body, projects, created);
            && (r.status == 401 <==> !SignedIn(session))
            && (r.status == 400 <==> SignedIn(session) && (!Truthy(body.title) || !Truthy(body.projectId)))
            && (r.status == 403 <==>
                  SignedIn(session) && Truthy(body.title) && Truthy(body.projectId)
                  && (body.projectId.value !in projects || Caller(session).id !in projects[body.projectId.value]))
            && (r.status == 500 <==>
                  SignedIn(session) && Truthy(body.title) && Truthy(body.projectId)
                  && MayAddTasks(projects, body.projectId.value, Caller(session).id) && created.None?)
            && (r.Success? <==>
                  SignedIn(session) && Truthy(body.title) && Truthy(body.projectId)
                  && MayAddTasks(projects, body.projectId.value, Caller(session).id) && created.Some?)
            && (r.Success? <==> r.status == 201)
            && r.status != 404
  {
  }

  /** A created task is always TO_DO, carries the given title and project, and is
      assigned to `assignedId` when that is non-empty and to nobody otherwise. */
  lemma CreatedTask(session: Option<Session>, body: TaskBody, projects: map<string, seq<string>>, created: Option<string>)
    requires Post(session, body, projects, created).Success?
    ensures var t := Post(session, body, projects, created).body;
            && t.status == TO_DO
            && t.title == body.title.value && t.projectId == body.projectId.value
            && t.id == created.value
            && (Truthy(body.assignedId) ==> t.assignedToId == body.assignedId)
            && (!Truthy(body.assignedId) ==> t.assignedToId.None?)
  {
  }
}
