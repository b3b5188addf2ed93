# TaskKy core logic in Dafny

This project models the logic inside a Next.js task-board application ("TaskKy"):

- **E-mail validator.** The regular expression that accepts invitee addresses.
- **Team member list.** Editing the list in the team form: an upsert keyed by e-mail, and removal by e-mail.
- **Sidebar transforms.** The rebuild after the teams are fetched; the "Equipos" rebuild after a team is created; the rename after an update; the "Proyectos" prepend after a project is created; the team options of the project form.
- **Modal store.** Which modal is shown, whether it is open, and the payload it was opened with.
- **Dashboard.** Its team and project forms.
- **API routes.** The guard cascades of the handlers for teams, projects, tasks and invitations, with their defaults, the hex invitation token and the seven-day expiry.

One Dafny module per source file:

| module | file(s) | models |
|---|---|---|
| `Js` | `js.dfy` | JavaScript values: `Option`, truthiness of optional strings, and `String.prototype.trim` over the ECMAScript whitespace set. That set is also what the regex class `\s` matches. |
| `Types` | `types.dfy` | The shared records: `User`, `Member`, `Role`, `Team`, `ProjectRef`. |
| `Email` | `email.dfy` | `utils/email.ts` |
| `TeamMembers` | `team_members.dfy` | The member-list upsert and removal of `components/modals/CreateTeamModal.tsx`. |
| `ListMembers` | `list_members.dfy` | `components/list/ListMembers.tsx` |
| `ModalStore` | `modal_store.dfy` | `store/modalStore.ts`. A `class Store` whose methods overwrite its fields, specified by the pure functions `Open` and `Close`. |
| `Sidebar` | `sidebar.dfy` | `components/Navigation/SideBar.tsx`, the sidebar item types, and the app store's initial items. |
| `TeamModal` | `team_modal.dfy` | The rest of `components/modals/CreateTeamModal.tsx`. |
| `ProjectModal` | `project_modal.dfy` | `components/modals/CreateProjectModal.tsx` |
| `Dashboard` | `dashboard.dfy` | `app/dashboard/page.tsx` |
| `Api` | `api.dfy` | The session, the reply, and the `UserTeam` membership row shared by the routes. |
| `TeamsRoute`, `ProjectsRoute`, `TasksRoute`, `InvitationsRoute` | `*_route.dfy` | `app/api/{teams,projects,tasks,invitations}/route.ts` |
| `Hex` | `hex.dfy` | `Buffer.toString("hex")` for the invitation token, with its decoding. |

Everything the handlers get from outside is a parameter:

- the session;
- the membership rows, teams and projects held by the database;
- the id the database assigns to a created row;
- whether a create or notify call throws;
- the current date;
- the random token bytes;
- the reply of a `fetch`;
- the locale comparator.

A handler returns what it produced: the reply, the rows written, the notification attempted, the new sidebar, and the alert shown.

The order `localeCompare(a, b, "es", { sensitivity: "base" })` is a comparator parameter `le`. The lemmas require only that it is a total preorder.

`HaveSubItems` in `Sidebar` is defined directly as "sub-items present and non-empty". Its expression is the property, so it has no row of its own.

## Model

| member | source | states |
|---|---|---|
| Email.IsValidEmailMatchesRegex | utils/email.ts:1-4 | `isValidEmail(s)` holds iff s is a non-empty run of `[^\s@]`, then '@', then a non-empty run, then '.', then a non-empty run. |
| Email.ValidMatchesRegex | utils/email.ts:1 | Every accepted address splits into such a local part, host and top-level part. |
| Email.RegexMatchIsValid | utils/email.ts:1 | Every string of that shape is accepted. |
| Email.ValidHasOneAt | utils/email.ts:1 | An accepted address contains exactly one '@'. |
| Email.ValidHasNoSpaceAndNonEmptyLocalPart | utils/email.ts:1 | An accepted address has no whitespace character and does not start with '@', so it is non-empty. |
| Email.RejectedExamples | utils/email.ts:1 | "", "a@b" and "a@.b" are rejected. |
| Email.AcceptedExample | utils/email.ts:1 | "a@b.c.d" is accepted: the domain may hold several dots. |
| Js.TrimEmptyIffBlank | components/modals/CreateTeamModal.tsx:27 | `s.trim()` is empty iff every character of s is whitespace. All the blank-name guards rely on this. |
| ModalStore.OpenForgetsPriorState | store/modalStore.ts:21-24 | `openModal(t, p)` leaves type t, isOpen true and payload p, whatever the prior state. |
| ModalStore.CloseKeepsPayloadAndIsIdempotent | store/modalStore.ts:25 | `closeModal` sets type null and isOpen false, keeps the payload, and applied twice equals applied once. |
| ModalStore.OpenWithNullKind | store/modalStore.ts:21-24 | `openModal(null, p)` leaves isOpen true with a null type, so "isOpen iff type is set" is not an invariant. |
| ModalStore.Store.constructor | store/modalStore.ts:18-20 | The store starts with type null, isOpen false and no payload. |
| ModalStore.Store.OpenModal | store/modalStore.ts:21-24 | After both writes, the fields are the `Open` state: the given type, open, and the given payload. |
| ModalStore.Store.CloseModal | store/modalStore.ts:25 | The fields become the `Close` state: no type, closed, and the payload unchanged. |
| TeamMembers.FindByEmail | components/modals/CreateTeamModal.tsx:200 | `find` by e-mail returns the first index with that e-mail, and nothing iff no member has it. |
| TeamMembers.ReplaceByEmail | components/modals/CreateTeamModal.tsx:205 | Same length; each entry with that e-mail becomes the new member and the others stay. |
| TeamMembers.AddNewEmailAppends | components/modals/CreateTeamModal.tsx:199-212 | Adding an e-mail not in the list appends the member at the end, with no alert. |
| TeamMembers.AddKnownEmail | components/modals/CreateTeamModal.tsx:199-212 | In a list with unique e-mails, a known e-mail with another role replaces exactly that entry in place. With the same role the list is unchanged and "already invited" is alerted. |
| TeamMembers.AddKeepsEmailsUnique | components/modals/CreateTeamModal.tsx:199-212 | If e-mails are unique before an add, they are unique after it, and the added e-mail is present. |
| TeamMembers.RemoveMemberMembers | components/modals/CreateTeamModal.tsx:214-217 | A member survives removal iff it was in the list and has another e-mail. |
| TeamMembers.RemoveMemberAppend | components/modals/CreateTeamModal.tsx:214-217 | Removal distributes over concatenation, so the kept members stay in their original order. |
| TeamMembers.RemoveAbsentEmail | components/modals/CreateTeamModal.tsx:214-217 | Removing an e-mail nobody has leaves the list unchanged. |
| TeamMembers.RemoveUndoesAdd | components/modals/CreateTeamModal.tsx:199-217 | Removing the e-mail of a member just added as new gives back the original list. |
| TeamMembers.RemoveKeepsEmailsUnique | components/modals/CreateTeamModal.tsx:214-217 | Removal preserves e-mail uniqueness. |
| ListMembers.LocalPart | components/list/ListMembers.tsx:43 | `split("@")[0]` is the longest prefix without '@': it ends at the end of the string or at an '@'. |
| ListMembers.LocalPartOfValidEmail | components/list/ListMembers.tsx:43 | For an accepted address, the name is non-empty, and the address is the name, then '@', then the rest. |
| ListMembers.HandleAddMemberGuards | components/list/ListMembers.tsx:27-36 | An empty e-mail alerts "El email no puede estar vacío". An e-mail failing `isValidEmail` alerts "El email no es válido". Both leave the input as it was and build no member. A member is built only for an accepted address, and only then is the input cleared. |
| ListMembers.BuiltMember | components/list/ListMembers.tsx:38-50 | A built member has the entered e-mail, the non-empty part before its first '@' as name, and the selected role. |
| ListMembers.HandleRemoveMember | components/list/ListMembers.tsx:54-59 | The callback is invoked iff it is given, and it receives exactly the member's e-mail. |
| ListMembers.ChangeRoleReplacesEntry | components/list/ListMembers.tsx:75-79 | A role change of a listed member, sent through `onAddMember` into the team form's upsert, replaces exactly that entry. The handler is passed to `MemberItem`, which never calls it, so no UI path reaches this change. |
| ListMembers.AddedMemberIsAppended | components/list/ListMembers.tsx:38-50 | An accepted, not yet listed e-mail is appended to the team form's list. |
| Sidebar.ProjectLinks | components/Navigation/SideBar.tsx:46-49 | Each project becomes `{ name: title, href: "/projects/" + id }`, in order. |
| Sidebar.ProjectSubItemsAppend | components/Navigation/SideBar.tsx:44-53 | The flattened project links distribute over concatenation of teams, so they come in team order. |
| Sidebar.ProjectSubItemsMembers | components/Navigation/SideBar.tsx:44-53 | A sub-item is a project link iff it is the link of a project of one of the teams. |
| Sidebar.TeamEntries | components/Navigation/SideBar.tsx:63-68 | One entry per fetched team, in fetch order: its name, its id, type "team", and the `handleModal` action. |
| Sidebar.RebuildAfterFetch | components/Navigation/SideBar.tsx:55-79 | Same length; every item is rebuilt by its name. |
| Sidebar.RebuildAfterFetchShape | components/Navigation/SideBar.tsx:55-79 | Names, hrefs and order are kept. "Proyectos" gets every project link. "Equipos" gets one entry per team, then a final "Crear Equipo" entry with id "new". Every other item is unchanged. |
| Sidebar.SomeHrefIs | components/Navigation/SideBar.tsx:128 | `some(sub => sub.href === path)` holds iff some sub-item's href is path. |
| Sidebar.IsActiveIff | components/Navigation/SideBar.tsx:126-128 | An item is active iff path is its href or the href of one of its sub-items. |
| Sidebar.TeamTrigger | components/Navigation/SideBar.tsx:105-107 | Always opens the team modal. Id "new" maps to a null teamId; any other id is passed through unchanged. |
| Sidebar.HandleModalCall | components/Navigation/SideBar.tsx:93-103 | Type "team" triggers the team modal; every other type does nothing. |
| Sidebar.ClickDispatch | components/Navigation/SideBar.tsx:171-180 | A non-empty href navigates and wins over the action. The action runs only with both an action and a non-empty id. A missing or empty type counts as "team". |
| Sidebar.ClickRebuiltTeamEntries | components/Navigation/SideBar.tsx:59-75 | Clicking a rebuilt team entry opens the form on that team. Clicking the trailing entry opens it for a new team. |
| TeamModal.InsertByNamePermutes | components/modals/CreateTeamModal.tsx:69-71 | Inserting into the sorted prefix adds exactly that element. |
| TeamModal.InsertByNameSorted | components/modals/CreateTeamModal.tsx:69-71 | Under a total preorder, insertion keeps the entries ordered by name. |
| TeamModal.SortByNameCorrect | components/modals/CreateTeamModal.tsx:69-71 | The sort by name yields a name-ordered permutation of its input. |
| TeamModal.WithoutCreateEntries | components/modals/CreateTeamModal.tsx:59-61 | An entry is kept iff its name is not exactly "Crear Equipo". |
| TeamModal.WithoutCreateEntriesAppend | components/modals/CreateTeamModal.tsx:59-61 | The filter works entry by entry and keeps order and multiplicity: a single entry is kept iff its name is not exactly "Crear Equipo", and filtering distributes over concatenation. |
| TeamModal.ReplaceTeamsSubItems | components/modals/CreateTeamModal.tsx:79-89 | Same length; every "Equipos" item gets the new sub-items and every other item is unchanged. |
| TeamModal.SortedTeamEntriesShape | components/modals/CreateTeamModal.tsx:55-71 | The entries before the sentinel are name-ordered and a permutation (as a multiset) of the new team's entry plus the earlier entries not named "Crear Equipo". |
| TeamModal.ItemsAfterCreateShape | components/modals/CreateTeamModal.tsx:55-89 | After a create, each "Equipos" item holds those sorted entries, then exactly one "Crear Equipo" entry with id "new". The sorted entries are a permutation (as a multiset) of the new team's entry plus the earlier entries not named "Crear Equipo". Every other item is unchanged. |
| TeamModal.ItemsAfterCreateNeedsTeamsItem | components/modals/CreateTeamModal.tsx:55-59 | Without an "Equipos" item the rebuild throws, and the sidebar is not replaced. |
| TeamModal.CreateFilterIsExactName | components/modals/CreateTeamModal.tsx:59-61 | The filter matches the exact name. The initial placeholder "Crear equipo" is kept, and an entry named "Crear Equipo" is dropped. |
| TeamModal.RenameSubItems | components/modals/CreateTeamModal.tsx:126-134 | Same length; only the sub-items whose id is teamId get the new name. |
| TeamModal.ItemsAfterUpdate | components/modals/CreateTeamModal.tsx:122-138 | Same length; every item is renamed item-wise. |
| TeamModal.ItemsAfterUpdateChangesOnlyThatTeam | components/modals/CreateTeamModal.tsx:122-138 | Only "Equipos" sub-items whose id is teamId change, and only in their name. Every other item and sub-item is unchanged. |
| TeamModal.Invites | components/modals/CreateTeamModal.tsx:41-44 | The POST body lists each member's e-mail and role, in order. |
| TeamModal.RoleUpdates | components/modals/CreateTeamModal.tsx:112-115 | The PUT body lists each member's userId and role, in order. |
| TeamModal.RequestForGuard | components/modals/CreateTeamModal.tsx:25-46 | A blank or whitespace-only name sends nothing. Otherwise a truthy teamId sends an update of that team and anything else sends a create. Both carry the typed name and one entry per member. |
| TeamModal.SeedOnOpen | components/modals/CreateTeamModal.tsx:154-174 | The form is seeded iff there is no truthy teamId, the modal type is "team" and the session is authenticated. The seed is an empty name and a single member: the user, as OWNER. |
| TeamModal.CloseCreateModal | components/modals/CreateTeamModal.tsx:190-197 | Clears the name and closes the modal. The member list is emptied only when no team was being edited. |
| TeamModal.HandleSubmit | components/modals/CreateTeamModal.tsx:25-152 | See the summary after the table. |
| ProjectModal.SubmitStepForGuard | components/modals/CreateProjectModal.tsx:28-46 | A blank name alerts and sends nothing. A truthy projectId sends nothing. Otherwise the request carries the typed name as title and the selected team. |
| ProjectModal.ItemsAfterCreate | components/modals/CreateProjectModal.tsx:51-62 | Same length; each item gets the prepend of the new project link. |
| ProjectModal.ItemsAfterCreateShape | components/modals/CreateProjectModal.tsx:51-62 | Only "Proyectos" changes. Defined sub-items gain `{ name, href: "/projects/" + id }` in front; undefined ones stay undefined. Names and hrefs are kept. |
| ProjectModal.OptionsOfAppend | components/modals/CreateProjectModal.tsx:111-119 | The options distribute over concatenation, so sub-item order is kept. |
| ProjectModal.OptionsOfMembers | components/modals/CreateProjectModal.tsx:111-119 | An option is offered iff some sub-item not named exactly "Crear Equipo" has that id and name. |
| ProjectModal.InitialTeamOptions | components/modals/CreateProjectModal.tsx:111-119 | With the initial sidebar, the lower-case "Crear equipo" placeholder is offered as a team. |
| ProjectModal.OptionsOfTeamEntries | components/modals/CreateProjectModal.tsx:111-119 | Over fetched team entries, the options are `{ id, name }` of each team, in order. |
| ProjectModal.TeamOptionsAfterFetch | components/modals/CreateProjectModal.tsx:111-119 | After the sidebar is rebuilt from fetched teams, the options are exactly those teams in fetch order, provided none is named "Crear Equipo". |
| ProjectModal.CloseCreateModal | components/modals/CreateProjectModal.tsx:101-105 | Clears the name and the loaded details, and closes the modal. |
| ProjectModal.HandleSubmit | components/modals/CreateProjectModal.tsx:28-77 | Takes the step of the guard. On a successful create: prepends the project, closes the form, and navigates to "/projects/" + id. Otherwise nothing changes. |
| Dashboard.CreateTeamGuard | app/dashboard/page.tsx:62-71 | A blank or whitespace-only name sends nothing; otherwise the typed name is sent. |
| Dashboard.AfterCreateTeamAppends | app/dashboard/page.tsx:73-77 | On success the new team is appended at the end, earlier teams are unchanged, and the name input clears. On failure nothing changes. |
| Dashboard.CreateProjectGuard | app/dashboard/page.tsx:83-92 | A request goes out iff the name is not blank and a team is selected. |
| Dashboard.AppendProject | app/dashboard/page.tsx:96-100 | Same length; the project is appended to teams with the selected id, and the others are unchanged. |
| Dashboard.AfterCreateProjectUpdates | app/dashboard/page.tsx:94-104 | On success only the selected team gains the project, at the end; ids and names are kept, and both inputs reset to "". Otherwise nothing changes. |
| Dashboard.AppendProjectToUnknownTeam | app/dashboard/page.tsx:96-100 | When no team has the selected id, the list is unchanged. |
| Dashboard.InviteOpenClose | app/dashboard/page.tsx:111-119 | Opening sets both the team and the open flag. Closing clears both. Opening then closing equals closing. |
| TeamsRoute.GetCascade | app/api/teams/route.ts:8-30 | 401 iff there is no session or user. Otherwise 200 with the teams of the caller's rows. |
| TeamsRoute.TeamsOfMembers | app/api/teams/route.ts:18-29 | A team is listed iff a row of the caller holds it. |
| TeamsRoute.TeamsOfAppend | app/api/teams/route.ts:18-29 | The listing distributes over concatenation of rows, so it follows row order. |
| TeamsRoute.TeamsOfOwnRows | app/api/teams/route.ts:18-29 | Over the caller's rows, there is exactly one team per row, in row order. |
| TeamsRoute.PostCascade | app/api/teams/route.ts:32-59 | 401 before 400 ("Name is required") before 201. A failure writes nothing. A success writes exactly one row: the caller as OWNER of a team with the given name. |
| TeamsRoute.PostIgnoresMembers | app/api/teams/route.ts:41 | Bodies with the same name give the same reply and rows, so `members` is ignored. |
| TeamsRoute.PostThenGet | app/api/teams/route.ts:46-56 | After a create, the creator's listing is the old one plus the new team with no projects. |
| ProjectsRoute.PostCascade | app/api/projects/route.ts:5-37 | 401 without a user. 400 when title or teamId is missing. 403 without a (caller, team) row. Otherwise 201, which happens exactly when the caller is signed in, both fields are present and the row exists. The created project has exactly the given title and teamId. |
| ProjectsRoute.NonMemberCreatesNothing | app/api/projects/route.ts:19-27 | A caller with no row for the team never gets a success. |
| TasksRoute.AssigneeOf | app/api/tasks/route.ts:52 | `assignedId \|\| null`: the assignee is present iff assignedId is non-empty, and then it equals assignedId. |
| TasksRoute.PostCascade | app/api/tasks/route.ts:11-62 | Statuses are checked in the order 401, 400, 403, 500, 201. A missing project answers 403, like a non-member, and the reply is never 404. The reply is 201 exactly when the caller is signed in, both fields are present, the caller is a member of the project's team and the create succeeds. |
| TasksRoute.CreatedTask | app/api/tasks/route.ts:46-55 | A created task is TO_DO, carries the given title and project, and is assigned to a non-empty assignedId or to nobody. |
| Hex.Encode | app/api/invitations/route.ts:77 | Two characters per byte, all from [0-9a-f]. |
| Hex.DecodeEncode | app/api/invitations/route.ts:77 | Decoding the token gives back the bytes. |
| Hex.EncodeDecode | app/api/invitations/route.ts:77 | Every decodable string is the encoding of what it decodes to. |
| Hex.EncodeInjective | app/api/invitations/route.ts:77 | Distinct bytes give distinct tokens. |
| Hex.TokenShape | app/api/invitations/route.ts:77 | 32 random bytes give 64 lower-case hex digits. |
| InvitationsRoute.VisibleOfMembers | app/api/invitations/route.ts:25-33 | Listed iff stored, for that e-mail, PENDING, and expiring strictly after now. |
| InvitationsRoute.VisibleOfAppend | app/api/invitations/route.ts:25-34 | The listing keeps store order. |
| InvitationsRoute.GetFilter | app/api/invitations/route.ts:15-37 | 401 without a user or e-mail. Otherwise exactly the caller's pending, unexpired invitations. |
| InvitationsRoute.PostCascade | app/api/invitations/route.ts:39-112 | See the summary after the table. |
| InvitationsRoute.MissingTeamIsForbidden | app/api/invitations/route.ts:58-73 | A request for a team that does not exist gets 403. |
| InvitationsRoute.CreatedInvitation | app/api/invitations/route.ts:75-104 | See the summary after the table. |
| InvitationsRoute.SentInvitationIsListedUntilExpiry | app/api/invitations/route.ts:78-88 | A sent invitation is listed for its address at every instant before its expiry, and not at the expiry itself. |

`TeamModal.HandleSubmit` covers the following (components/modals/CreateTeamModal.tsx:25-152):

- The request sent is the one `RequestForGuard` describes.
- A blank name alerts.
- Errors and thrown fetches change nothing.
- An error reply alerts its `message` when that is non-empty and the default text otherwise. A thrown fetch alerts the default text.
- A created team rebuilds the sidebar, closes the form and clears the members.
- A created team with no "Equipos" item alerts an error instead.
- An update renames the team's entry and closes the form, keeping the members.

`InvitationsRoute.PostCascade` states (app/api/invitations/route.ts:39-112):

- Statuses are checked in the order 401, 400, 403.
- The owner check fails for a missing team, so the reply is never 404.
- The reply is 500 iff the caller passes the owner check and then the create or the notification fails.
- The reply is 201 iff the create and the notification both succeed.
- An invitation is stored and a notification attempted iff the create succeeds.

`InvitationsRoute.CreatedInvitation` states what a created invitation looks like (app/api/invitations/route.ts:75-104):

- It is appended to the store, even when the notification then fails.
- It has the given e-mail and team, and status PENDING.
- It expires 7 calendar days later, at the same time of day.
- Its token decodes to the random bytes; 32 bytes give 64 hex digits.
- The notification goes to channel "user-" + e-mail, with the team name and the token.

## Left out

- Rendering is not modelled: JSX, class strings, icons and the accordion. `haveSubItems` and `isActive` are modelled as predicates only.
- Api.SessionUser: the model takes `session.user.id` to be a string on every signed-in session, as the routes' `as string` reads it. The NextAuth session callback in app/api/auth/[...nextauth]/route.ts does not add an `id`, and that configuration is not part of this model.
- Asynchronous interleavings are not modelled: React state scheduling, `useEffect` timing, loading flags and session status transitions. Each handler is modelled as one step over the state it reads.
- Foreign code becomes parameters:
  - `fetch` replies, Prisma queries and creates, and `getServerSession`;
  - `pusher.trigger`, whose success is a boolean;
  - `crypto.randomBytes`, which becomes a byte sequence;
  - `Date`, which becomes a day number and a time of day.
  The socket relay and `console` output are not modelled.
- `localeCompare` with the Spanish collation: only its total-preorder property is used. The model does not claim that the engine's sort is stable.
- TeamModal.SortByName: the in-place `Array.prototype.sort` and the following `push` are modelled on values. The result is specified up to the comparator's ties, not as the engine's exact permutation.
- InvitationsRoute.AddDays: the in-place `setDate(getDate() + 7)` is modelled as a value seven calendar days later, at the same time of day. Month rollover is covered because days are counted absolutely. Time zones and daylight saving are not modelled.
- InvitationsRoute.Post: the invitation status PENDING is the database default; the schema is not part of this model. `console.log(pusher)` is not modelled. The success reply wraps the invitation with a constant `message` ("Invitation sent successfully"); the model replies with the invitation alone.
- TeamsRoute.Post and ProjectsRoute.Post: these handlers have no `try`/`catch`. A database failure there is the framework's error reply and is not modelled.
- Request bodies are JSON whose fields are read as `Option<string>`. Non-string JSON values such as numbers and booleans are not modelled. Truthiness is "present and non-empty".
- ListMembers.BuildMember: the two `Date.now()` calls are one value `now`, so `userId` and `user.id` are equal in the model. In the source they may differ by a millisecond.
- TeamModal.HandleSubmit:
  - The optional `newTeam.message` alert after a successful create is not modelled.
  - The parsing of the error body is not modelled: the reply's `message` is given as a parameter.
- Dashboard.AfterCreateTeam: the created team is appended as returned by the reply. `POST /api/teams` returns a team without a `projects` field, so the page's next render, which reads `team.projects.length`, throws. Rendering is not modelled, so the model does not show this crash.
- ListMembers.ChangeRoleReplacesEntry: `MemberItem` accepts only `member` and `onRemoveMember`, and its role select has no change handler, so the UI never invokes `onChangeRole`. The lemma states what the handler would do if it were called.
- The project form's load effect is not modelled. This covers `fetchProjectInfo` and the reset that runs on modal type "team".
- The team form's `fetchTeamInfo` is not modelled.
- `isValidEmail` has no state, since its regular expression has no `g` flag. A Dafny predicate is deterministic, so repeated calls agree by construction and no lemma is stated.
