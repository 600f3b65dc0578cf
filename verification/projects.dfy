/** The project-management commands (commands/project.rs): projects,
    milestones, sprints, tasks and task dependencies, each table a map from id
    to row (dependencies a set of pairs). Every command returns the new tables
    and its result. Fresh ids, the clock and the directory checks are
    parameters; deletions carry out the schema's `ON DELETE` rules. */
module Projects {
  import opened Base
  import opened Text
  import Errors

  datatype Project = Project(
    id: string,
    name: string,
    description: Option<string>,
    rootPath: string,
    previewUrl: Option<string>,
    createdAt: string,
    updatedAt: string)

  datatype Milestone = Milestone(
    id: string,
    projectId: string,
    name: string,
    description: Option<string>,
    targetDate: Option<string>,
    status: string,
    sortOrder: int,
    createdAt: string,
    updatedAt: string)

  datatype Sprint = Sprint(
    id: string,
    projectId: string,
    milestoneId: Option<string>,
    name: string,
    description: Option<string>,
    startDate: Option<string>,
    endDate: Option<string>,
    status: string,
    createdAt: string,
    updatedAt: string)

  /** Estimated hours are an `f64` that is only stored and returned. */
  datatype Task = Task(
    id: string,
    projectId: string,
    sprintId: Option<string>,
    title: string,
    description: Option<string>,
    status: string,
    priority: string,
    estimatedHours: Option<real>,
    createdAt: string,
    updatedAt: string)

  datatype Tables = Tables(
    projects: map<string, Project>,
    milestones: map<string, Milestone>,
    sprints: map<string, Sprint>,
    tasks: map<string, Task>,
    dependencies: set<(string, string)>)

  /** A command's effect on the tables and what it returns. */
  datatype Reply<+T> = Reply(tables: Tables, result: Result<T, Errors.AppError>)

  const MilestoneStatuses: set<string> := {"planned", "in_progress", "completed"}
  const SprintStatuses: set<string> := {"planned", "active", "completed"}
  const TaskStatuses: set<string> := {"todo", "in_progress", "done"}
  const Priorities: set<string> := {"low", "medium", "high"}

  // ---------------------------------------------------------------------
  // The partial-update merge
  // ---------------------------------------------------------------------

  /** A required field: the request's value if given, else the current one (`unwrap_or`). */
  function Merge<T>(request: Option<T>, current: T): (r: T)
    ensures request.Some? ==> r == request.value
    ensures request.None? ==> r == current
  {
    request.GetOr(current)
  }

  /** An optional field: the request's value if given, else the current one (`or`). */
  function MergeOptional<T>(request: Option<T>, current: Option<T>): (r: Option<T>)
    ensures request.Some? ==> r == request
    ensures request.None? ==> r == current
  {
    request.Or(current)
  }

  /** An update can set an optional field but never clear it: the merged
      value is absent only when both the request and the row leave it absent. */
  lemma MergeNeverClears<T>(request: Option<T>, current: Option<T>)
    ensures MergeOptional(request, current).None? <==> request.None? && current.None?
  {
  }

  // ---------------------------------------------------------------------
  // Deletion with the schema's ON DELETE rules
  // ---------------------------------------------------------------------

  /** Delete tasks; their dependency pairs, in either role, go with them. */
  function DropTasks(t: Tables, ids: set<string>): (r: Tables)
    ensures r.tasks.Keys == t.tasks.Keys - ids
    ensures forall k :: k in r.tasks ==> r.tasks[k] == t.tasks[k]
    ensures forall p :: p in r.dependencies <==> p in t.dependencies && p.0 !in ids && p.1 !in ids
    ensures r.projects == t.projects && r.milestones == t.milestones && r.sprints == t.sprints
  {
    t.(tasks := map k | k in t.tasks && k !in ids :: t.tasks[k],
       dependencies := set p | p in t.dependencies && p.0 !in ids && p.1 !in ids)
  }

  /** Delete sprints; tasks that were in one of them move to the backlog (`SET NULL`). */
  function DropSprints(t: Tables, ids: set<string>): (r: Tables)
    ensures r.sprints.Keys == t.sprints.Keys - ids
    ensures forall k :: k in r.sprints ==> r.sprints[k] == t.sprints[k]
    ensures r.tasks.Keys == t.tasks.Keys
    ensures forall k :: k in r.tasks ==>
      r.tasks[k] == (if t.tasks[k].sprintId.Some? && t.tasks[k].sprintId.value in ids
                     then t.tasks[k].(sprintId := None) else t.tasks[k])
    ensures r.projects == t.projects && r.milestones == t.milestones && r.dependencies == t.dependencies
  {
    t.(sprints := map k | k in t.sprints && k !in ids :: t.sprints[k],
       tasks := map k | k in t.tasks ::
         if t.tasks[k].sprintId.Some? && t.tasks[k].sprintId.value in ids
         then t.tasks[k].(sprintId := None) else t.tasks[k])
  }

  /** Delete milestones; sprints that belonged to one of them lose the link (`SET NULL`). */
  function DropMilestones(t: Tables, ids: set<string>): (r: Tables)
    ensures r.milestones.Keys == t.milestones.Keys - ids
    ensures forall k :: k in r.milestones ==> r.milestones[k] == t.milestones[k]
    ensures r.sprints.Keys == t.sprints.Keys
    ensures forall k :: k in r.sprints ==>
      r.sprints[k] == (if t.sprints[k].milestoneId.Some? && t.sprints[k].milestoneId.value in ids
                       then t.sprints[k].(milestoneId := None) else t.sprints[k])
    ensures r.projects == t.projects && r.tasks == t.tasks && r.dependencies == t.dependencies
  {
    t.(milestones := map k | k in t.milestones && k !in ids :: t.milestones[k],
       sprints := map k | k in t.sprints ::
         if t.sprints[k].milestoneId.Some? && t.sprints[k].milestoneId.value in ids
         then t.sprints[k].(milestoneId := None) else t.sprints[k])
  }

  // ---------------------------------------------------------------------
  // Projects
  // ---------------------------------------------------------------------

  datatype ProjectCreateRequest = ProjectCreateRequest(
    name: string, description: Option<string>, rootPath: string, previewUrl: Option<string>)

  /** `project_create`: name, then absolute path, then existence. */
  function ProjectCreate(t: Tables, req: ProjectCreateRequest, dir: DirFacts, id: string, now: string)
    : (r: Reply<Project>)
    ensures Trim(req.name) == [] ==> r == Reply(t, Err(Errors.InvalidInputError("Project name cannot be empty")))
    ensures Trim(req.name) != [] && !dir.isAbsolute ==>
      r == Reply(t, Err(Errors.InvalidInputError("Root path must be an absolute path")))
    ensures Trim(req.name) != [] && dir.isAbsolute && !dir.present ==>
      r == Reply(t, Err(Errors.DirectoryNotFoundError(req.rootPath)))
    ensures r.result.Ok? <==> Trim(req.name) != [] && dir.isAbsolute && dir.present && id !in t.projects
    ensures r.result.Err? ==> r.tables == t
    ensures r.result.Ok? ==>
      && r.result.value == Project(id, req.name, req.description, req.rootPath, req.previewUrl, now, now)
      && r.tables == t.(projects := t.projects[id := r.result.value])
  {
    if Trim(req.name) == [] then
      Reply(t, Err(Errors.InvalidInputError("Project name cannot be empty")))
    else if !dir.isAbsolute then
      Reply(t, Err(Errors.InvalidInputError("Root path must be an absolute path")))
    else if !dir.present then
      Reply(t, Err(Errors.DirectoryNotFoundError(req.rootPath)))
    else if id in t.projects then
      Reply(t, Err(Errors.UniqueViolation("projects.id")))
    else
      var p := Project(id, req.name, req.description, req.rootPath, req.previewUrl, now, now);
      Reply(t.(projects := t.projects[id := p]), Ok(p))
  }

  /** `project_get`. */
  function ProjectGet(t: Tables, projectId: string): (r: Result<Project, Errors.AppError>)
    ensures r.Err? <==> projectId !in t.projects
    ensures r.Err? ==> r.error == Errors.DatabaseNotFoundError("Project", projectId)
    ensures r.Ok? ==> r.value == t.projects[projectId]
  {
    if projectId in t.projects then Ok(t.projects[projectId])
    else Err(Errors.DatabaseNotFoundError("Project", projectId))
  }

  datatype ProjectUpdateRequest = ProjectUpdateRequest(
    name: Option<string>, description: Option<string>, rootPath: Option<string>, previewUrl: Option<string>)

  /** `project_update`: merge, then validate only the merged name; the root
      path is taken as given, without the checks `project_create` makes. */
  function ProjectUpdate(t: Tables, projectId: string, req: ProjectUpdateRequest, now: string)
    : (r: Reply<Project>)
    ensures projectId !in t.projects ==> r == Reply(t, Err(Errors.DatabaseNotFoundError("Project", projectId)))
    ensures r.result.Err? ==> r.tables == t
    ensures r.result.Ok? <==> projectId in t.projects && Trim(Merge(req.name, t.projects[projectId].name)) != []
    ensures r.result.Ok? ==>
      var cur := t.projects[projectId];
      && r.result.value.id == projectId && r.result.value.createdAt == cur.createdAt
      && r.result.value.updatedAt == now
      && r.result.value.name == Merge(req.name, cur.name)
      && r.result.value.description == MergeOptional(req.description, cur.description)
      && r.result.value.rootPath == Merge(req.rootPath, cur.rootPath)
      && r.result.value.previewUrl == MergeOptional(req.previewUrl, cur.previewUrl)
      && r.tables == t.(projects := t.projects[projectId := r.result.value])
  {
    if projectId !in t.projects then
      Reply(t, Err(Errors.DatabaseNotFoundError("Project", projectId)))
    else
      var cur := t.projects[projectId];
      var merged := cur.(id := projectId,
                         name := Merge(req.name, cur.name),
                         description := MergeOptional(req.description, cur.description),
                         rootPath := Merge(req.rootPath, cur.rootPath),
                         previewUrl := MergeOptional(req.previewUrl, cur.previewUrl),
                         updatedAt := now);
      if Trim(merged.name) == [] then
        Reply(t, Err(Errors.InvalidInputError("Project name cannot be empty")))
      else
        Reply(t.(projects := t.projects[projectId := merged]), Ok(merged))
  }

  /** The ids of the rows of one project, per table. */
  function ProjectTasks(t: Tables, projectId: string): set<string> {
    set k | k in t.tasks && t.tasks[k].projectId == projectId
  }

  function ProjectSprints(t: Tables, projectId: string): set<string> {
    set k | k in t.sprints && t.sprints[k].projectId == projectId
  }

  function ProjectMilestones(t: Tables, projectId: string): set<string> {
    set k | k in t.milestones && t.milestones[k].projectId == projectId
  }

  /** `project_delete`: the project's milestones, sprints and tasks go with it
      (`ON DELETE CASCADE`), and with them their links and dependency pairs. */
  function ProjectDelete(t: Tables, projectId: string): (r: Reply<()>)
    ensures r.result.Ok? <==> projectId in t.projects
    ensures r.result.Err? ==> r == Reply(t, Err(Errors.DatabaseNotFoundError("Project", projectId)))
  {
    if projectId !in t.projects then
      Reply(t, Err(Errors.DatabaseNotFoundError("Project", projectId)))
    else
      var r := DropMilestones(DropSprints(DropTasks(t, ProjectTasks(t, projectId)), ProjectSprints(t, projectId)),
                              ProjectMilestones(t, projectId));
      Reply(r.(projects := r.projects - {projectId}), Ok(()))
  }

  /** After a project is deleted no row of it is left, and the rows of the
      other projects are all still there. */
  lemma ProjectDeleteCascades(t: Tables, projectId: string)
    requires projectId in t.projects
    ensures var r := ProjectDelete(t, projectId).tables;
            && r.projects.Keys == t.projects.Keys - {projectId}
            && r.milestones.Keys == t.milestones.Keys - ProjectMilestones(t, projectId)
            && r.sprints.Keys == t.sprints.Keys - ProjectSprints(t, projectId)
            && r.tasks.Keys == t.tasks.Keys - ProjectTasks(t, projectId)
            && (forall k :: k in r.milestones ==> r.milestones[k] == t.milestones[k])
            && (forall p :: p in r.dependencies ==> p.0 !in ProjectTasks(t, projectId) && p.1 !in ProjectTasks(t, projectId))
  {
  }

  /** What survives a project delete is unchanged except for links into the
      deleted rows: every dependency pair between surviving tasks is kept,
      a sprint of the deleted project's milestone loses that link, and a
      task in one of its sprints moves to the backlog. */
  lemma ProjectDeleteKeepsOthers(t: Tables, projectId: string)
    requires projectId in t.projects
    ensures var r := ProjectDelete(t, projectId).tables;
            && (forall k :: k in r.projects ==> r.projects[k] == t.projects[k])
            && (forall p :: p in r.dependencies <==>
                  p in t.dependencies && p.0 !in ProjectTasks(t, projectId) && p.1 !in ProjectTasks(t, projectId))
            && (forall k :: k in r.sprints ==>
                  r.sprints[k] == (if t.sprints[k].milestoneId.Some?
                                      && t.sprints[k].milestoneId.value in ProjectMilestones(t, projectId)
                                   then t.sprints[k].(milestoneId := None) else t.sprints[k]))
            && (forall k :: k in r.tasks ==>
                  r.tasks[k] == (if t.tasks[k].sprintId.Some? && t.tasks[k].sprintId.value in ProjectSprints(t, projectId)
                                 then t.tasks[k].(sprintId := None) else t.tasks[k]))
  {
  }

  // ---------------------------------------------------------------------
  // Milestones
  // ---------------------------------------------------------------------

  /** `SELECT MAX(sort_order) FROM milestones WHERE project_id = ?`. */
  method MaxSortOrder(ms: map<string, Milestone>, projectId: string) returns (m: Option<int>)
    ensures m.None? <==> forall k :: k in ms ==> ms[k].projectId != projectId
    ensures m.Some? ==> exists k :: k in ms && ms[k].projectId == projectId && ms[k].sortOrder == m.value
    ensures m.Some? ==> forall k :: k in ms && ms[k].projectId == projectId ==> ms[k].sortOrder <= m.value
  {
    m := None;
    var todo := ms.Keys;
    while todo != {}
      invariant todo <= ms.Keys
      invariant m.None? <==> forall k :: k in ms.Keys - todo ==> ms[k].projectId != projectId
      invariant m.Some? ==> exists k :: k in ms.Keys - todo && ms[k].projectId == projectId && ms[k].sortOrder == m.value
      invariant m.Some? ==> forall k :: k in ms.Keys - todo && ms[k].projectId == projectId ==> ms[k].sortOrder <= m.value
      decreases |todo|
    {
      var k :| k in todo;
      if ms[k].projectId == projectId && (m.None? || ms[k].sortOrder > m.value) {
        m := Some(ms[k].sortOrder);
      }
      todo := todo - {k};
    }
  }

  datatype MilestoneCreateRequest = MilestoneCreateRequest(
    projectId: string, name: string, description: Option<string>, targetDate: Option<string>)

  /** `milestone_create`: a new milestone is "planned" and goes after every
      milestone of its project (one past the largest sort order, or 1). */
  method MilestoneCreate(t: Tables, req: MilestoneCreateRequest, id: string, now: string) returns (r: Reply<Milestone>)
    ensures Trim(req.name) == [] ==> r == Reply(t, Err(Errors.InvalidInputError("Milestone name cannot be empty")))
    ensures r.result.Ok? <==> Trim(req.name) != [] && id !in t.milestones
    ensures r.result.Err? ==> r.tables == t
    ensures r.result.Ok? ==>
      var m := r.result.value;
      && m.id == id && m.projectId == req.projectId && m.name == req.name
      && m.description == req.description && m.targetDate == req.targetDate
      && m.status == "planned" && m.createdAt == now && m.updatedAt == now
      && r.tables == t.(milestones := t.milestones[id := m])
      && (forall k :: k in t.milestones && t.milestones[k].projectId == req.projectId ==>
            t.milestones[k].sortOrder < m.sortOrder)
      && ((forall k :: k in t.milestones ==> t.milestones[k].projectId != req.projectId) ==> m.sortOrder == 1)
      && ((exists k :: k in t.milestones && t.milestones[k].projectId == req.projectId) ==>
            exists k :: k in t.milestones && t.milestones[k].projectId == req.projectId
                        && t.milestones[k].sortOrder + 1 == m.sortOrder)
  {
    if Trim(req.name) == [] {
      return Reply(t, Err(Errors.InvalidInputError("Milestone name cannot be empty")));
    }
    var maxOrder := MaxSortOrder(t.milestones, req.projectId);
    var sortOrder := maxOrder.GetOr(0) + 1;
    if id in t.milestones {
      return Reply(t, Err(Errors.UniqueViolation("milestones.id")));
    }
    var m := Milestone(id, req.projectId, req.name, req.description, req.targetDate, "planned", sortOrder, now, now);
    r := Reply(t.(milestones := t.milestones[id := m]), Ok(m));
  }

  datatype MilestoneUpdateRequest = MilestoneUpdateRequest(
    name: Option<string>, description: Option<string>, targetDate: Option<string>, status: Option<string>)

  /** `milestone_update`: merge, then check only the merged status. */
  function MilestoneUpdate(t: Tables, milestoneId: string, req: MilestoneUpdateRequest, now: string)
    : (r: Reply<Milestone>)
    ensures milestoneId !in t.milestones ==>
      r == Reply(t, Err(Errors.DatabaseNotFoundError("Milestone", milestoneId)))
    ensures r.result.Err? ==> r.tables == t
    ensures r.result.Ok? <==>
      milestoneId in t.milestones && Merge(req.status, t.milestones[milestoneId].status) in MilestoneStatuses
    ensures milestoneId in t.milestones && Merge(req.status, t.milestones[milestoneId].status) !in MilestoneStatuses ==>
      r.result == Err(Errors.InvalidInputError("Invalid milestone status"))
    ensures r.result.Ok? ==>
      var cur := t.milestones[milestoneId];
      && r.result.value == cur.(id := milestoneId,
                                name := Merge(req.name, cur.name),
                                description := MergeOptional(req.description, cur.description),
                                targetDate := MergeOptional(req.targetDate, cur.targetDate),
                                status := Merge(req.status, cur.status),
                                updatedAt := now)
      && r.tables == t.(milestones := t.milestones[milestoneId := r.result.value])
  {
    if milestoneId !in t.milestones then
      Reply(t, Err(Errors.DatabaseNotFoundError("Milestone", milestoneId)))
    else
      var cur := t.milestones[milestoneId];
      var merged := cur.(id := milestoneId,
                         name := Merge(req.name, cur.name),
                         description := MergeOptional(req.description, cur.description),
                         targetDate := MergeOptional(req.targetDate, cur.targetDate),
                         status := Merge(req.status, cur.status),
                         updatedAt := now);
      if merged.status !in MilestoneStatuses then
        Reply(t, Err(Errors.InvalidInputError("Invalid milestone status")))
      else
        Reply(t.(milestones := t.milestones[milestoneId := merged]), Ok(merged))
  }

  /** `milestone_delete`. */
  function MilestoneDelete(t: Tables, milestoneId: string): (r: Reply<()>)
    ensures r.result.Ok? <==> milestoneId in t.milestones
    ensures r.result.Err? ==> r == Reply(t, Err(Errors.DatabaseNotFoundError("Milestone", milestoneId)))
    ensures r.result.Ok? ==> r.tables == DropMilestones(t, {milestoneId})
  {
    if milestoneId !in t.milestones then
      Reply(t, Err(Errors.DatabaseNotFoundError("Milestone", milestoneId)))
    else
      Reply(DropMilestones(t, {milestoneId}), Ok(()))
  }

  /** The position of the last occurrence of `x` in `s`. */
  function LastIndexOf(s: seq<string>, x: string): (r: Option<nat>)
    ensures r.Some? ==> r.value < |s| && s[r.value] == x
    ensures r.Some? ==> forall j :: r.value < j < |s| ==> s[j] != x
    ensures r.None? ==> forall j :: 0 <= j < |s| ==> s[j] != x
  {
    if s == [] then None
    else if s[|s| - 1] == x then Some(|s| - 1)
    else LastIndexOf(s[..|s| - 1], x)
  }

  /** One step of the reorder: the milestone `id`, if it exists, gets sort order `i`. */
  function SetSortOrder(ms: map<string, Milestone>, id: string, i: int): map<string, Milestone> {
    if id in ms then ms[id := ms[id].(sortOrder := i)] else ms
  }

  /** The updates of `milestone_reorder` for the ids in `ids`, in order. */
  function Reorder(ms: map<string, Milestone>, ids: seq<string>): (r: map<string, Milestone>)
    ensures r.Keys == ms.Keys
    decreases |ids|
  {
    if ids == [] then ms
    else SetSortOrder(Reorder(ms, ids[..|ids| - 1]), ids[|ids| - 1], |ids| - 1)
  }

  /** After a reorder, a listed milestone's sort order is the position of its
      last occurrence in the list; unlisted ones and every other field keep
      their values, and unknown ids are ignored. */
  lemma {:induction false} ReorderSpec(ms: map<string, Milestone>, ids: seq<string>)
    ensures forall k :: k in ms ==>
      Reorder(ms, ids)[k] == (if LastIndexOf(ids, k).Some? then ms[k].(sortOrder := LastIndexOf(ids, k).value)
                              else ms[k])
    decreases |ids|
  {
    if ids != [] {
      ReorderSpec(ms, ids[..|ids| - 1]);
    }
  }

  /** With distinct ids, the i-th listed milestone ends up with sort order i. */
  lemma ReorderDistinct(ms: map<string, Milestone>, ids: seq<string>, i: nat)
    requires forall a, b :: 0 <= a < b < |ids| ==> ids[a] != ids[b]
    requires i < |ids| && ids[i] in ms
    ensures Reorder(ms, ids)[ids[i]].sortOrder == i
  {
    ReorderSpec(ms, ids);
  }

  /** `milestone_reorder`: one update per listed id, in list order; it never fails. */
  method MilestoneReorder(t: Tables, ids: seq<string>) returns (r: Reply<()>)
    ensures r.result.Ok?
    ensures r.tables == t.(milestones := Reorder(t.milestones, ids))
  {
    var ms := t.milestones;
    var index := 0;
    while index < |ids|
      invariant 0 <= index <= |ids|
      invariant ms == Reorder(t.milestones, ids[..index])
    {
      assert ids[..index + 1][..index] == ids[..index];
      ms := SetSortOrder(ms, ids[index], index);
      index := index + 1;
    }
    assert ids[..|ids|] == ids;
    r := Reply(t.(milestones := ms), Ok(()));
  }

  // ---------------------------------------------------------------------
  // Sprints
  // ---------------------------------------------------------------------

  datatype SprintCreateRequest = SprintCreateRequest(
    projectId: string, milestoneId: Option<string>, name: string, description: Option<string>,
    startDate: Option<string>, endDate: Option<string>)

  /** `sprint_create`: a new sprint is "planned". */
  function SprintCreate(t: Tables, req: SprintCreateRequest, id: string, now: string): (r: Reply<Sprint>)
    ensures Trim(req.name) == [] ==> r == Reply(t, Err(Errors.InvalidInputError("Sprint name cannot be empty")))
    ensures r.result.Ok? <==> Trim(req.name) != [] && id !in t.sprints
    ensures r.result.Err? ==> r.tables == t
    ensures r.result.Ok? ==>
      && r.result.value == Sprint(id, req.projectId, req.milestoneId, req.name, req.description,
                                  req.startDate, req.endDate, "planned", now, now)
      && r.tables == t.(sprints := t.sprints[id := r.result.value])
  {
    if Trim(req.name) == [] then
      Reply(t, Err(Errors.InvalidInputError("Sprint name cannot be empty")))
    else if id in t.sprints then
      Reply(t, Err(Errors.UniqueViolation("sprints.id")))
    else
      var s := Sprint(id, req.projectId, req.milestoneId, req.name, req.description,
                      req.startDate, req.endDate, "planned", now, now);
      Reply(t.(sprints := t.sprints[id := s]), Ok(s))
  }

  datatype SprintUpdateRequest = SprintUpdateRequest(
    milestoneId: Option<string>, name: Option<string>, description: Option<string>,
    startDate: Option<string>, endDate: Option<string>, status: Option<string>)

  /** `sprint_update`: merge, then check only the merged status. */
  function SprintUpdate(t: Tables, sprintId: string, req: SprintUpdateRequest, now: string): (r: Reply<Sprint>)
    ensures sprintId !in t.sprints ==> r == Reply(t, Err(Errors.DatabaseNotFoundError("Sprint", sprintId)))
    ensures r.result.Err? ==> r.tables == t
    ensures r.result.Ok? <==> sprintId in t.sprints && Merge(req.status, t.sprints[sprintId].status) in SprintStatuses
    ensures sprintId in t.sprints && Merge(req.status, t.sprints[sprintId].status) !in SprintStatuses ==>
      r.result == Err(Errors.InvalidInputError("Invalid sprint status"))
    ensures r.result.Ok? ==>
      var cur := t.sprints[sprintId];
      && r.result.value == cur.(id := sprintId,
                                milestoneId := MergeOptional(req.milestoneId, cur.milestoneId),
                                name := Merge(req.name, cur.name),
                                description := MergeOptional(req.description, cur.description),
                                startDate := MergeOptional(req.startDate, cur.startDate),
                                endDate := MergeOptional(req.endDate, cur.endDate),
                                status := Merge(req.status, cur.status),
                                updatedAt := now)
      && r.tables == t.(sprints := t.sprints[sprintId := r.result.value])
  {
    if sprintId !in t.sprints then
      Reply(t, Err(Errors.DatabaseNotFoundError("Sprint", sprintId)))
    else
      var cur := t.sprints[sprintId];
      var merged := cur.(id := sprintId,
                         milestoneId := MergeOptional(req.milestoneId, cur.milestoneId),
                         name := Merge(req.name, cur.name),
                         description := MergeOptional(req.description, cur.description),
                         startDate := MergeOptional(req.startDate, cur.startDate),
                         endDate := MergeOptional(req.endDate, cur.endDate),
                         status := Merge(req.status, cur.status),
                         updatedAt := now);
      if merged.status !in SprintStatuses then
        Reply(t, Err(Errors.InvalidInputError("Invalid sprint status")))
      else
        Reply(t.(sprints := t.sprints[sprintId := merged]), Ok(merged))
  }

  /** `sprint_delete`. */
  function SprintDelete(t: Tables, sprintId: string): (r: Reply<()>)
    ensures r.result.Ok? <==> sprintId in t.sprints
    ensures r.result.Err? ==> r == Reply(t, Err(Errors.DatabaseNotFoundError("Sprint", sprintId)))
    ensures r.result.Ok? ==> r.tables == DropSprints(t, {sprintId})
  {
    if sprintId !in t.sprints then
      Reply(t, Err(Errors.DatabaseNotFoundError("Sprint", sprintId)))
    else
      Reply(DropSprints(t, {sprintId}), Ok(()))
  }

  // ---------------------------------------------------------------------
  // Tasks
  // ---------------------------------------------------------------------

  const DefaultPriority: string := "medium"

  datatype TaskCreateRequest = TaskCreateRequest(
    projectId: string, sprintId: Option<string>, title: string, description: Option<string>,
    priority: Option<string>, estimatedHours: Option<real>)

  /** `task_create`: title, then priority (default "medium"); a new task is "todo". */
  function TaskCreate(t: Tables, req: TaskCreateRequest, id: string, now: string): (r: Reply<Task>)
    ensures Trim(req.title) == [] ==> r == Reply(t, Err(Errors.InvalidInputError("Task title cannot be empty")))
    ensures Trim(req.title) != [] && Merge(req.priority, DefaultPriority) !in Priorities ==>
      r == Reply(t, Err(Errors.InvalidInputError("Invalid task priority")))
    ensures r.result.Ok? <==>
      Trim(req.title) != [] && Merge(req.priority, DefaultPriority) in Priorities && id !in t.tasks
    ensures r.result.Err? ==> r.tables == t
    ensures r.result.Ok? ==>
      && r.result.value.status == "todo"
      && (req.priority.None? ==> r.result.value.priority == DefaultPriority)
      && r.result.value == Task(id, req.projectId, req.sprintId, req.title, req.description, "todo",
                                Merge(req.priority, DefaultPriority), req.estimatedHours, now, now)
      && r.tables == t.(tasks := t.tasks[id := r.result.value])
  {
    if Trim(req.title) == [] then
      Reply(t, Err(Errors.InvalidInputError("Task title cannot be empty")))
    else
      var priority := Merge(req.priority, DefaultPriority);
      if priority !in Priorities then
        Reply(t, Err(Errors.InvalidInputError("Invalid task priority")))
      else if id in t.tasks then
        Reply(t, Err(Errors.UniqueViolation("tasks.id")))
      else
        var task := Task(id, req.projectId, req.sprintId, req.title, req.description, "todo",
                         priority, req.estimatedHours, now, now);
        Reply(t.(tasks := t.tasks[id := task]), Ok(task))
  }

  datatype TaskUpdateRequest = TaskUpdateRequest(
    sprintId: Option<string>, title: Option<string>, description: Option<string>,
    status: Option<string>, priority: Option<string>, estimatedHours: Option<real>)

  function MergeTask(taskId: string, cur: Task, req: TaskUpdateRequest, now: string): Task {
    cur.(id := taskId,
         sprintId := MergeOptional(req.sprintId, cur.sprintId),
         title := Merge(req.title, cur.title),
         description := MergeOptional(req.description, cur.description),
         status := Merge(req.status, cur.status),
         priority := Merge(req.priority, cur.priority),
         estimatedHours := MergeOptional(req.estimatedHours, cur.estimatedHours),
         updatedAt := now)
  }

  /** `task_update`: merge, then check the merged status, then the merged
      priority. The title is not checked. */
  function TaskUpdate(t: Tables, taskId: string, req: TaskUpdateRequest, now: string): (r: Reply<Task>)
    ensures taskId !in t.tasks ==> r == Reply(t, Err(Errors.DatabaseNotFoundError("Task", taskId)))
    ensures r.result.Err? ==> r.tables == t
    ensures taskId in t.tasks && Merge(req.status, t.tasks[taskId].status) !in TaskStatuses ==>
      r.result == Err(Errors.InvalidInputError("Invalid task status"))
    ensures taskId in t.tasks && Merge(req.status, t.tasks[taskId].status) in TaskStatuses
            && Merge(req.priority, t.tasks[taskId].priority) !in Priorities ==>
      r.result == Err(Errors.InvalidInputError("Invalid task priority"))
    ensures r.result.Ok? <==>
      && taskId in t.tasks
      && Merge(req.status, t.tasks[taskId].status) in TaskStatuses
      && Merge(req.priority, t.tasks[taskId].priority) in Priorities
    ensures r.result.Ok? ==>
      && r.result.value.id == taskId && r.result.value.projectId == t.tasks[taskId].projectId
      && r.result.value.createdAt == t.tasks[taskId].createdAt && r.result.value.updatedAt == now
      && r.tables == t.(tasks := t.tasks[taskId := r.result.value])
    ensures r.result.Ok? ==>
      var cur := t.tasks[taskId];
      r.result.value == cur.(id := taskId,
                             sprintId := MergeOptional(req.sprintId, cur.sprintId),
                             title := Merge(req.title, cur.title),
                             description := MergeOptional(req.description, cur.description),
                             status := Merge(req.status, cur.status),
                             priority := Merge(req.priority, cur.priority),
                             estimatedHours := MergeOptional(req.estimatedHours, cur.estimatedHours),
                             updatedAt := now)
  {
    if taskId !in t.tasks then
      Reply(t, Err(Errors.DatabaseNotFoundError("Task", taskId)))
    else
      var merged := MergeTask(taskId, t.tasks[taskId], req, now);
      if merged.status !in TaskStatuses then
        Reply(t, Err(Errors.InvalidInputError("Invalid task status")))
      else if merged.priority !in Priorities then
        Reply(t, Err(Errors.InvalidInputError("Invalid task priority")))
      else
        Reply(t.(tasks := t.tasks[taskId := merged]), Ok(merged))
  }

  /** An update that sets nothing succeeds on a valid row (stored under its
      own id) and only moves its `updated_at`. */
  lemma EmptyTaskUpdateOnlyTouches(t: Tables, taskId: string, now: string)
    requires taskId in t.tasks && t.tasks[taskId].id == taskId
    requires t.tasks[taskId].status in TaskStatuses && t.tasks[taskId].priority in Priorities
    ensures TaskUpdate(t, taskId, TaskUpdateRequest(None, None, None, None, None, None), now)
         == Reply(t.(tasks := t.tasks[taskId := t.tasks[taskId].(updatedAt := now)]),
                  Ok(t.tasks[taskId].(updatedAt := now)))
  {
  }

  /** `task_update` cannot take a task out of its sprint or drop its
      description or estimate; only `task_move` can clear the sprint. */
  lemma TaskUpdateNeverClears(t: Tables, taskId: string, req: TaskUpdateRequest, now: string)
    requires TaskUpdate(t, taskId, req, now).result.Ok?
    ensures var before := t.tasks[taskId];
            var after := TaskUpdate(t, taskId, req, now).result.value;
            && (before.sprintId.Some? ==> after.sprintId.Some?)
            && (before.description.Some? ==> after.description.Some?)
            && (before.estimatedHours.Some? ==> after.estimatedHours.Some?)
  {
    var before := t.tasks[taskId];
    MergeNeverClears(req.sprintId, before.sprintId);
    MergeNeverClears(req.description, before.description);
    MergeNeverClears(req.estimatedHours, before.estimatedHours);
  }

  /** A title that task creation rejects is accepted by an update. */
  lemma TaskUpdateAcceptsBlankTitle(t: Tables, taskId: string, now: string)
    requires taskId in t.tasks
    requires t.tasks[taskId].status in TaskStatuses && t.tasks[taskId].priority in Priorities
    ensures Trim(" ") == []
    ensures TaskUpdate(t, taskId, TaskUpdateRequest(None, Some(" "), None, None, None, None), now).result.Ok?
  {
    assert IsWhitespace(' ');
    assert TrimStart(" ") == TrimStart(" "[1..]);
  }

  /** `task_move`: set (or clear) the sprint. */
  function TaskMove(t: Tables, taskId: string, sprintId: Option<string>, now: string): (r: Reply<()>)
    ensures r.result.Ok? <==> taskId in t.tasks
    ensures r.result.Err? ==> r == Reply(t, Err(Errors.DatabaseNotFoundError("Task", taskId)))
    ensures r.result.Ok? ==>
      && r.tables.tasks.Keys == t.tasks.Keys
      && r.tables.tasks[taskId] == t.tasks[taskId].(sprintId := sprintId, updatedAt := now)
      && (forall k :: k in t.tasks && k != taskId ==> r.tables.tasks[k] == t.tasks[k])
  {
    if taskId !in t.tasks then
      Reply(t, Err(Errors.DatabaseNotFoundError("Task", taskId)))
    else
      Reply(t.(tasks := t.tasks[taskId := t.tasks[taskId].(sprintId := sprintId, updatedAt := now)]), Ok(()))
  }

  /** `task_delete`: the task's dependency pairs go with it. */
  function TaskDelete(t: Tables, taskId: string): (r: Reply<()>)
    ensures r.result.Ok? <==> taskId in t.tasks
    ensures r.result.Err? ==> r == Reply(t, Err(Errors.DatabaseNotFoundError("Task", taskId)))
    ensures r.result.Ok? ==> r.tables == DropTasks(t, {taskId})
  {
    if taskId !in t.tasks then
      Reply(t, Err(Errors.DatabaseNotFoundError("Task", taskId)))
    else
      Reply(DropTasks(t, {taskId}), Ok(()))
  }

  /** After deleting a task nothing depends on it and it depends on nothing. */
  lemma TaskDeleteClearsDependencies(t: Tables, taskId: string, other: string)
    requires taskId in t.tasks
    ensures var r := TaskDelete(t, taskId).tables;
            (taskId, other) !in r.dependencies && (other, taskId) !in r.dependencies
  {
  }

  // ---------------------------------------------------------------------
  // The primary-key invariant
  // ---------------------------------------------------------------------

  /** Every row sits under its own id, as a table keyed by `id` guarantees. */
  ghost predicate KeyedById(t: Tables) {
    && ProjectsKeyed(t.projects) && MilestonesKeyed(t.milestones)
    && SprintsKeyed(t.sprints) && TasksKeyed(t.tasks)
  }

  ghost predicate ProjectsKeyed(m: map<string, Project>) {
    forall k :: k in m ==> m[k].id == k
  }

  ghost predicate MilestonesKeyed(m: map<string, Milestone>) {
    forall k :: k in m ==> m[k].id == k
  }

  ghost predicate SprintsKeyed(m: map<string, Sprint>) {
    forall k :: k in m ==> m[k].id == k
  }

  ghost predicate TasksKeyed(m: map<string, Task>) {
    forall k :: k in m ==> m[k].id == k
  }

  /** Creating and updating projects keep every row under its own id. */
  lemma ProjectCommandsKeepKeys(t: Tables, id: string, now: string, req: ProjectCreateRequest, dir: DirFacts,
                                update: ProjectUpdateRequest)
    requires KeyedById(t)
    ensures KeyedById(ProjectCreate(t, req, dir, id, now).tables)
    ensures KeyedById(ProjectUpdate(t, id, update, now).tables)
  {
  }

  /** Deleting a project, with its cascade, keeps every surviving row under its own id. */
  lemma ProjectDeleteKeepsKeys(t: Tables, id: string)
    requires KeyedById(t)
    ensures KeyedById(ProjectDelete(t, id).tables)
  {
  }

  /** The milestone commands keep every row under its own id. */
  lemma MilestoneCommandsKeepKeys(t: Tables, id: string, now: string, update: MilestoneUpdateRequest)
    requires KeyedById(t)
    ensures KeyedById(MilestoneUpdate(t, id, update, now).tables)
    ensures KeyedById(MilestoneDelete(t, id).tables)
  {
  }

  /** The sprint commands keep every row under its own id. */
  lemma SprintCommandsKeepKeys(t: Tables, id: string, now: string, req: SprintCreateRequest,
                               update: SprintUpdateRequest)
    requires KeyedById(t)
    ensures KeyedById(SprintCreate(t, req, id, now).tables)
    ensures KeyedById(SprintUpdate(t, id, update, now).tables)
    ensures KeyedById(SprintDelete(t, id).tables)
  {
  }

  /** Creating and updating tasks keep every row under its own id. */
  lemma TaskCommandsKeepKeys(t: Tables, id: string, now: string, req: TaskCreateRequest,
                             update: TaskUpdateRequest)
    requires KeyedById(t)
    ensures KeyedById(TaskCreate(t, req, id, now).tables)
    ensures KeyedById(TaskUpdate(t, id, update, now).tables)
  {
  }

  /** Moving and deleting tasks keep every row under its own id. */
  lemma TaskMoveDeleteKeepKeys(t: Tables, id: string, now: string, sprintId: Option<string>)
    requires KeyedById(t)
    ensures KeyedById(TaskMove(t, id, sprintId, now).tables)
    ensures KeyedById(TaskDelete(t, id).tables)
  {
  }

  /** The schema's foreign keys: every row's project exists, every set
      milestone or sprint link points at a stored row, and every dependency
      pair joins two stored tasks. The cascades of the four deletes keep it. */
  ghost predicate Referential(t: Tables) {
    && MilestonesReferential(t) && SprintsReferential(t) && TasksReferential(t)
    && DependenciesReferential(t)
  }

  ghost predicate MilestonesReferential(t: Tables) {
    forall k :: k in t.milestones ==> t.milestones[k].projectId in t.projects
  }

  ghost predicate SprintsReferential(t: Tables) {
    forall k :: k in t.sprints ==>
      && t.sprints[k].projectId in t.projects
      && (t.sprints[k].milestoneId.Some? ==> t.sprints[k].milestoneId.value in t.milestones)
  }

  ghost predicate TasksReferential(t: Tables) {
    forall k :: k in t.tasks ==>
      && t.tasks[k].projectId in t.projects
      && (t.tasks[k].sprintId.Some? ==> t.tasks[k].sprintId.value in t.sprints)
  }

  ghost predicate DependenciesReferential(t: Tables) {
    forall p :: p in t.dependencies ==> p.0 in t.tasks && p.1 in t.tasks
  }

  lemma DropTasksKeepsReferential(t: Tables, ids: set<string>)
    requires Referential(t)
    ensures Referential(DropTasks(t, ids))
  {
  }

  lemma DropSprintsKeepsReferential(t: Tables, ids: set<string>)
    requires Referential(t)
    ensures Referential(DropSprints(t, ids))
  {
  }

  lemma DropMilestonesKeepsReferential(t: Tables, ids: set<string>)
    requires Referential(t)
    ensures Referential(DropMilestones(t, ids))
  {
  }

  lemma ProjectDeleteKeepsReferential(t: Tables, id: string)
    requires Referential(t)
    ensures Referential(ProjectDelete(t, id).tables)
  {
    if id in t.projects {
      var t1 := DropTasks(t, ProjectTasks(t, id));
      DropTasksKeepsReferential(t, ProjectTasks(t, id));
      var t2 := DropSprints(t1, ProjectSprints(t, id));
      DropSprintsKeepsReferential(t1, ProjectSprints(t, id));
      var t3 := DropMilestones(t2, ProjectMilestones(t, id));
      DropMilestonesKeepsReferential(t2, ProjectMilestones(t, id));
      forall k | k in t3.milestones ensures t3.milestones[k].projectId != id {
        assert k !in ProjectMilestones(t, id);
      }
      forall k | k in t3.sprints ensures t3.sprints[k].projectId != id {
        assert k !in ProjectSprints(t, id);
      }
      forall k | k in t3.tasks ensures t3.tasks[k].projectId != id {
        assert k !in ProjectTasks(t, id);
      }
      RemoveEmptyProjectKeepsReferential(t3, id);
    }
  }

  /** A project row no other row refers to can go without breaking a key. */
  lemma RemoveEmptyProjectKeepsReferential(t: Tables, id: string)
    requires Referential(t)
    requires forall k :: k in t.milestones ==> t.milestones[k].projectId != id
    requires forall k :: k in t.sprints ==> t.sprints[k].projectId != id
    requires forall k :: k in t.tasks ==> t.tasks[k].projectId != id
    ensures Referential(t.(projects := t.projects - {id}))
  {
  }

  lemma MilestoneDeleteKeepsReferential(t: Tables, id: string)
    requires Referential(t)
    ensures Referential(MilestoneDelete(t, id).tables)
  {
    DropMilestonesKeepsReferential(t, {id});
  }

  lemma SprintDeleteKeepsReferential(t: Tables, id: string)
    requires Referential(t)
    ensures Referential(SprintDelete(t, id).tables)
  {
    DropSprintsKeepsReferential(t, {id});
  }

  lemma TaskDeleteKeepsReferential(t: Tables, id: string)
    requires Referential(t)
    ensures Referential(TaskDelete(t, id).tables)
  {
    DropTasksKeepsReferential(t, {id});
  }

  // ---------------------------------------------------------------------
  // Dependencies
  // ---------------------------------------------------------------------

  /** `task_add_dependency`: `INSERT OR IGNORE`, so adding a pair twice is harmless. */
  function TaskAddDependency(t: Tables, taskId: string, dependsOn: string): (r: Reply<()>)
    ensures r.result.Ok? <==> taskId != dependsOn
    ensures r.result.Err? ==> r == Reply(t, Err(Errors.InvalidInputError("A task cannot depend on itself")))
    ensures r.result.Ok? ==> r.tables == t.(dependencies := t.dependencies + {(taskId, dependsOn)})
  {
    if taskId == dependsOn then
      Reply(t, Err(Errors.InvalidInputError("A task cannot depend on itself")))
    else
      Reply(t.(dependencies := t.dependencies + {(taskId, dependsOn)}), Ok(()))
  }

  /** `task_remove_dependency`: deleting an absent pair is not an error. */
  function TaskRemoveDependency(t: Tables, taskId: string, dependsOn: string): (r: Reply<()>)
    ensures r.result.Ok?
    ensures r.tables == t.(dependencies := t.dependencies - {(taskId, dependsOn)})
  {
    Reply(t.(dependencies := t.dependencies - {(taskId, dependsOn)}), Ok(()))
  }

  /** `task_get_dependencies`: the tasks `taskId` depends on. */
  function TaskGetDependencies(t: Tables, taskId: string): (r: set<string>)
    ensures forall d :: d in r <==> (taskId, d) in t.dependencies
  {
    set p | p in t.dependencies && p.0 == taskId :: p.1
  }

  /** Adding is idempotent, the added task is reported, and only self-loops
      are refused: two tasks may depend on each other. */
  lemma DependencyProperties(t: Tables, a: string, b: string)
    requires a != b
    ensures var once := TaskAddDependency(t, a, b).tables;
            && TaskAddDependency(once, a, b).tables == once
            && b in TaskGetDependencies(once, a)
            && TaskAddDependency(once, b, a).result.Ok?
            && a in TaskGetDependencies(TaskAddDependency(once, b, a).tables, b)
    ensures TaskAddDependency(t, a, a).result.Err?
  {
    var once := TaskAddDependency(t, a, b).tables;
    assert once.dependencies + {(a, b)} == once.dependencies;
  }

  /** Removing a pair undoes adding it when it was not there before. */
  lemma RemoveUndoesAdd(t: Tables, a: string, b: string)
    requires a != b && (a, b) !in t.dependencies
    ensures TaskRemoveDependency(TaskAddDependency(t, a, b).tables, a, b).tables == t
    ensures b !in TaskGetDependencies(TaskRemoveDependency(t, a, b).tables, a)
  {
    assert t.dependencies + {(a, b)} - {(a, b)} == t.dependencies;
  }
}
