/** The project endpoints (app/routers/projects.py). `me` is the user that
    get_current_user resolved; listing and reading need no token. */
module Projects {
  import opened Http
  import opened Models
  import opened Schemas
  import opened Store

  const ProjectNotFound := Error(NotFound, "Project not found")
  const NameTakenError := Error(Conflict, "The project name is already taken")
  const NotOwnerError := Error(Forbidden, "Only project owner can delete a project")

  /** The caller already owns a project with this name. */
  predicate NameTaken(s: Db, ownerId: nat, name: string)
  {
    exists k :: k in s.projects && s.projects[k].name == name && s.projects[k].ownerId == ownerId
  }

  // ---------------------------------------------------------------------------
  // POST /projects
  // ---------------------------------------------------------------------------

  function CreateProjectStep(s: Db, p: ProjectCreate, me: User): (r: Step<Project>)
    ensures r.out.Failure? ==> r.db == s
    ensures r.out == Failure(NameTakenError) <==> NameTaken(s, me.id, p.name)
    ensures r.out.Success? <==> !NameTaken(s, me.id, p.name) && |p.name| <= MaxNameLength
    ensures !NameTaken(s, me.id, p.name) && |p.name| > MaxNameLength ==> r.out == Failure(CommitFailed)
    ensures r.out.Success? ==>
      && r.out.status == Created
      && r.out.value == Project(s.nextId, p.name, p.desc, me.id)
      && r.db == s.(projects := s.projects[s.nextId := r.out.value], nextId := s.nextId + 1)
  {
    if NameTaken(s, me.id, p.name) then Step(s, Failure(NameTakenError))
    else
      var project := Project(s.nextId, p.name, p.desc, me.id);
      if !ProjectRowAccepted(s, project) then Step(s, Failure(CommitFailed))
      else Step(s.(projects := s.projects[project.id := project], nextId := s.nextId + 1), Success(Created, project))
  }

  method CreateProject(db: Database, p: ProjectCreate, me: User) returns (out: Outcome<Project>)
    modifies db
    ensures var r := CreateProjectStep(old(db.State()), p, me); db.State() == r.db && out == r.out
  {
    if NameTaken(db.State(), me.id, p.name) {
      return Failure(NameTakenError);
    }
    var project := Project(db.nextId, p.name, p.desc, me.id);
    if !ProjectRowAccepted(db.State(), project) {
      return Failure(CommitFailed);
    }
    db.projects := db.projects[project.id := project];
    db.nextId := db.nextId + 1;
    out := Success(Created, project);
  }

  lemma CreateProjectPreservesValid(s: Db, p: ProjectCreate, me: User)
    requires Valid(s) && me.id in s.users
    ensures Valid(CreateProjectStep(s, p, me).db)
  {
    var r := CreateProjectStep(s, p, me);
  }

  /** Two different owners may each own a project of the same name: the first
      one's project does not block the second. */
  lemma SameNameDifferentOwners(s: Db, p: ProjectCreate, a: User, b: User)
    requires a.id != b.id
    requires !NameTaken(s, b.id, p.name)
    requires CreateProjectStep(s, p, a).out.Success?
    ensures CreateProjectStep(CreateProjectStep(s, p, a).db, p, b).out.Success?
  {
  }

  /** The same owner creating the same name twice gets 409 the second time. */
  lemma SameNameSameOwnerConflicts(s: Db, p: ProjectCreate, a: User)
    requires CreateProjectStep(s, p, a).out.Success?
    ensures CreateProjectStep(CreateProjectStep(s, p, a).db, p, a).out == Failure(NameTakenError)
  {
    var s1 := CreateProjectStep(s, p, a).db;
    assert s1.projects[s.nextId].name == p.name && s1.projects[s.nextId].ownerId == a.id;
  }

  // ---------------------------------------------------------------------------
  // GET /projects and GET /projects/{id}
  // ---------------------------------------------------------------------------

  /** A name-only body stores a project whose desc is the empty string. */
  lemma CreatedProjectDefaultDesc(s: Db, name: string, me: User)
    requires CreateProjectStep(s, ProjectCreateWithName(name), me).out.Success?
    ensures var r := CreateProjectStep(s, ProjectCreateWithName(name), me);
      && r.out.value.desc == ""
      && r.out.value.name == name
      && r.db.projects[r.out.value.id].desc == ""
  {
  }

  /** Every project, newest (highest id) first. */
  function ListProjects(s: Db): (r: seq<Project>)
    ensures ProjectKeys(s.projects, s.nextId) ==>
      && (forall i :: 0 <= i < |r| ==> r[i].id in s.projects && s.projects[r[i].id] == r[i])
      && (forall k :: k in s.projects ==> s.projects[k] in r)
      && (forall i, j :: 0 <= i < j < |r| ==> r[i].id > r[j].id)
  {
    var ids := IdsDescBelow(s.projects, (_: Project) => true, s.nextId);
    var rows := Rows(s.projects, ids);
    assert ProjectKeys(s.projects, s.nextId) ==> forall i :: 0 <= i < |rows| ==> rows[i].id == ids[i] by {
      if ProjectKeys(s.projects, s.nextId) {
        forall i | 0 <= i < |rows| ensures rows[i].id == ids[i] {
          assert rows[i] == s.projects[ids[i]];
        }
      }
    }
    assert ProjectKeys(s.projects, s.nextId) ==> forall k :: k in s.projects ==> s.projects[k] in rows by {
      if ProjectKeys(s.projects, s.nextId) {
        forall k | k in s.projects ensures s.projects[k] in rows {
          var i :| 0 <= i < |ids| && ids[i] == k;
          assert rows[i] == s.projects[k];
        }
      }
    }
    rows
  }

  function GetOneProject(s: Db, projectId: nat): (r: Outcome<Project>)
    ensures r.Success? <==> projectId in s.projects
    ensures r.Success? ==> r == Success(OkStatus, s.projects[projectId])
    ensures r.Failure? ==> r.error == ProjectNotFound
  {
    if projectId in s.projects then Success(OkStatus, s.projects[projectId]) else Failure(ProjectNotFound)
  }

  // ---------------------------------------------------------------------------
  // DELETE /projects/{id}
  // ---------------------------------------------------------------------------

  function DeleteProjectStep(s: Db, projectId: nat, me: User): (r: Step<Unit>)
    ensures r.out.Failure? ==> r.db == s
    ensures projectId !in s.projects ==> r.out == Failure(ProjectNotFound)
    ensures projectId in s.projects && s.projects[projectId].ownerId != me.id ==>
              r.out == Failure(NotOwnerError)
    ensures r.out.Success? <==> projectId in s.projects && s.projects[projectId].ownerId == me.id
    ensures r.out.Success? ==>
      && r.out.status == NoContent
      && r.db == DropIssues(s.(projects := s.projects - {projectId}), IssuesOfProject(s, projectId))
  {
    if projectId !in s.projects then Step(s, Failure(ProjectNotFound))
    else if s.projects[projectId].ownerId != me.id then Step(s, Failure(NotOwnerError))
    else Step(DropIssues(s.(projects := s.projects - {projectId}), IssuesOfProject(s, projectId)),
              Success(NoContent, Unit))
  }

  method DeleteProject(db: Database, projectId: nat, me: User) returns (out: Outcome<Unit>)
    modifies db
    ensures var r := DeleteProjectStep(old(db.State()), projectId, me); db.State() == r.db && out == r.out
  {
    if projectId !in db.projects {
      return Failure(ProjectNotFound);
    }
    if db.projects[projectId].ownerId != me.id {
      return Failure(NotOwnerError);
    }
    var gone := IssuesOfProject(db.State(), projectId);
    db.projects := db.projects - {projectId};
    db.comments := map k | k in db.comments && db.comments[k].issueId !in gone :: db.comments[k];
    db.issues := db.issues - gone;
    out := Success(NoContent, Unit);
  }

  /** A deleted project takes its issues and their comments with it, and
      nothing else. */
  lemma DeleteProjectCascades(s: Db, projectId: nat, me: User)
    requires DeleteProjectStep(s, projectId, me).out.Success?
    ensures var t := DeleteProjectStep(s, projectId, me).db;
      && t.projects.Keys == s.projects.Keys - {projectId}
      && (forall k :: k in t.projects ==> t.projects[k] == s.projects[k])
      && (forall k :: k in t.issues <==> k in s.issues && s.issues[k].projectId != projectId)
      && (forall k :: k in t.comments <==>
            && k in s.comments
            && !(s.comments[k].issueId in s.issues && s.issues[s.comments[k].issueId].projectId == projectId))
      && GetOneProject(t, projectId) == Failure(ProjectNotFound)
  {
  }

  lemma DeleteProjectPreservesValid(s: Db, projectId: nat, me: User)
    requires Valid(s)
    ensures Valid(DeleteProjectStep(s, projectId, me).db)
  {
    var r := DeleteProjectStep(s, projectId, me);
    if r.out.Success? {
      var gone := IssuesOfProject(s, projectId);
      var t := r.db;
      assert ReferencesLive(t) by {
        forall k | k in t.issues ensures t.issues[k].projectId in t.projects {
          assert k !in gone;
        }
        forall k | k in t.comments ensures t.comments[k].issueId in t.issues {
          assert s.comments[k].issueId in s.issues;
        }
      }
    }
  }
}
