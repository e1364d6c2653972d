/** The issue endpoints (app/routers/issues.py). `me` is the user that
    get_current_user resolved. */
module Issues {
  import opened Http
  import opened Models
  import opened Schemas
  import opened Store
  import Projects

  const IssueNotFound := Error(NotFound, "Issue not found")
  const TitleTakenError := Error(Conflict, "The issue title is already taken")
  const TitleExistsError := Error(Conflict, "Issue title already exists in this project")
  /** The 403 detail of patch_issue and delete_issue, spelled as in the source. */
  const NotReporterError := Error(Forbidden, "Now allowed")

  /** Some issue of the project already has this title. */
  predicate TitleTaken(s: Db, projectId: nat, title: string)
  {
    exists k :: k in s.issues && s.issues[k].title == title && s.issues[k].projectId == projectId
  }

  /** Some issue of the project other than `id` already has this title. */
  predicate TitleTakenByOther(s: Db, projectId: nat, title: string, id: nat)
  {
    exists k :: k in s.issues && s.issues[k].projectId == projectId && s.issues[k].title == title && k != id
  }

  // ---------------------------------------------------------------------------
  // POST /projects/{project_id}/issues
  // ---------------------------------------------------------------------------

  /** The row create_issue builds: the payload's fields, the path's project
      and the caller as reporter. */
  function NewIssue(s: Db, projectId: nat, p: IssueCreate, me: User): Issue
  {
    Issue(s.nextId, p.title, p.desc, p.status, p.priority, projectId, me.id, p.assigneeId)
  }

  function CreateIssueStep(s: Db, projectId: nat, p: IssueCreate, me: User): (r: Step<Issue>)
    ensures r.out.Failure? ==> r.db == s
    ensures projectId !in s.projects ==> r.out == Failure(Projects.ProjectNotFound)
    ensures projectId in s.projects && TitleTaken(s, projectId, p.title) ==> r.out == Failure(TitleTakenError)
    ensures projectId in s.projects && !TitleTaken(s, projectId, p.title) ==>
      (!IssueRowAccepted(s, NewIssue(s, projectId, p, me)) ==> r.out == Failure(CommitFailed))
    ensures r.out.Success? <==>
      && projectId in s.projects
      && !TitleTaken(s, projectId, p.title)
      && IssueRowAccepted(s, NewIssue(s, projectId, p, me))
    ensures r.out.Success? ==>
      && r.out.status == Created
      && var i := r.out.value;
         && i.id == s.nextId && i.projectId == projectId && i.reporterId == me.id
         && i.title == p.title && i.desc == p.desc && i.status == p.status
         && i.priority == p.priority && i.assigneeId == p.assigneeId
         && r.db == s.(issues := s.issues[i.id := i], nextId := s.nextId + 1)
  {
    if projectId !in s.projects then Step(s, Failure(Projects.ProjectNotFound))
    else if TitleTaken(s, projectId, p.title) then Step(s, Failure(TitleTakenError))
    else
      var issue := NewIssue(s, projectId, p, me);
      if !IssueRowAccepted(s, issue) then Step(s, Failure(CommitFailed))
      else Step(s.(issues := s.issues[issue.id := issue], nextId := s.nextId + 1), Success(Created, issue))
  }

  method CreateIssue(db: Database, projectId: nat, p: IssueCreate, me: User) returns (out: Outcome<Issue>)
    modifies db
    ensures var r := CreateIssueStep(old(db.State()), projectId, p, me); db.State() == r.db && out == r.out
  {
    if projectId !in db.projects {
      return Failure(Projects.ProjectNotFound);
    }
    if TitleTaken(db.State(), projectId, p.title) {
      return Failure(TitleTakenError);
    }
    var issue := Issue(db.nextId, p.title, p.desc, p.status, p.priority, projectId, me.id, p.assigneeId);
    if !IssueRowAccepted(db.State(), issue) {
      return Failure(CommitFailed);
    }
    db.issues := db.issues[issue.id := issue];
    db.nextId := db.nextId + 1;
    out := Success(Created, issue);
  }

  lemma CreateIssuePreservesValid(s: Db, projectId: nat, p: IssueCreate, me: User)
    requires Valid(s) && me.id in s.users
    ensures Valid(CreateIssueStep(s, projectId, p, me).db)
  {
    var r := CreateIssueStep(s, projectId, p, me);
    if r.out.Success? {
      InsertIssueValid(s, r.out.value);
    }
  }

  /** Adding a row under the next id that refers to live rows and has a title
      that is free in its project keeps the store valid. */
  lemma InsertIssueValid(s: Db, i: Issue)
    requires Valid(s)
    requires i.id == s.nextId && i.projectId in s.projects && i.reporterId in s.users
    requires IssueRowAccepted(s, i) && !TitleTaken(s, i.projectId, i.title)
    ensures Valid(s.(issues := s.issues[i.id := i], nextId := s.nextId + 1))
  {
    var t := s.(issues := s.issues[i.id := i], nextId := s.nextId + 1);
    assert KeysConsistent(t);
    assert UniqueIssueTitles(t.issues) by {
      forall a, b | a in t.issues && b in t.issues && a != b && t.issues[a].projectId == t.issues[b].projectId
        ensures t.issues[a].title != t.issues[b].title
      {
        if a == i.id {
          assert t.issues[b] == s.issues[b];
        } else if b == i.id {
          assert t.issues[a] == s.issues[a];
        }
      }
    }
    assert ReferencesLive(t);
    assert ColumnsWellFormed(t);
  }

  /** A title taken in one project is still free in every other project. */
  lemma SameTitleOtherProject(s: Db, p1: nat, p2: nat, p: IssueCreate, me: User)
    requires p1 != p2 && p2 in s.projects
    requires CreateIssueStep(s, p1, p, me).out.Success?
    requires !TitleTaken(s, p2, p.title)
    ensures CreateIssueStep(CreateIssueStep(s, p1, p, me).db, p2, p, me).out.Success?
  {
  }

  /** Creating the same title twice in one project gives 409 the second time. */
  lemma SameTitleSameProjectConflicts(s: Db, projectId: nat, p: IssueCreate, me: User)
    requires CreateIssueStep(s, projectId, p, me).out.Success?
    ensures CreateIssueStep(CreateIssueStep(s, projectId, p, me).db, projectId, p, me).out
            == Failure(TitleTakenError)
  {
    var s1 := CreateIssueStep(s, projectId, p, me).db;
    assert s1.issues[s.nextId].title == p.title;
  }

  /** A body giving only a title stores the declared defaults. */
  lemma CreatedIssueDefaults(s: Db, projectId: nat, title: string, me: User)
    requires CreateIssueStep(s, projectId, IssueCreateWithTitle(title), me).out.Success?
    ensures var i := CreateIssueStep(s, projectId, IssueCreateWithTitle(title), me).out.value;
      && i.status == Open && i.priority == Medium && i.desc == "" && i.assigneeId == None
  {
  }

  // ---------------------------------------------------------------------------
  // GET /projects/{project_id}/issues and GET /issues/{issue_id}
  // ---------------------------------------------------------------------------

  /** The project's issues, newest (highest id) first. */
  function ListProjectIssues(s: Db, projectId: nat): (r: Outcome<seq<Issue>>)
    ensures r.Failure? <==> projectId !in s.projects
    ensures r.Failure? ==> r.error == Projects.ProjectNotFound
    ensures r.Success? ==> r.status == OkStatus
    ensures r.Success? && IssueKeys(s.issues, s.nextId) ==>
      var l := r.value;
      && (forall i :: 0 <= i < |l| ==> l[i].id in s.issues && s.issues[l[i].id] == l[i] && l[i].projectId == projectId)
      && (forall k :: k in s.issues && s.issues[k].projectId == projectId ==> s.issues[k] in l)
      && (forall i, j :: 0 <= i < j < |l| ==> l[i].id > l[j].id)
  {
    if projectId !in s.projects then Failure(Projects.ProjectNotFound)
    else
      var ids := IdsDescBelow(s.issues, (i: Issue) => i.projectId == projectId, s.nextId);
      var rows := Rows(s.issues, ids);
      assert IssueKeys(s.issues, s.nextId) ==> forall i :: 0 <= i < |rows| ==> rows[i].id == ids[i] by {
        if IssueKeys(s.issues, s.nextId) {
          forall i | 0 <= i < |rows| ensures rows[i].id == ids[i] {
            assert rows[i] == s.issues[ids[i]];
          }
        }
      }
      assert IssueKeys(s.issues, s.nextId) ==>
        forall k :: k in s.issues && s.issues[k].projectId == projectId ==> s.issues[k] in rows by {
        if IssueKeys(s.issues, s.nextId) {
          forall k | k in s.issues && s.issues[k].projectId == projectId ensures s.issues[k] in rows {
            var i :| 0 <= i < |ids| && ids[i] == k;
            assert rows[i] == s.issues[k];
          }
        }
      }
      Success(OkStatus, rows)
  }

  function GetIssue(s: Db, id: nat): (r: Outcome<Issue>)
    ensures r.Success? <==> id in s.issues
    ensures r.Success? ==> r == Success(OkStatus, s.issues[id])
    ensures r.Failure? ==> r.error == IssueNotFound
  {
    if id in s.issues then Success(OkStatus, s.issues[id]) else Failure(IssueNotFound)
  }

  // ---------------------------------------------------------------------------
  // PATCH /issues/{issue_id}
  // ---------------------------------------------------------------------------

  /** The issue with every supplied field of the patch written over it: a field
      left out of the body keeps its value, so an assignee once set cannot be
      cleared, and the id, project and reporter never change. */
  function Patched(i: Issue, p: IssueUpdate): (r: Issue)
    ensures r.id == i.id && r.projectId == i.projectId && r.reporterId == i.reporterId
    ensures r.title == (if p.title.Some? then p.title.value else i.title)
    ensures r.desc == (if p.desc.Some? then p.desc.value else i.desc)
    ensures r.status == (if p.status.Some? then p.status.value else i.status)
    ensures r.priority == (if p.priority.Some? then p.priority.value else i.priority)
    ensures p.assigneeId.Some? ==> r.assigneeId == p.assigneeId
    ensures p.assigneeId.None? ==> r.assigneeId == i.assigneeId
    ensures i.assigneeId.Some? ==> r.assigneeId.Some?
    ensures p == EmptyUpdate ==> r == i
  {
    i.(title := OrElse(p.title, i.title),
       desc := OrElse(p.desc, i.desc),
       status := OrElse(p.status, i.status),
       priority := OrElse(p.priority, i.priority),
       assigneeId := if p.assigneeId.Some? then p.assigneeId else i.assigneeId)
  }

  /** The 409 test of patch_issue: only a supplied title that differs from
      the current one is looked up. */
  predicate PatchTitleConflicts(s: Db, id: nat, p: IssueUpdate)
    requires id in s.issues
  {
    && p.title.Some?
    && p.title.value != s.issues[id].title
    && TitleTakenByOther(s, s.issues[id].projectId, p.title.value, id)
  }

  function PatchIssueStep(s: Db, id: nat, p: IssueUpdate, me: User): (r: Step<Issue>)
    ensures r.out.Failure? ==> r.db == s
    ensures id !in s.issues ==> r.out == Failure(IssueNotFound)
    ensures id in s.issues && s.issues[id].reporterId != me.id ==> r.out == Failure(NotReporterError)
    ensures id in s.issues && s.issues[id].reporterId == me.id ==>
      (r.out == Failure(TitleExistsError) <==> PatchTitleConflicts(s, id, p))
    ensures id in s.issues && s.issues[id].reporterId == me.id && !PatchTitleConflicts(s, id, p) ==>
      (!IssueRowAccepted(s, Patched(s.issues[id], p)) ==> r.out == Failure(CommitFailed))
    ensures r.out.Success? <==>
      && id in s.issues
      && s.issues[id].reporterId == me.id
      && !PatchTitleConflicts(s, id, p)
      && IssueRowAccepted(s, Patched(s.issues[id], p))
    ensures r.out.Success? ==>
      && r.out == Success(OkStatus, Patched(s.issues[id], p))
      && r.db == s.(issues := s.issues[id := r.out.value])
  {
    if id !in s.issues then Step(s, Failure(IssueNotFound))
    else if s.issues[id].reporterId != me.id then Step(s, Failure(NotReporterError))
    else if PatchTitleConflicts(s, id, p) then Step(s, Failure(TitleExistsError))
    else
      var i := Patched(s.issues[id], p);
      if !IssueRowAccepted(s, i) then Step(s, Failure(CommitFailed))
      else Step(s.(issues := s.issues[id := i]), Success(OkStatus, i))
  }

  /** patch_issue: the checks, then each supplied field assigned in turn. */
  method PatchIssue(db: Database, id: nat, p: IssueUpdate, me: User) returns (out: Outcome<Issue>)
    modifies db
    ensures var r := PatchIssueStep(old(db.State()), id, p, me); db.State() == r.db && out == r.out
  {
    if id !in db.issues {
      return Failure(IssueNotFound);
    }
    var i := db.issues[id];
    if i.reporterId != me.id {
      return Failure(NotReporterError);
    }
    if p.title.Some? && p.title.value != i.title {
      if TitleTakenByOther(db.State(), i.projectId, p.title.value, id) {
        return Failure(TitleExistsError);
      }
      i := i.(title := p.title.value);
    }
    if p.desc.Some? {
      i := i.(desc := p.desc.value);
    }
    if p.status.Some? {
      i := i.(status := p.status.value);
    }
    if p.priority.Some? {
      i := i.(priority := p.priority.value);
    }
    if p.assigneeId.Some? {
      i := i.(assigneeId := p.assigneeId);
    }
    if !IssueRowAccepted(db.State(), i) {
      return Failure(CommitFailed);
    }
    db.issues := db.issues[id := i];
    out := Success(OkStatus, i);
  }

  /** A successful patch changes exactly the supplied fields of exactly one
      issue; the project, the reporter and the id stay, and an assignee once
      set is never cleared. */
  lemma PatchChangesOnlySuppliedFields(s: Db, id: nat, p: IssueUpdate, me: User)
    requires PatchIssueStep(s, id, p, me).out.Success?
    ensures var r := PatchIssueStep(s, id, p, me);
      var was, now := s.issues[id], r.out.value;
      && now.id == was.id && now.projectId == was.projectId && now.reporterId == was.reporterId
      && (p.title.None? ==> now.title == was.title) && (p.title.Some? ==> now.title == p.title.value)
      && (p.desc.None? ==> now.desc == was.desc) && (p.desc.Some? ==> now.desc == p.desc.value)
      && (p.status.None? ==> now.status == was.status) && (p.status.Some? ==> now.status == p.status.value)
      && (p.priority.None? ==> now.priority == was.priority)
      && (p.priority.Some? ==> now.priority == p.priority.value)
      && (p.assigneeId.None? ==> now.assigneeId == was.assigneeId)
      && (p.assigneeId.Some? ==> now.assigneeId == p.assigneeId)
      && (was.assigneeId.Some? ==> now.assigneeId.Some?)
      && r.db.issues.Keys == s.issues.Keys
      && (forall k :: k in s.issues && k != id ==> r.db.issues[k] == s.issues[k])
      && r.db.users == s.users && r.db.projects == s.projects && r.db.comments == s.comments
  {
  }

  /** The body `{}` sent by the reporter changes nothing and returns the issue. */
  lemma EmptyPatchIsNoOp(s: Db, id: nat, me: User)
    requires Valid(s)
    requires id in s.issues && s.issues[id].reporterId == me.id
    ensures PatchIssueStep(s, id, EmptyUpdate, me) == Step(s, Success(OkStatus, s.issues[id]))
  {
    assert Patched(s.issues[id], EmptyUpdate) == s.issues[id];
  }

  /** Re-sending the current title never yields 409. */
  lemma ResentTitleNeverConflicts(s: Db, id: nat, p: IssueUpdate, me: User)
    requires id in s.issues && p.title == Some(s.issues[id].title)
    ensures PatchIssueStep(s, id, p, me).out.Code() != Conflict
  {
  }

  lemma PatchIssuePreservesValid(s: Db, id: nat, p: IssueUpdate, me: User)
    requires Valid(s)
    ensures Valid(PatchIssueStep(s, id, p, me).db)
  {
    var r := PatchIssueStep(s, id, p, me);
    if r.out.Success? {
      ReplaceIssueValid(s, id, r.out.value);
    }
  }

  /** Rewriting a row in place with unchanged id, project and reporter, a
      title no other issue of the project has, and columns the database
      accepts keeps the store valid. */
  lemma ReplaceIssueValid(s: Db, id: nat, i: Issue)
    requires Valid(s) && id in s.issues
    requires i.id == id && i.projectId == s.issues[id].projectId && i.reporterId == s.issues[id].reporterId
    requires IssueRowAccepted(s, i) && !TitleTakenByOther(s, i.projectId, i.title, id)
    ensures Valid(s.(issues := s.issues[id := i]))
  {
    ReplaceIssueKeepsTitlesUnique(s, id, i);
    ReplaceIssueKeepsReferences(s, id, i);
  }

  lemma ReplaceIssueKeepsReferences(s: Db, id: nat, i: Issue)
    requires Valid(s) && id in s.issues
    requires i.id == id && i.projectId == s.issues[id].projectId && i.reporterId == s.issues[id].reporterId
    requires IssueRowAccepted(s, i)
    ensures var t := s.(issues := s.issues[id := i]);
      KeysConsistent(t) && UniqueUsernames(t.users) && UniqueProjectNames(t.projects) && ReferencesLive(t) && ColumnsWellFormed(t)
  {
  }

  lemma ReplaceIssueKeepsTitlesUnique(s: Db, id: nat, i: Issue)
    requires UniqueIssueTitles(s.issues) && id in s.issues
    requires !TitleTakenByOther(s, i.projectId, i.title, id)
    ensures UniqueIssueTitles(s.issues[id := i])
  {
    var t := s.(issues := s.issues[id := i]);
    forall a, b | a in t.issues && b in t.issues && a != b && t.issues[a].projectId == t.issues[b].projectId
      ensures t.issues[a].title != t.issues[b].title
    {
      if a == id {
        assert t.issues[b] == s.issues[b];
      } else if b == id {
        assert t.issues[a] == s.issues[a];
      }
    }
  }

  // ---------------------------------------------------------------------------
  // DELETE /issues/{issue_id}
  // ---------------------------------------------------------------------------

  function DeleteIssueStep(s: Db, id: nat, me: User): (r: Step<Unit>)
    ensures r.out.Failure? ==> r.db == s
    ensures id !in s.issues ==> r.out == Failure(IssueNotFound)
    ensures id in s.issues && s.issues[id].reporterId != me.id ==> r.out == Failure(NotReporterError)
    ensures r.out.Success? <==> id in s.issues && s.issues[id].reporterId == me.id
    ensures r.out.Success? ==> r == Step(DropIssues(s, {id}), Success(NoContent, Unit))
  {
    if id !in s.issues then Step(s, Failure(IssueNotFound))
    else if s.issues[id].reporterId != me.id then Step(s, Failure(NotReporterError))
    else Step(DropIssues(s, {id}), Success(NoContent, Unit))
  }

  method DeleteIssue(db: Database, id: nat, me: User) returns (out: Outcome<Unit>)
    modifies db
    ensures var r := DeleteIssueStep(old(db.State()), id, me); db.State() == r.db && out == r.out
  {
    if id !in db.issues {
      return Failure(IssueNotFound);
    }
    if db.issues[id].reporterId != me.id {
      return Failure(NotReporterError);
    }
    db.comments := map k | k in db.comments && db.comments[k].issueId != id :: db.comments[k];
    db.issues := db.issues - {id};
    out := Success(NoContent, Unit);
  }

  /** Deleting an issue removes it and its comments, keeps every other issue,
      and a later read of it is 404. */
  lemma DeleteIssueRemovesExactlyIt(s: Db, id: nat, me: User)
    requires DeleteIssueStep(s, id, me).out.Success?
    ensures var t := DeleteIssueStep(s, id, me).db;
      && t.issues.Keys == s.issues.Keys - {id}
      && (forall k :: k in t.issues ==> t.issues[k] == s.issues[k])
      && (forall k :: k in t.comments <==> k in s.comments && s.comments[k].issueId != id)
      && t.users == s.users && t.projects == s.projects
      && GetIssue(t, id) == Failure(IssueNotFound)
  {
  }

  lemma DeleteIssuePreservesValid(s: Db, id: nat, me: User)
    requires Valid(s)
    ensures Valid(DeleteIssueStep(s, id, me).db)
  {
    DropIssuesValid(s, {id});
  }
}
