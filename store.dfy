/** The database behind every request: the integrity the schema declares
    (keys, unique constraints, foreign keys, column widths), the session object
    the handlers mutate, and the id-ordered listings of the list endpoints. */
module Store {
  import opened Http
  import opened Models
  import opened Schemas

  /** What a handler leaves behind: the new database and the response. */
  datatype Step<+T> = Step(db: Db, out: Outcome<T>)

  /** A freshly created schema. Serial ids start at 1. */
  const Empty := Db(map[], map[], map[], map[], 1)

  // Each constraint is stated over the tables it involves, so that a handler
  // that leaves a table alone visibly leaves that table's constraints alone.

  /** Every row is stored under its own id, and ids are positive and below the
      next id to be handed out. */
  ghost predicate UserKeys(users: map<nat, User>, next: nat)
  {
    forall k :: k in users ==> users[k].id == k && 0 < k < next
  }

  ghost predicate ProjectKeys(projects: map<nat, Project>, next: nat)
  {
    forall k :: k in projects ==> projects[k].id == k && 0 < k < next
  }

  ghost predicate IssueKeys(issues: map<nat, Issue>, next: nat)
  {
    forall k :: k in issues ==> issues[k].id == k && 0 < k < next
  }

  ghost predicate CommentKeys(comments: map<nat, Comment>, next: nat)
  {
    forall k :: k in comments ==> comments[k].id == k && 0 < k < next
  }

  ghost predicate KeysConsistent(s: Db)
  {
    && 0 < s.nextId
    && UserKeys(s.users, s.nextId)
    && ProjectKeys(s.projects, s.nextId)
    && IssueKeys(s.issues, s.nextId)
    && CommentKeys(s.comments, s.nextId)
  }

  /** Usernames are unique (compared exactly, case-sensitively). */
  ghost predicate UniqueUsernames(users: map<nat, User>)
  {
    forall a, b :: a in users && b in users && users[a].username == users[b].username ==> a == b
  }

  /** uq_projects_owner_name: (owner_id, name) is unique. */
  ghost predicate UniqueProjectNames(projects: map<nat, Project>)
  {
    forall a, b ::
      a in projects && b in projects &&
      projects[a].ownerId == projects[b].ownerId && projects[a].name == projects[b].name
      ==> a == b
  }

  /** uq_title_name_project_id: (title, project_id) is unique. */
  ghost predicate UniqueIssueTitles(issues: map<nat, Issue>)
  {
    forall a, b ::
      a in issues && b in issues &&
      issues[a].projectId == issues[b].projectId && issues[a].title == issues[b].title
      ==> a == b
  }

  /** Foreign keys: every reference points at a live row. */
  ghost predicate ProjectsReferenceOwners(projects: map<nat, Project>, users: map<nat, User>)
  {
    forall k :: k in projects ==> projects[k].ownerId in users
  }

  ghost predicate IssuesReferenceParents(issues: map<nat, Issue>, projects: map<nat, Project>, users: map<nat, User>)
  {
    forall k :: k in issues ==>
      && issues[k].projectId in projects
      && issues[k].reporterId in users
      && (issues[k].assigneeId.Some? ==> issues[k].assigneeId.value in users)
  }

  ghost predicate CommentsReferenceParents(comments: map<nat, Comment>, issues: map<nat, Issue>, users: map<nat, User>)
  {
    forall k :: k in comments ==> comments[k].issueId in issues && comments[k].authorId in users
  }

  ghost predicate ReferencesLive(s: Db)
  {
    && ProjectsReferenceOwners(s.projects, s.users)
    && IssuesReferenceParents(s.issues, s.projects, s.users)
    && CommentsReferenceParents(s.comments, s.issues, s.users)
  }

  /** The String(100) columns. */
  ghost predicate NamesFit(projects: map<nat, Project>)
  {
    forall k :: k in projects ==> |projects[k].name| <= MaxNameLength
  }

  ghost predicate TitlesFit(issues: map<nat, Issue>)
  {
    forall k :: k in issues ==> |issues[k].title| <= MaxNameLength
  }

  /** Comment content is only ever stored after CommentCreate's validator
      accepted it. */
  ghost predicate ContentsAccepted(comments: map<nat, Comment>)
  {
    forall k :: k in comments ==> AcceptedContent(comments[k].content)
  }

  ghost predicate ColumnsWellFormed(s: Db)
  {
    NamesFit(s.projects) && TitlesFit(s.issues) && ContentsAccepted(s.comments)
  }

  ghost predicate Valid(s: Db)
  {
    && KeysConsistent(s)
    && UniqueUsernames(s.users)
    && UniqueProjectNames(s.projects)
    && UniqueIssueTitles(s.issues)
    && ReferencesLive(s)
    && ColumnsWellFormed(s)
  }

  lemma EmptyValid()
    ensures Valid(Empty)
  {
  }

  /** The id the database assigns to the next inserted row. */
  lemma NextIdFresh(s: Db)
    requires KeysConsistent(s)
    ensures s.nextId !in s.users && s.nextId !in s.projects
    ensures s.nextId !in s.issues && s.nextId !in s.comments
  {
  }

  // ---------------------------------------------------------------------------
  // Commit-time checks the database makes on an inserted or updated row. A row
  // that fails them makes the commit raise, which surfaces as a 500 and rolls
  // the transaction back.
  // ---------------------------------------------------------------------------

  const CommitFailed := Error(ServerError, "Internal Server Error")

  /** The projects row passes the commit exactly when writing it keeps every
      name within the String(100) column. */
  function ProjectRowAccepted(s: Db, p: Project): (r: bool)
    ensures NamesFit(s.projects) ==> (r <==> NamesFit(s.projects[p.id := p]))
  {
    assert s.projects[p.id := p][p.id] == p;
    |p.name| <= MaxNameLength
  }

  /** The issues row passes the commit exactly when writing it keeps every
      title within the String(100) column and every assignee a live user; its
      project and reporter are live already when a handler gets this far. */
  function IssueRowAccepted(s: Db, i: Issue): (r: bool)
    ensures TitlesFit(s.issues) && IssuesReferenceParents(s.issues, s.projects, s.users) ==>
      i.projectId in s.projects && i.reporterId in s.users ==>
      (r <==> TitlesFit(s.issues[i.id := i]) && IssuesReferenceParents(s.issues[i.id := i], s.projects, s.users))
  {
    assert s.issues[i.id := i][i.id] == i;
    |i.title| <= MaxNameLength && (i.assigneeId.Some? ==> i.assigneeId.value in s.users)
  }

  // ---------------------------------------------------------------------------
  // Cascading deletes: ON DELETE CASCADE on comments.issue_id and on
  // issues.project_id.
  // ---------------------------------------------------------------------------

  /** Removes the issues in `gone` and every comment on them. */
  function DropIssues(s: Db, gone: set<nat>): (r: Db)
    ensures r.users == s.users && r.projects == s.projects && r.nextId == s.nextId
    ensures forall k :: k in r.issues <==> k in s.issues && k !in gone
    ensures forall k :: k in r.issues ==> r.issues[k] == s.issues[k]
    ensures forall k :: k in r.comments <==> k in s.comments && s.comments[k].issueId !in gone
    ensures forall k :: k in r.comments ==> r.comments[k] == s.comments[k]
  {
    s.(issues := s.issues - gone,
       comments := map k | k in s.comments && s.comments[k].issueId !in gone :: s.comments[k])
  }

  /** Dropping issues (and so their comments) keeps the store valid. */
  lemma DropIssuesValid(s: Db, gone: set<nat>)
    requires Valid(s)
    ensures Valid(DropIssues(s, gone))
  {
    var r := DropIssues(s, gone);
    assert KeysConsistent(r) by {
      assert KeysConsistent(s);
      assert IssueKeys(r.issues, r.nextId) by { assert IssueKeys(s.issues, s.nextId); }
      assert CommentKeys(r.comments, r.nextId) by { assert CommentKeys(s.comments, s.nextId); }
    }
    assert UniqueIssueTitles(r.issues) by { assert UniqueIssueTitles(s.issues); }
    assert ColumnsWellFormed(r) by {
      assert ColumnsWellFormed(s);
      assert TitlesFit(r.issues) by { assert TitlesFit(s.issues); }
      assert ContentsAccepted(r.comments) by { assert ContentsAccepted(s.comments); }
    }
    DropIssuesKeepsReferences(s, gone);
  }

  lemma DropIssuesKeepsReferences(s: Db, gone: set<nat>)
    requires ReferencesLive(s)
    ensures ReferencesLive(DropIssues(s, gone))
  {
    var r := DropIssues(s, gone);
    assert IssuesReferenceParents(r.issues, r.projects, r.users) by {
      assert IssuesReferenceParents(s.issues, s.projects, s.users);
    }
    assert CommentsReferenceParents(r.comments, r.issues, r.users) by {
      assert CommentsReferenceParents(s.comments, s.issues, s.users);
      forall k | k in r.comments ensures r.comments[k].issueId in r.issues {
        assert s.comments[k].issueId in s.issues;
      }
    }
  }

  /** The issues of one project; deleting the project deletes these. */
  function IssuesOfProject(s: Db, projectId: nat): (gone: set<nat>)
    ensures forall k :: k in gone <==> k in s.issues && s.issues[k].projectId == projectId
  {
    set k | k in s.issues && s.issues[k].projectId == projectId
  }

  /** Deleting a user row: ON DELETE CASCADE on projects.owner_id,
      issues.reporter_id, issues.assignee_id and comments.author_id removes the
      user's projects, every issue in them, every issue the user reported or is
      assigned to, and every comment on a removed issue or by the user. */
  function DropUser(s: Db, uid: nat): (r: Db)
    ensures r.nextId == s.nextId
    ensures forall k :: k in r.users <==> k in s.users && k != uid
    ensures forall k :: k in r.projects <==> k in s.projects && s.projects[k].ownerId != uid
    ensures forall k :: k in r.issues <==>
      && k in s.issues
      && !(s.issues[k].projectId in s.projects && s.projects[s.issues[k].projectId].ownerId == uid)
      && s.issues[k].reporterId != uid && s.issues[k].assigneeId != Some(uid)
    ensures forall k :: k in r.comments <==>
      && k in s.comments && s.comments[k].authorId != uid && s.comments[k].issueId in r.issues
    ensures forall k :: k in r.users ==> r.users[k] == s.users[k]
    ensures forall k :: k in r.projects ==> r.projects[k] == s.projects[k]
    ensures forall k :: k in r.issues ==> r.issues[k] == s.issues[k]
    ensures forall k :: k in r.comments ==> r.comments[k] == s.comments[k]
  {
    var owned := set k | k in s.projects && s.projects[k].ownerId == uid;
    var gone := set k | k in s.issues &&
      (s.issues[k].projectId in owned || s.issues[k].reporterId == uid || s.issues[k].assigneeId == Some(uid));
    var issues := s.issues - gone;
    s.(users := s.users - {uid},
       projects := s.projects - owned,
       issues := issues,
       comments := map k | k in s.comments && s.comments[k].authorId != uid && s.comments[k].issueId in issues
                     :: s.comments[k])
  }

  /** The cascade leaves the store valid. */
  lemma DropUserValid(s: Db, uid: nat)
    requires Valid(s)
    ensures Valid(DropUser(s, uid))
  {
    DropUserKeepsReferences(s, uid);
    DropUserKeepsRows(s, uid);
  }

  /** The cascade leaves no dangling reference behind. */
  lemma DropUserKeepsReferences(s: Db, uid: nat)
    requires ReferencesLive(s)
    ensures ReferencesLive(DropUser(s, uid))
  {
    var r := DropUser(s, uid);
    assert ProjectsReferenceOwners(r.projects, r.users) by {
      assert ProjectsReferenceOwners(s.projects, s.users);
      forall k | k in r.projects ensures r.projects[k].ownerId in r.users {
        assert s.projects[k].ownerId in s.users;
      }
    }
    assert IssuesReferenceParents(r.issues, r.projects, r.users) by {
      assert IssuesReferenceParents(s.issues, s.projects, s.users);
      forall k | k in r.issues
        ensures r.issues[k].projectId in r.projects && r.issues[k].reporterId in r.users
        ensures r.issues[k].assigneeId.Some? ==> r.issues[k].assigneeId.value in r.users
      {
        assert s.issues[k].projectId in s.projects && s.issues[k].reporterId in s.users;
      }
    }
    assert CommentsReferenceParents(r.comments, r.issues, r.users) by {
      assert CommentsReferenceParents(s.comments, s.issues, s.users);
      forall k | k in r.comments ensures r.comments[k].issueId in r.issues && r.comments[k].authorId in r.users {
        assert s.comments[k].authorId in s.users;
      }
    }
  }

  /** Removing rows keeps keys, unique constraints and column constraints. */
  lemma DropUserKeepsRows(s: Db, uid: nat)
    requires Valid(s)
    ensures var r := DropUser(s, uid);
      && KeysConsistent(r) && UniqueUsernames(r.users) && UniqueProjectNames(r.projects)
      && UniqueIssueTitles(r.issues) && ColumnsWellFormed(r)
  {
    DropUserKeepsKeys(s, uid);
    DropUserKeepsUnique(s, uid);
    DropUserKeepsColumns(s, uid);
  }

  lemma DropUserKeepsKeys(s: Db, uid: nat)
    requires KeysConsistent(s)
    ensures KeysConsistent(DropUser(s, uid))
  {
    var r := DropUser(s, uid);
    assert UserKeys(r.users, r.nextId) by { assert UserKeys(s.users, s.nextId); }
    assert ProjectKeys(r.projects, r.nextId) by { assert ProjectKeys(s.projects, s.nextId); }
    assert IssueKeys(r.issues, r.nextId) by { assert IssueKeys(s.issues, s.nextId); }
    assert CommentKeys(r.comments, r.nextId) by { assert CommentKeys(s.comments, s.nextId); }
  }

  lemma DropUserKeepsUnique(s: Db, uid: nat)
    requires UniqueUsernames(s.users) && UniqueProjectNames(s.projects) && UniqueIssueTitles(s.issues)
    ensures var r := DropUser(s, uid);
      UniqueUsernames(r.users) && UniqueProjectNames(r.projects) && UniqueIssueTitles(r.issues)
  {
  }

  lemma DropUserKeepsColumns(s: Db, uid: nat)
    requires ColumnsWellFormed(s)
    ensures ColumnsWellFormed(DropUser(s, uid))
  {
    var r := DropUser(s, uid);
    assert NamesFit(r.projects) by { assert NamesFit(s.projects); }
    assert TitlesFit(r.issues) by { assert TitlesFit(s.issues); }
    assert ContentsAccepted(r.comments) by { assert ContentsAccepted(s.comments); }
  }

  // ---------------------------------------------------------------------------
  // ORDER BY id: the ids of the rows a filter keeps, in id order.
  // ---------------------------------------------------------------------------

  /** The ids below `n` of the rows of `m` that `keep` selects, largest first. */
  function IdsDescBelow<T>(m: map<nat, T>, keep: T -> bool, n: nat): (r: seq<nat>)
    ensures forall i :: 0 <= i < |r| ==> r[i] in m && keep(m[r[i]]) && r[i] < n
    ensures forall i, j :: 0 <= i < j < |r| ==> r[i] > r[j]
    ensures forall k :: k in m && k < n && keep(m[k]) ==> k in r
  {
    if n == 0 then []
    else
      var rest := IdsDescBelow(m, keep, n - 1);
      if n - 1 in m && keep(m[n - 1]) then [n - 1] + rest else rest
  }

  /** The ids below `n` of the rows of `m`, smallest first. */
  function IdsAscBelow<T>(m: map<nat, T>, n: nat): (r: seq<nat>)
    ensures forall i :: 0 <= i < |r| ==> r[i] in m && r[i] < n
    ensures forall i, j :: 0 <= i < j < |r| ==> r[i] < r[j]
    ensures forall k :: k in m && k < n ==> k in r
  {
    if n == 0 then []
    else
      var rest := IdsAscBelow(m, n - 1);
      if n - 1 in m then rest + [n - 1] else rest
  }

  /** The rows stored under the given ids, in the same order. */
  function Rows<T>(m: map<nat, T>, ids: seq<nat>): (r: seq<T>)
    requires forall i :: 0 <= i < |ids| ==> ids[i] in m
    ensures |r| == |ids|
    ensures forall i :: 0 <= i < |r| ==> r[i] == m[ids[i]]
  {
    seq(|ids|, i requires 0 <= i < |ids| => m[ids[i]])
  }

  // ---------------------------------------------------------------------------
  // The session: the four tables and the id sequence, updated in place by the
  // handlers that add, change or delete rows.
  // ---------------------------------------------------------------------------

  class Database {
    var users: map<nat, User>
    var projects: map<nat, Project>
    var issues: map<nat, Issue>
    var comments: map<nat, Comment>
    var nextId: nat

    /** The database's current contents as a value. */
    function State(): Db
      reads this
    {
      Db(users, projects, issues, comments, nextId)
    }

    constructor ()
      ensures State() == Empty
    {
      users, projects, issues, comments := map[], map[], map[], map[];
      nextId := 1;
    }
  }
}
