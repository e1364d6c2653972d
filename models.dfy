/** The four tables of the tracker (the app.models package) and the value of the whole
    store. A user is reduced to its id, username and password hash; the rest of
    app/models/user.py is not part of this model. */
module Models {
  import opened Http

  /** IssueStatus, a string enum with the literals "open" and "closed". */
  datatype IssueStatus = Open | Closed

  /** IssuePriority, a string enum with the literals "low", "medium", "high". */
  datatype IssuePriority = Low | Medium | High

  function StatusLiteral(st: IssueStatus): string
  {
    match st
    case Open => "open"
    case Closed => "closed"
  }

  function PriorityLiteral(p: IssuePriority): string
  {
    match p
    case Low => "low"
    case Medium => "medium"
    case High => "high"
  }

  /** The string-to-enum conversion applied to request bodies and to the
      enum columns (validate_strings): only the exact literals are accepted. */
  function ParseStatus(s: string): (r: Option<IssueStatus>)
    ensures r.Some? <==> (s == "open" || s == "closed")
    ensures r.Some? ==> StatusLiteral(r.value) == s
  {
    if s == "open" then Some(Open)
    else if s == "closed" then Some(Closed)
    else None
  }

  function ParsePriority(s: string): (r: Option<IssuePriority>)
    ensures r.Some? <==> (s == "low" || s == "medium" || s == "high")
    ensures r.Some? ==> PriorityLiteral(r.value) == s
  {
    if s == "low" then Some(Low)
    else if s == "medium" then Some(Medium)
    else if s == "high" then Some(High)
    else None
  }

  /** Every enum value is read back from its own literal. */
  lemma LiteralsRoundTrip(st: IssueStatus, p: IssuePriority)
    ensures ParseStatus(StatusLiteral(st)) == Some(st)
    ensures ParsePriority(PriorityLiteral(p)) == Some(p)
  {
  }

  /** Column defaults of the issues table. */
  const DefaultStatus: IssueStatus := Open
  const DefaultPriority: IssuePriority := Medium

  /** Width of the String(100) columns issues.title and projects.name. */
  const MaxNameLength := 100

  datatype User = User(id: nat, username: string, passwordHash: string)

  /** A row of `projects`; desc defaults to "". */
  datatype Project = Project(id: nat, name: string, desc: string, ownerId: nat)

  /** A row of `issues`; assignee_id is the only nullable reference. */
  datatype Issue = Issue(
    id: nat,
    title: string,
    desc: string,
    status: IssueStatus,
    priority: IssuePriority,
    projectId: nat,
    reporterId: nat,
    assigneeId: Option<nat>)

  /** A row of `comments`: content, its issue and its author, all non-null. */
  datatype Comment = Comment(id: nat, content: string, issueId: nat, authorId: nat)

  /** The database: four id-keyed tables and the source of fresh ids. */
  datatype Db = Db(
    users: map<nat, User>,
    projects: map<nat, Project>,
    issues: map<nat, Issue>,
    comments: map<nat, Comment>,
    nextId: nat)
}
