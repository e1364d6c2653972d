# Issue tracker: a verified model of the handlers and their store

This project models the request handlers of a small multi-tenant issue tracker
written with FastAPI and SQLAlchemy. Users register and log in with a bearer
token. They create projects, file issues in projects and comment on issues.
Ownership rules decide who may change or delete what.

The store is four id-keyed tables (users, projects, issues, comments) and one
id counter. `Store.Database` is a class holding them. It is the session the
handlers mutate in place. Each mutating handler is a module-level method
that takes the session as `db: Database` and may modify it. Its `ensures` ties the new state and the response to a step function
(`...Step(s, ...) : Step<T>`) on the value `Db`. The properties are proved
about those step functions: check order, error cases, partial update, scoped
uniqueness, cascades and the store invariant `Store.Valid`.

What `Store.Valid` covers:

- keys;
- unique usernames;
- unique (owner, name) for projects;
- unique (project, title) for issues;
- live foreign keys;
- the String(100) columns;
- validated comment content.

Read-only handlers are functions.

Authentication works the same way:

- `Deps.GetCurrentUser` resolves a token to a user.
- `Security` builds and decodes tokens.
- bcrypt and the JWT library are codec parameters. `Security.Sound` and
  `Security.Faithful` state the only behaviour assumed of them.
- Handlers that need a caller take the resolved `me: User`. The 401 path
  belongs to `Deps.GetCurrentUser`.

Modules follow the application's layout:

| module | models |
|---|---|
| `Http` | statuses and the error records |
| `Models` | the tables |
| `Schemas` | request bodies and the comment validator |
| `Store` | the constraints, cascades, ordered listings and the session class |
| `Security` | the token and password code |
| `Deps` | the token-to-user resolution |
| `Projects`, `Issues`, `Comments`, `Auth`, `Users` | one module per router |
| `Flows` | properties that span several requests |

At a few points the code does something other than what a reader of the
service's endpoint list would expect. The model follows the code:

- `issues.assignee_id` is a foreign key to `users.id`
  (app/models/issue.py:33). An assignee that does not exist therefore makes
  the commit fail: a 500 with the transaction rolled back. One would expect
  the assignee id to be stored unchecked.
- The code declares no authentication on these endpoints:
  - `GET /projects/{id}/issues`
  - `GET /issues/{id}/comments`
  - `GET /projects`
  - `GET /projects/{id}`, `GET /issues/{id}` and `GET /comments/{id}`

  `Issues.ListProjectIssues`, `Comments.ListComments`,
  `Projects.ListProjects`, `Projects.GetOneProject`, `Issues.GetIssue` and
  `Comments.GetOneComment` take no caller. The two listings of issues and
  comments are said to need bearer authentication. `GET /users` and `GET /users/{id}` do declare
  get_current_user as a guard, and `Users.ListUsers` and `Users.GetUser`
  take the token and answer its 401 first.
- A token without a subject is read as user "0" (app/deps.py:22). No row has
  that id, so the result is the 401 a token without a subject is expected
  to get, reached by a different route (`Deps.MissingSubjectRejected`).
- The 403 details are kept as the code spells them:
  - "Now allowed" for patching and deleting an issue and for deleting a
    comment;
  - "Not allowed" for patching a comment.

## Model

| member | source | states |
|---|---|---|
| Models.ParseStatus | app/models/issue.py:8-10 | a status is accepted exactly when it is the literal "open" or "closed", and the accepted value prints back as that literal |
| Models.ParsePriority | app/models/issue.py:12-15 | a priority is accepted exactly when it is "low", "medium" or "high", and prints back as that literal |
| Models.LiteralsRoundTrip | app/schemas/issue.py:8-9 | every status and priority value is read back from its own literal |
| Schemas.IssueCreateWithTitle | app/schemas/issue.py:5-10 | a create body with only a title has desc "", status open, priority medium and no assignee |
| Schemas.ProjectCreateWithName | app/schemas/project.py:4-6 | a name-only body has that name and desc "" |
| Schemas.SkipLeading | app/schemas/comment.py:10 | the returned index ends a run of whitespace and sits on a non-whitespace character or at the end |
| Schemas.SkipTrailing | app/schemas/comment.py:10 | the returned index starts a trailing run of whitespace and follows a non-whitespace character or the lower bound |
| Schemas.Strip | app/schemas/comment.py:10 | the result has no whitespace at either end, is a contiguous piece of the input bordered only by whitespace, and is empty exactly when the input is all whitespace |
| Schemas.ValidateContent | app/schemas/comment.py:9-13 | accepts exactly the inputs that are not all whitespace, returning non-empty stripped text framed by the input, otherwise the 422 "Content cannot be empty" |
| Schemas.StripNoEdgeSpace | app/schemas/comment.py:10 | text with no whitespace at either end is returned unchanged by strip |
| Schemas.ValidateIdempotent | app/schemas/comment.py:9-13 | validating accepted content again returns the same content |
| Schemas.AcceptedIsFixedPoint | app/schemas/comment.py:9-13 | content is acceptable as stored exactly when the validator maps it to itself |
| Store.EmptyValid | app/models/issue.py:19-33 | the empty store satisfies every key, uniqueness, foreign-key and column constraint |
| Store.NextIdFresh | app/models/project.py:15 | the next id is not yet used in any table |
| Store.DropIssues | app/models/comment.py:15 | removing issues removes exactly those issues and every comment on them, and nothing else |
| Store.DropIssuesValid | app/models/comment.py:15 | the issue-to-comment cascade leaves no dangling comment and keeps the store valid |
| Store.IssuesOfProject | app/models/issue.py:31 | the issues the project cascade removes are exactly those whose project is the deleted one |
| Store.DropUser | app/models/project.py:19 | deleting a user removes their projects, the issues in them, the issues they reported or are assigned to, and the comments on removed issues or by them (app/models/issue.py:31-33, app/models/comment.py:15-16) |
| Store.DropUserValid | app/models/issue.py:31-33 | the user cascade keeps every constraint of the store |
| Store.DropUserKeepsReferences | app/models/comment.py:15-16 | after the user cascade every owner, project, reporter, assignee, issue and author reference is live |
| Store.DropUserKeepsRows | app/models/project.py:11-13 | the user cascade keeps keys, the unique constraints and the column constraints |
| Store.DropUserKeepsKeys | app/models/project.py:15 | the user cascade keeps each row under its own id |
| Store.DropUserKeepsUnique | app/models/issue.py:19-21 | the user cascade keeps the (title, project) and (owner, name) constraints and unique usernames |
| Store.DropUserKeepsColumns | app/models/issue.py:25 | the user cascade keeps the String(100) widths and accepted comment content |
| Store.ProjectRowAccepted | app/models/project.py:16 | in a store whose names fit, a projects row passes the commit exactly when writing it keeps every name within 100 characters |
| Store.IssueRowAccepted | app/models/issue.py:25-33 | in a store whose titles fit and whose issues reference live rows, an issues row with a live project and reporter passes the commit exactly when writing it keeps every title within 100 characters and every assignee a stored user |
| Store.IdsDescBelow | app/routers/issues.py:33-38 | the ids of exactly the selected rows, strictly decreasing |
| Store.IdsAscBelow | app/routers/users.py:37 | the ids of exactly the stored rows, strictly increasing |
| Store.Rows | app/routers/projects.py:27 | the rows stored under the given ids, in the same order |
| Store.Database.constructor | app/models/project.py:15 | a new database is empty with ids starting at 1 |
| Security.SettingsWithDefaults | app/core/config.py:7-8 | ALGORITHM defaults to "HS256" and the token lifetime to 60 minutes |
| Security.Load | app/core/security.py:15-16 | the service starts exactly when SECRET_KEY is non-empty, and otherwise refuses with "SECRET_KEY not set in environment!" |
| Security.Decimal | app/core/security.py:32 | str(user_id) is a non-empty string of digits without a leading zero |
| Security.TokenPayload | app/core/security.py:28-36 | the subject is the decimal id, iat and nbf are the issue time, and exp is 60 times the minutes later |
| Security.DecodeToken | app/core/security.py:39-53 | an expired token is the 401 "Token expired", any other decode failure the 401 "Invalid token", both with the bearer challenge, and a good token yields its claims |
| Security.CreateToken | app/core/security.py:28-37 | the token is the payload of TokenPayload signed with SECRET_KEY and ALGORITHM, and a faithful decoder given that key reads back exactly those claims, subject to nbf and exp, at any time |
| Security.FreshTokenDecodes | app/core/security.py:28-41 | an issued token decodes to the payload it was given at any time from issue to expiry |
| Security.StaleTokenExpired | app/core/security.py:41-47 | after expiry the same token is the 401 "Token expired" |
| Deps.ParseDecimal | app/deps.py:22 | int(sub) succeeds exactly on non-empty digit strings |
| Deps.DecimalRoundTrip | app/deps.py:22 | int(str(n)) == n for every non-negative n |
| Deps.GetCurrentUser | app/deps.py:16-28 | the user is returned exactly when the token decodes, its subject (or "0") parses, and that id is stored; the user is the row under that id; every failure is the one 401 "Could not validate credentials" with the bearer challenge |
| Deps.ResolvedUserMatchesSubject | app/deps.py:25-28 | in a consistent store the resolved user's id is int(sub) |
| Deps.MissingSubjectRejected | app/deps.py:22-27 | a decoded token without "sub" is looked up as user 0 and rejected with the generic 401 |
| Deps.DecodeFailureCollapses | app/deps.py:20-24 | an expired or invalid token gives the generic 401, not the decoder's own detail |
| Deps.IssuedTokenResolves | app/deps.py:16-28 | a token issued for a stored user resolves to that user until it expires |
| Deps.GetCurrentUserId | app/deps.py:30-33 | the authenticated user's id, or the same 401 |
| Deps.GetCurrentUserUsername | app/deps.py:35-38 | the authenticated user's username, or the same 401 |
| Projects.CreateProjectStep | app/routers/projects.py:16-23 | 409 exactly when the caller owns a project of that name; success exactly when the name is free for the caller and fits 100 characters; a free name longer than that fails the commit with 500; the new row has the caller as owner and the body's name and desc; a failure leaves the store unchanged |
| Projects.CreateProject | app/routers/projects.py:13-23 | the session ends in the step function's state and returns its response |
| Projects.CreateProjectPreservesValid | app/routers/projects.py:16-23 | creating a project keeps the store valid |
| Projects.SameNameDifferentOwners | app/models/project.py:11-13 | a project name taken by one owner stays available to another |
| Projects.SameNameSameOwnerConflicts | app/routers/projects.py:16-18 | the same owner creating the same name twice gets 409 the second time |
| Projects.CreatedProjectDefaultDesc | app/routers/projects.py:19-23 | a name-only body stores, and returns, a project with desc "" |
| Projects.ListProjects | app/routers/projects.py:25-27 | every stored project and only those, ids strictly decreasing |
| Projects.GetOneProject | app/routers/projects.py:29-34 | the stored project, or 404 "Project not found" exactly when absent |
| Projects.DeleteProjectStep | app/routers/projects.py:39-46 | 404 before 403 "Only project owner can delete a project"; success exactly for the owner, removing the project and cascading to its issues and their comments; a failure leaves the store unchanged |
| Projects.DeleteProject | app/routers/projects.py:36-46 | the session ends in the step function's state and returns its response |
| Projects.DeleteProjectCascades | app/routers/projects.py:44-45 | after deletion the project, its issues and their comments are gone, everything else stays, and reading the project is 404 |
| Projects.DeleteProjectPreservesValid | app/models/issue.py:31 | deleting a project keeps the store valid |
| Issues.CreateIssueStep | app/routers/issues.py:18-26 | 404 for a missing project before 409 for a taken title; success exactly when the project exists, the title is free in it and the row is accepted; a row the commit refuses (a title over 100 characters, an assignee that is not a user) is 500; the new row copies the body and takes the path project and the caller as reporter; a failure leaves the store unchanged |
| Issues.CreateIssue | app/routers/issues.py:15-26 | the session ends in the step function's state and returns its response |
| Issues.CreateIssuePreservesValid | app/routers/issues.py:20-25 | creating an issue keeps the store valid |
| Issues.InsertIssueValid | app/models/issue.py:19-33 | adding a row with live references and a free title keeps every constraint |
| Issues.SameTitleOtherProject | tests/test_issues.py:42-57 | a title just created in one project can be created, with 201, in another existing project where it is free |
| Issues.SameTitleSameProjectConflicts | app/routers/issues.py:20-22 | the same title twice in one project gives 409 the second time |
| Issues.CreatedIssueDefaults | app/models/issue.py:26-28 | a title-only body stores status open, priority medium, desc "" and no assignee |
| Issues.ListProjectIssues | app/routers/issues.py:31-38 | 404 exactly when the project is absent; otherwise exactly that project's issues, ids strictly decreasing |
| Issues.GetIssue | app/routers/issues.py:43-46 | the stored issue, or 404 "Issue not found" exactly when absent |
| Issues.PatchIssueStep | app/routers/issues.py:51-78 | 404, then 403 for a non-reporter, then 409 exactly when a changed title is taken by another issue of the project; success otherwise when the row is accepted, and 500 when the commit refuses the patched row; the response is the patched issue; a failure leaves the store unchanged |
| Issues.Patched | app/routers/issues.py:68-76 | each field supplied in the body replaces the stored one and each one left out keeps its value; id, project and reporter never change; an assignee once set is never cleared; the empty body changes nothing |
| Issues.PatchIssue | app/routers/issues.py:48-78 | the field-by-field assignments end in the step function's state and response |
| Issues.PatchChangesOnlySuppliedFields | app/routers/issues.py:69-76 | only the supplied fields change; id, project and reporter stay; assignee is never cleared; other issues and tables are untouched |
| Issues.EmptyPatchIsNoOp | app/schemas/issue.py:12-17 | the empty body from the reporter returns the issue and changes nothing |
| Issues.ResentTitleNeverConflicts | app/routers/issues.py:56 | sending the current title never yields 409 |
| Issues.PatchIssuePreservesValid | app/routers/issues.py:56-77 | patching keeps the store valid |
| Issues.ReplaceIssueValid | app/models/issue.py:19-33 | rewriting an issue in place with its project and reporter and a free title keeps every constraint |
| Issues.ReplaceIssueKeepsReferences | app/models/issue.py:31-33 | rewriting an issue in place keeps keys, references and column widths |
| Issues.ReplaceIssueKeepsTitlesUnique | app/models/issue.py:19-21 | a title no other issue of the project has keeps titles unique per project |
| Issues.DeleteIssueStep | app/routers/issues.py:83-90 | 404 before 403; success exactly for the reporter, removing the issue and its comments; a failure leaves the store unchanged |
| Issues.DeleteIssue | app/routers/issues.py:80-90 | the session ends in the step function's state and returns its response |
| Issues.DeleteIssueRemovesExactlyIt | app/routers/issues.py:88-89 | the issue and its comments are gone, every other issue stays, and reading it is 404 |
| Issues.DeleteIssuePreservesValid | app/models/comment.py:15 | deleting an issue keeps the store valid |
| Comments.CreateCommentStep | app/routers/comments.py:17-23 | 422 for blank content before 404 for a missing issue; success exactly for accepted content on a stored issue; the row has the caller as author, the path issue and the stripped content; a failure leaves the store unchanged |
| Comments.CreateComment | app/routers/comments.py:16-23 | the session ends in the step function's state and returns its response |
| Comments.CreateCommentPreservesValid | app/routers/comments.py:19-22 | creating a comment keeps the store valid |
| Comments.InsertCommentValid | app/models/comment.py:15-16 | adding a comment with live references and accepted content keeps every constraint |
| Comments.InsertCommentRow | app/models/comment.py:11-16 | the comment table's keys, references and content stay valid after the insert |
| Comments.WithCommentsValid | app/models/comment.py:15-16 | a comment table meeting its own constraints keeps the whole store valid |
| Comments.ListComments | app/routers/comments.py:28-31 | 404 exactly when the issue is absent; otherwise exactly that issue's comments, ids strictly decreasing |
| Comments.GetOneComment | app/routers/comments.py:35-38 | the stored comment, or 404 "Comment not found" exactly when absent |
| Comments.PatchCommentStep | app/routers/comments.py:41-50 | 422, then 404, then 403 "Not allowed" for a non-author; success replaces the content with the stripped text; a failure leaves the store unchanged |
| Comments.PatchComment | app/routers/comments.py:40-50 | the session ends in the step function's state and returns its response |
| Comments.PatchCommentChangesOnlyContent | app/routers/comments.py:48 | only the content changes, to the validated text; issue, author, other comments and other tables stay |
| Comments.PatchCommentPreservesValid | app/routers/comments.py:48-49 | patching a comment keeps the store valid |
| Comments.ReplaceCommentRow | app/schemas/comment.py:15 | replacing a comment's content with accepted text keeps the comment table's constraints |
| Comments.DeleteCommentStep | app/routers/comments.py:55-62 | 404 before 403 "Now allowed"; success exactly for the author, removing that comment only; a failure leaves the store unchanged |
| Comments.DeleteComment | app/routers/comments.py:52-62 | the session ends in the step function's state and returns its response |
| Comments.DeleteCommentRemovesExactlyIt | app/routers/comments.py:60-61 | exactly that comment is gone and reading it is 404 |
| Comments.DeleteCommentPreservesValid | app/routers/comments.py:60-61 | deleting a comment keeps the store valid |
| Auth.FindUsername | app/routers/auth.py:33 | a found id holds that username; none found means no id below the bound holds it |
| Auth.UserByUsername | app/routers/auth.py:33 | in a consistent store a user is found exactly when one has that username, and it is a stored row of that name |
| Auth.UserByUsernameUnique | app/routers/auth.py:15 | with unique usernames the lookup finds the one user of that name |
| Auth.RegisterStep | app/routers/auth.py:15-26 | 409 "Username already registered" exactly when the username exists, leaving the store unchanged; otherwise 201 with a new row holding the username and hash_pw(password) under the next id |
| Auth.Register | app/routers/auth.py:13-26 | the session ends in the step function's state and returns its response |
| Auth.RegisterPreservesValid | app/routers/auth.py:15-23 | registration keeps usernames unique and the store valid |
| Auth.Login | app/routers/auth.py:33-39 | the one 401 "Invalid credentials" for an unknown username and for a wrong password; success exactly when the user exists and verifies, with a bearer token for that user's id; the store is not an output |
| Users.GetMe | app/routers/users.py:18-20 | 200 with exactly the user get_current_user resolves (a stored row, for a token that decodes), and its 401 exactly when it fails |
| Users.ChangePasswordStep | app/routers/users.py:28-33 | 400 "Old password is incorrect" exactly when the old password does not verify, leaving the store unchanged; otherwise 204 with the caller's hash replaced by hash_pw(new_password) |
| Users.ChangePassword | app/routers/users.py:22-33 | the session ends in the step function's state and returns its response |
| Users.ChangePasswordTouchesOnlyOwnHash | app/routers/users.py:30-32 | only the caller's hash changes; other users, ids, usernames and other tables stay |
| Users.ChangePasswordPreservesValid | app/routers/users.py:30-32 | a password change keeps the store valid |
| Users.UsersById | app/routers/users.py:37 | every stored user and only those, ids strictly increasing |
| Users.ListUsers | app/routers/users.py:35-37 | the 401 "Could not validate credentials" exactly when the token does not resolve; otherwise 200 with every stored user and only those, ids strictly increasing |
| Users.GetUser | app/routers/users.py:39-47 | the 401 for a token that does not resolve, before any lookup; otherwise the stored user, or 404 "User not found" exactly when absent |
| Flows.RegisterThenLogin | tests/test_auth.py:3-10 | after registering, logging in with the same password returns a bearer token for the new id |
| Flows.RegisterLoginMe | tests/test_auth.py:3-14 | register, log in, then /users/me returns the registered user |
| Flows.RegisterTwiceConflicts | tests/test_auth.py:16-19 | registering the same username again is 409 and changes nothing |
| Flows.LoginFailuresIndistinguishable | app/routers/auth.py:34-35 | an unknown username and a wrong password give the identical response |
| Flows.LoginTokenAuthenticates | app/routers/auth.py:38 | the login token authenticates, until it expires, a user with the username that logged in |
| Flows.ChangePasswordThenLogin | tests/test_auth.py:21-29 | after a change the new password logs in and an old password that does not match the new hash gets 401 |
| Flows.TokensSurvivePasswordChange | app/routers/users.py:30-32 | a change of password does not revoke tokens: each resolves to the same user, by id and username, before and after |

## Left out

- bcrypt and the JWT library: they are foreign code. `Security.PasswordCodec` and `Security.TokenCodec` are parameters. Only `Security.Sound` (a password verifies against its own hash) and `Security.Faithful` (a service token decodes to its claims, is invalid before nbf and expired after exp) are assumed, and lemmas that rely on them name them in `requires`.
- The clock and the bcrypt salt: they are parameters (`now` in whole seconds, `salt`).
- Sessions, transactions and concurrency: the store is sequential. The application-level existence checks therefore always see the same rows the unique constraints would. Concurrent inserts that only the database constraint would catch are not modelled.
- Per-table id sequences: one shared counter hands out ids. Sequence values consumed by a rolled-back insert are not modelled.
- created_at and updated_at: the database clock sets them, and they are not part of any row here.
- app/main.py, the /health endpoint and app/core/config.py's environment loading are not part of this model. Only the two defaults and the secret-key check are kept.
- OAuth2PasswordBearer header extraction: the model starts from the token string. A request without the header, which the framework rejects, is not modelled.
- Deps.ParseDecimal: Python's int() also accepts a sign, surrounding whitespace and underscores. The model accepts plain digit strings only, so tokens with such subjects are counted as 401 here.
- Request-body validation by the framework beyond the comment validator: malformed JSON, missing fields and enum literals outside the fixed sets give a 422 before a handler runs. The model takes those bodies already typed (`Models.ParseStatus` and `Models.ParsePriority` state which literals pass).
- IssueRead, CommentRead and ProjectRead response shapes: a handler returns the stored row, and the serialised view of it is not modelled.
- The 422 body of the comment validator: the model's detail is the bare message "Content cannot be empty". FastAPI wraps the validator's ValueError in a list of errors whose msg reads "Value error, Content cannot be empty"; that envelope is not modelled.
- Store.ProjectRowAccepted, Store.IssueRowAccepted: the model assumes a database that enforces String(100) strictly and refuses every longer value with a failed commit. Which database runs is not part of this model (only a DATABASE_URL is configured). PostgreSQL instead cuts a varchar(100) value whose extra characters are all spaces to 100 characters and stores it, so a name of 100 letters and a trailing space gets 201 there and 500 here; SQLite checks no width, so over-long names and titles are stored there.
- app/models/user.py, app/schemas/user.py and app/db/session.py are not part of this model. A user is an id, a username and a password hash. Unique usernames are kept by the register check (`Store.UniqueUsernames`).
- Deleting a user: no handler does it. The schema's cascade is modelled as `Store.DropUser` and proved to keep the store valid, but no endpoint calls it.
- The authentication requirement of the protected endpoints: `Deps.GetCurrentUser` models it. The handlers that receive the current user as a parameter (creating, patching and deleting, and the password change) take the resolved `me: User`, so the 401 they return before their own checks is that function's failure. `Users.GetMe`, `Users.ListUsers` and `Users.GetUser` take the token instead and state that 401 themselves.
- Users.ChangePasswordStep: requires the caller's row to be stored. get_current_user guarantees this, and the model does not restate the 401 path.
- Ids are `nat` where FastAPI and SQLAlchemy take any int: path ids, `assignee_id` and the token subject. Every stored id is positive (`Store.KeysConsistent`), so a negative path id is simply absent and its handler answers the same 404 as for any other missing id, and a negative `assignee_id` names no user and fails the commit with the same 500. The model does not write these inputs out as separate values.
- Database failures other than the String(100) widths and the assignee foreign key, such as a lost connection, are not modelled.
