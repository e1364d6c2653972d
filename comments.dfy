/** The comment endpoints (app/routers/comments.py). The raw `content` of the
    body goes through CommentCreate's validator before the handler runs, so a
    rejected body is a 422 ahead of every check the handler makes. `me` is the
    user that get_current_user resolved. */
module Comments {
  import opened Http
  import opened Models
  import opened Schemas
  import opened Store
  import Issues

  const CommentNotFound := Error(NotFound, "Comment not found")
  /** The 403 details of patch_comment and delete_comment, spelled as in the source. */
  const PatchNotAuthorError := Error(Forbidden, "Not allowed")
  const DeleteNotAuthorError := Error(Forbidden, "Now allowed")

  // ---------------------------------------------------------------------------
  // POST /issues/{issue_id}/comments
  // ---------------------------------------------------------------------------

  function CreateCommentStep(s: Db, issueId: nat, content: string, me: User): (r: Step<Comment>)
    ensures r.out.Failure? ==> r.db == s
    ensures AllSpace(content) ==> r.out == Failure(Error(Unprocessable, "Content cannot be empty"))
    ensures !AllSpace(content) && issueId !in s.issues ==> r.out == Failure(Issues.IssueNotFound)
    ensures r.out.Success? <==> !AllSpace(content) && issueId in s.issues
    ensures r.out.Success? ==>
      && r.out.status == Created
      && var c := r.out.value;
         && c.id == s.nextId && c.issueId == issueId && c.authorId == me.id
         && c.content == Strip(content) && AcceptedContent(c.content)
         && r.db == s.(comments := s.comments[c.id := c], nextId := s.nextId + 1)
  {
    match ValidateContent(content)
    case Err(e) => Step(s, Failure(e))
    case Ok(text) =>
      if issueId !in s.issues then Step(s, Failure(Issues.IssueNotFound))
      else
        var c := Comment(s.nextId, text, issueId, me.id);
        Step(s.(comments := s.comments[c.id := c], nextId := s.nextId + 1), Success(Created, c))
  }

  method CreateComment(db: Database, issueId: nat, content: string, me: User) returns (out: Outcome<Comment>)
    modifies db
    ensures var r := CreateCommentStep(old(db.State()), issueId, content, me); db.State() == r.db && out == r.out
  {
    var payload := ValidateContent(content);
    if payload.Err? {
      return Failure(payload.error);
    }
    if issueId !in db.issues {
      return Failure(Issues.IssueNotFound);
    }
    var c := Comment(db.nextId, payload.value, issueId, me.id);
    db.comments := db.comments[c.id := c];
    db.nextId := db.nextId + 1;
    out := Success(Created, c);
  }

  lemma CreateCommentPreservesValid(s: Db, issueId: nat, content: string, me: User)
    requires Valid(s) && me.id in s.users
    ensures Valid(CreateCommentStep(s, issueId, content, me).db)
  {
    var r := CreateCommentStep(s, issueId, content, me);
    if r.out.Success? {
      InsertCommentValid(s, r.out.value);
    }
  }

  lemma InsertCommentValid(s: Db, c: Comment)
    requires Valid(s)
    requires c.id == s.nextId && c.issueId in s.issues && c.authorId in s.users && AcceptedContent(c.content)
    ensures Valid(s.(comments := s.comments[c.id := c], nextId := s.nextId + 1))
  {
    InsertCommentRow(s.comments, s.issues, s.users, s.nextId, c);
    WithCommentsValid(s, s.comments[c.id := c], s.nextId + 1);
  }

  /** Adding the row under the next id keeps the comment table's own constraints. */
  lemma InsertCommentRow(comments: map<nat, Comment>, issues: map<nat, Issue>, users: map<nat, User>, next: nat, c: Comment)
    requires CommentKeys(comments, next) && CommentsReferenceParents(comments, issues, users) && ContentsAccepted(comments)
    requires c.id == next && 0 < next && c.issueId in issues && c.authorId in users && AcceptedContent(c.content)
    ensures var t := comments[c.id := c];
      CommentKeys(t, next + 1) && CommentsReferenceParents(t, issues, users) && ContentsAccepted(t)
  {
  }

  /** A store whose comment table is replaced by one that meets the comment
      constraints on its own is still valid. */
  lemma WithCommentsValid(s: Db, comments: map<nat, Comment>, next: nat)
    requires Valid(s) && s.nextId <= next
    requires CommentKeys(comments, next) && CommentsReferenceParents(comments, s.issues, s.users)
    requires ContentsAccepted(comments)
    ensures Valid(s.(comments := comments, nextId := next))
  {
    assert UserKeys(s.users, next) by { assert UserKeys(s.users, s.nextId); }
    assert ProjectKeys(s.projects, next) by { assert ProjectKeys(s.projects, s.nextId); }
    assert IssueKeys(s.issues, next) by { assert IssueKeys(s.issues, s.nextId); }
  }

  // ---------------------------------------------------------------------------
  // GET /issues/{issue_id}/comments and GET /comments/{comment_id}
  // ---------------------------------------------------------------------------

  /** The issue's comments, newest (highest id) first. */
  function ListComments(s: Db, issueId: nat): (r: Outcome<seq<Comment>>)
    ensures r.Failure? <==> issueId !in s.issues
    ensures r.Failure? ==> r.error == Issues.IssueNotFound
    ensures r.Success? ==> r.status == OkStatus
    ensures r.Success? && CommentKeys(s.comments, s.nextId) ==>
      var l := r.value;
      && (forall i :: 0 <= i < |l| ==> l[i].id in s.comments && s.comments[l[i].id] == l[i] && l[i].issueId == issueId)
      && (forall k :: k in s.comments && s.comments[k].issueId == issueId ==> s.comments[k] in l)
      && (forall i, j :: 0 <= i < j < |l| ==> l[i].id > l[j].id)
  {
    if issueId !in s.issues then Failure(Issues.IssueNotFound)
    else
      var ids := IdsDescBelow(s.comments, (c: Comment) => c.issueId == issueId, s.nextId);
      var rows := Rows(s.comments, ids);
      assert CommentKeys(s.comments, s.nextId) ==> forall i :: 0 <= i < |rows| ==> rows[i].id == ids[i] by {
        if CommentKeys(s.comments, s.nextId) {
          forall i | 0 <= i < |rows| ensures rows[i].id == ids[i] {
            assert rows[i] == s.comments[ids[i]];
          }
        }
      }
      assert CommentKeys(s.comments, s.nextId) ==>
        forall k :: k in s.comments && s.comments[k].issueId == issueId ==> s.comments[k] in rows by {
        if CommentKeys(s.comments, s.nextId) {
          forall k | k in s.comments && s.comments[k].issueId == issueId ensures s.comments[k] in rows {
            var i :| 0 <= i < |ids| && ids[i] == k;
            assert rows[i] == s.comments[k];
          }
        }
      }
      Success(OkStatus, rows)
  }

  function GetOneComment(s: Db, id: nat): (r: Outcome<Comment>)
    ensures r.Success? <==> id in s.comments
    ensures r.Success? ==> r == Success(OkStatus, s.comments[id])
    ensures r.Failure? ==> r.error == CommentNotFound
  {
    if id in s.comments then Success(OkStatus, s.comments[id]) else Failure(CommentNotFound)
  }

  // ---------------------------------------------------------------------------
  // PATCH /comments/{comment_id}
  // ---------------------------------------------------------------------------

  function PatchCommentStep(s: Db, id: nat, content: string, me: User): (r: Step<Comment>)
    ensures r.out.Failure? ==> r.db == s
    ensures AllSpace(content) ==> r.out == Failure(Error(Unprocessable, "Content cannot be empty"))
    ensures !AllSpace(content) && id !in s.comments ==> r.out == Failure(CommentNotFound)
    ensures !AllSpace(content) && id in s.comments && s.comments[id].authorId != me.id ==>
              r.out == Failure(PatchNotAuthorError)
    ensures r.out.Success? <==> !AllSpace(content) && id in s.comments && s.comments[id].authorId == me.id
    ensures r.out.Success? ==>
      && r.out == Success(OkStatus, s.comments[id].(content := Strip(content)))
      && r.db == s.(comments := s.comments[id := r.out.value])
  {
    match ValidateContent(content)
    case Err(e) => Step(s, Failure(e))
    case Ok(text) =>
      if id !in s.comments then Step(s, Failure(CommentNotFound))
      else if s.comments[id].authorId != me.id then Step(s, Failure(PatchNotAuthorError))
      else
        var c := s.comments[id].(content := text);
        Step(s.(comments := s.comments[id := c]), Success(OkStatus, c))
  }

  method PatchComment(db: Database, id: nat, content: string, me: User) returns (out: Outcome<Comment>)
    modifies db
    ensures var r := PatchCommentStep(old(db.State()), id, content, me); db.State() == r.db && out == r.out
  {
    var payload := ValidateContent(content);
    if payload.Err? {
      return Failure(payload.error);
    }
    if id !in db.comments {
      return Failure(CommentNotFound);
    }
    var c := db.comments[id];
    if c.authorId != me.id {
      return Failure(PatchNotAuthorError);
    }
    c := c.(content := payload.value);
    db.comments := db.comments[id := c];
    out := Success(OkStatus, c);
  }

  /** The author's patch replaces the content of one comment and nothing else. */
  lemma PatchCommentChangesOnlyContent(s: Db, id: nat, content: string, me: User)
    requires PatchCommentStep(s, id, content, me).out.Success?
    ensures var r := PatchCommentStep(s, id, content, me);
      var c := r.out.value;
      && c.id == s.comments[id].id && c.issueId == s.comments[id].issueId && c.authorId == s.comments[id].authorId
      && ValidateContent(content) == Ok(c.content)
      && r.db.comments.Keys == s.comments.Keys
      && (forall k :: k in s.comments && k != id ==> r.db.comments[k] == s.comments[k])
      && r.db.users == s.users && r.db.projects == s.projects && r.db.issues == s.issues
  {
  }

  lemma PatchCommentPreservesValid(s: Db, id: nat, content: string, me: User)
    requires Valid(s)
    ensures Valid(PatchCommentStep(s, id, content, me).db)
  {
    var r := PatchCommentStep(s, id, content, me);
    if r.out.Success? {
      var c := r.out.value;
      ReplaceCommentRow(s.comments, s.issues, s.users, s.nextId, id, c);
      WithCommentsValid(s, s.comments[id := c], s.nextId);
    }
  }

  /** Rewriting a comment's content in place keeps the comment table's own
      constraints when the new content is accepted. */
  lemma ReplaceCommentRow(
    comments: map<nat, Comment>, issues: map<nat, Issue>, users: map<nat, User>, next: nat, id: nat, c: Comment)
    requires CommentKeys(comments, next) && CommentsReferenceParents(comments, issues, users) && ContentsAccepted(comments)
    requires id in comments && c == comments[id].(content := c.content) && AcceptedContent(c.content)
    ensures var t := comments[id := c];
      CommentKeys(t, next) && CommentsReferenceParents(t, issues, users) && ContentsAccepted(t)
  {
  }

  // ---------------------------------------------------------------------------
  // DELETE /comments/{comment_id}
  // ---------------------------------------------------------------------------

  function DeleteCommentStep(s: Db, id: nat, me: User): (r: Step<Unit>)
    ensures r.out.Failure? ==> r.db == s
    ensures id !in s.comments ==> r.out == Failure(CommentNotFound)
    ensures id in s.comments && s.comments[id].authorId != me.id ==> r.out == Failure(DeleteNotAuthorError)
    ensures r.out.Success? <==> id in s.comments && s.comments[id].authorId == me.id
    ensures r.out.Success? ==> r == Step(s.(comments := s.comments - {id}), Success(NoContent, Unit))
  {
    if id !in s.comments then Step(s, Failure(CommentNotFound))
    else if s.comments[id].authorId != me.id then Step(s, Failure(DeleteNotAuthorError))
    else Step(s.(comments := s.comments - {id}), Success(NoContent, Unit))
  }

  method DeleteComment(db: Database, id: nat, me: User) returns (out: Outcome<Unit>)
    modifies db
    ensures var r := DeleteCommentStep(old(db.State()), id, me); db.State() == r.db && out == r.out
  {
    if id !in db.comments {
      return Failure(CommentNotFound);
    }
    if db.comments[id].authorId != me.id {
      return Failure(DeleteNotAuthorError);
    }
    db.comments := db.comments - {id};
    out := Success(NoContent, Unit);
  }

  /** The author's delete removes that comment only; reading it again is 404. */
  lemma DeleteCommentRemovesExactlyIt(s: Db, id: nat, me: User)
    requires DeleteCommentStep(s, id, me).out.Success?
    ensures var t := DeleteCommentStep(s, id, me).db;
      && t.comments.Keys == s.comments.Keys - {id}
      && (forall k :: k in t.comments ==> t.comments[k] == s.comments[k])
      && t.users == s.users && t.projects == s.projects && t.issues == s.issues
      && GetOneComment(t, id) == Failure(CommentNotFound)
  {
  }

  lemma DeleteCommentPreservesValid(s: Db, id: nat, me: User)
    requires Valid(s)
    ensures Valid(DeleteCommentStep(s, id, me).db)
  {
  }
}
