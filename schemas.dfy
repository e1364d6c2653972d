/** Request bodies (the app.schemas package) and the comment content validator. */
module Schemas {
  import opened Http
  import opened Models

  /** IssueCreate: only the title is required. */
  datatype IssueCreate = IssueCreate(
    title: string,
    desc: string,
    status: IssueStatus,
    priority: IssuePriority,
    assigneeId: Option<nat>)

  /** An IssueCreate body that gives only a title: every other field takes
      its declared default. */
  function IssueCreateWithTitle(title: string): (p: IssueCreate)
    ensures p.title == title && p.desc == "" && p.assigneeId == None
    ensures p.status == DefaultStatus && StatusLiteral(p.status) == "open"
    ensures p.priority == DefaultPriority && PriorityLiteral(p.priority) == "medium"
  {
    IssueCreate(title, "", Open, Medium, None)
  }

  /** IssueUpdate: every field is optional and defaults to None. */
  datatype IssueUpdate = IssueUpdate(
    title: Option<string>,
    desc: Option<string>,
    status: Option<IssueStatus>,
    priority: Option<IssuePriority>,
    assigneeId: Option<nat>)

  /** The body `{}`. */
  const EmptyUpdate := IssueUpdate(None, None, None, None, None)

  /** ProjectCreate: desc defaults to "". */
  datatype ProjectCreate = ProjectCreate(name: string, desc: string)

  /** A ProjectCreate body that gives only a name: desc takes its default. */
  function ProjectCreateWithName(name: string): (p: ProjectCreate)
    ensures p.name == name && p.desc == ""
  {
    ProjectCreate(name, "")
  }

  datatype UserCreate = UserCreate(username: string, password: string)

  datatype LoginIn = LoginIn(username: string, password: string)

  datatype PasswordChange = PasswordChange(oldPassword: string, newPassword: string)

  /** TokenResponse: token_type is always "bearer". */
  datatype TokenResponse = TokenResponse(accessToken: string, tokenType: string)

  const BearerType := "bearer"

  // ---------------------------------------------------------------------------
  // Comment content: strip, then reject the empty result.
  // ---------------------------------------------------------------------------

  /** The characters Python's str.strip() removes when called without an
      argument (those for which str.isspace() holds). */
  predicate IsSpace(c: char)
  {
    || ('\t' <= c <= '\r')
    || ('\U{1C}' <= c <= '\U{1F}')
    || c == ' ' || c == '\U{85}' || c == '\U{A0}' || c == '\U{1680}'
    || ('\U{2000}' <= c <= '\U{200A}')
    || c == '\U{2028}' || c == '\U{2029}' || c == '\U{202F}' || c == '\U{205F}' || c == '\U{3000}'
  }

  ghost predicate AllSpace(s: string)
  {
    forall k :: 0 <= k < |s| ==> IsSpace(s[k])
  }

  /** Neither the first nor the last character is whitespace. */
  ghost predicate NoEdgeSpace(s: string)
  {
    |s| > 0 ==> !IsSpace(s[0]) && !IsSpace(s[|s| - 1])
  }

  /** What the validator lets through, and so what every stored comment holds. */
  ghost predicate AcceptedContent(s: string)
  {
    |s| > 0 && NoEdgeSpace(s)
  }

  /** `r` sits in `s` between a leading and a trailing run of whitespace. */
  ghost predicate Framed(s: string, r: string)
  {
    exists i :: 0 <= i <= |s| - |r| && s[i..i + |r|] == r && AllSpace(s[..i]) && AllSpace(s[i + |r|..])
  }

  /** Index of the first non-whitespace character at or after `i`, or |s|. */
  function SkipLeading(s: string, i: nat): (r: nat)
    requires i <= |s|
    ensures i <= r <= |s|
    ensures forall k :: i <= k < r ==> IsSpace(s[k])
    ensures r < |s| ==> !IsSpace(s[r])
    decreases |s| - i
  {
    if i < |s| && IsSpace(s[i]) then SkipLeading(s, i + 1) else i
  }

  /** One past the last non-whitespace character in s[lo..j], or lo. */
  function SkipTrailing(s: string, lo: nat, j: nat): (r: nat)
    requires lo <= j <= |s|
    ensures lo <= r <= j
    ensures forall k :: r <= k < j ==> IsSpace(s[k])
    ensures r > lo ==> !IsSpace(s[r - 1])
  {
    if j > lo && IsSpace(s[j - 1]) then SkipTrailing(s, lo, j - 1) else j
  }

  /** str.strip(): drops the leading and the trailing whitespace, and keeps
      everything between them. */
  function Strip(s: string): (r: string)
    ensures |r| <= |s|
    ensures NoEdgeSpace(r)
    ensures Framed(s, r)
    ensures r == [] <==> AllSpace(s)
  {
    var i := SkipLeading(s, 0);
    var j := SkipTrailing(s, i, |s|);
    assert s[i..j][..] == s[i..i + (j - i)];
    assert AllSpace(s[..i]) && AllSpace(s[j..]);
    assert i == j ==> AllSpace(s) by {
      if i == j {
        assert i == |s|;
        assert s[..i] == s;
      }
    }
    s[i..j]
  }

  /** CommentCreate._content_not_empty: the stripped content, or the
      validation error. Pydantic reports it as a 422 response. */
  function ValidateContent(c: string): (r: Result<string>)
    ensures r.Ok? <==> !AllSpace(c)
    ensures r.Ok? ==> AcceptedContent(r.value) && Framed(c, r.value)
    ensures r.Err? ==> r.error == Error(Unprocessable, "Content cannot be empty")
  {
    var c2 := Strip(c);
    if c2 == [] then Err(Error(Unprocessable, "Content cannot be empty")) else Ok(c2)
  }

  /** Stripping text that has no whitespace at either end returns it as is. */
  lemma StripNoEdgeSpace(s: string)
    requires NoEdgeSpace(s)
    ensures Strip(s) == s
  {
    if |s| > 0 {
      assert SkipLeading(s, 0) == 0;
      assert SkipTrailing(s, 0, |s|) == |s|;
      assert s[0..|s|] == s;
    }
  }

  /** Validating content that was already accepted returns it unchanged. */
  lemma ValidateIdempotent(c: string)
    requires ValidateContent(c).Ok?
    ensures ValidateContent(ValidateContent(c).value) == ValidateContent(c)
  {
    var v := ValidateContent(c).value;
    StripNoEdgeSpace(v);
  }

  /** Accepted content is exactly what the validator maps to itself. */
  lemma AcceptedIsFixedPoint(s: string)
    ensures AcceptedContent(s) <==> ValidateContent(s) == Ok(s)
  {
    if AcceptedContent(s) {
      StripNoEdgeSpace(s);
      assert !IsSpace(s[0]);
    }
  }
}
