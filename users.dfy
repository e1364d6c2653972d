/** The user endpoints (app/routers/users.py). Every one of them runs behind
    get_current_user; `me` is the user it resolved, which is the row the
    session holds for that id. */
module Users {
  import opened Http
  import opened Models
  import opened Schemas
  import opened Store
  import opened Security
  import opened Deps

  const OldPasswordIncorrect := Error(BadRequest, "Old password is incorrect")
  const UserNotFound := Error(NotFound, "User not found")

  // ---------------------------------------------------------------------------
  // GET /users/me
  // ---------------------------------------------------------------------------

  /** get_me returns whatever get_current_user resolved for the bearer token. */
  function GetMe(st: Settings, tokens: TokenCodec, s: Db, token: string, now: int): (r: Outcome<User>)
    ensures r.Failure? <==> GetCurrentUser(st, tokens, s, token, now).Err?
    ensures r.Failure? ==> r.error == CredentialsException
    ensures GetCurrentUser(st, tokens, s, token, now).Ok? ==>
      r == Success(OkStatus, GetCurrentUser(st, tokens, s, token, now).value)
    ensures r.Success? ==>
      && r.status == OkStatus
      && r.value in s.users.Values
      && DecodeToken(st, tokens, token, now).Ok?
  {
    match GetCurrentUser(st, tokens, s, token, now)
    case Err(e) => Failure(e)
    case Ok(u) => Success(OkStatus, u)
  }

  // ---------------------------------------------------------------------------
  // POST /users/me/change-password
  // ---------------------------------------------------------------------------

  function ChangePasswordStep(s: Db, me: User, pc: PasswordChange, pw: PasswordCodec, salt: nat): (r: Step<Unit>)
    requires me.id in s.users
    ensures r.out.Failure? ==> r.db == s
    ensures r.out.Failure? <==> !pw.verify(pc.oldPassword, s.users[me.id].passwordHash)
    ensures r.out.Failure? ==> r.out.error == OldPasswordIncorrect
    ensures r.out.Success? ==>
      && r.out == Success(NoContent, Unit)
      && r.db == s.(users := s.users[me.id := s.users[me.id].(passwordHash := pw.hash(pc.newPassword, salt))])
  {
    var current := s.users[me.id];
    if !pw.verify(pc.oldPassword, current.passwordHash) then Step(s, Failure(OldPasswordIncorrect))
    else Step(s.(users := s.users[me.id := current.(passwordHash := pw.hash(pc.newPassword, salt))]),
              Success(NoContent, Unit))
  }

  method ChangePassword(db: Database, me: User, pc: PasswordChange, pw: PasswordCodec, salt: nat)
    returns (out: Outcome<Unit>)
    requires me.id in db.users
    modifies db
    ensures var r := ChangePasswordStep(old(db.State()), me, pc, pw, salt); db.State() == r.db && out == r.out
  {
    var current := db.users[me.id];
    if !pw.verify(pc.oldPassword, current.passwordHash) {
      return Failure(OldPasswordIncorrect);
    }
    current := current.(passwordHash := pw.hash(pc.newPassword, salt));
    db.users := db.users[me.id := current];
    out := Success(NoContent, Unit);
  }

  /** A password change rewrites the caller's hash and nothing else: no other
      user, no id, no username and no other table changes. */
  lemma ChangePasswordTouchesOnlyOwnHash(s: Db, me: User, pc: PasswordChange, pw: PasswordCodec, salt: nat)
    requires me.id in s.users
    ensures var t := ChangePasswordStep(s, me, pc, pw, salt).db;
      && t.users.Keys == s.users.Keys
      && (forall k :: k in s.users && k != me.id ==> t.users[k] == s.users[k])
      && t.users[me.id].id == s.users[me.id].id
      && t.users[me.id].username == s.users[me.id].username
      && t.projects == s.projects && t.issues == s.issues && t.comments == s.comments
      && t.nextId == s.nextId
  {
  }

  lemma ChangePasswordPreservesValid(s: Db, me: User, pc: PasswordChange, pw: PasswordCodec, salt: nat)
    requires Valid(s) && me.id in s.users
    ensures Valid(ChangePasswordStep(s, me, pc, pw, salt).db)
  {
    var r := ChangePasswordStep(s, me, pc, pw, salt);
    if r.out.Success? {
      var t := r.db;
      assert UserKeys(t.users, t.nextId) by {
        assert UserKeys(s.users, s.nextId);
      }
      assert UniqueUsernames(t.users) by {
        assert UniqueUsernames(s.users);
        forall a, b | a in t.users && b in t.users && t.users[a].username == t.users[b].username ensures a == b {
          assert t.users[a].username == s.users[a].username;
          assert t.users[b].username == s.users[b].username;
        }
      }
      assert t.users.Keys == s.users.Keys;
      assert ReferencesLive(t) by {
        assert ReferencesLive(s);
      }
    }
  }

  // ---------------------------------------------------------------------------
  // GET /users and GET /users/{user_id}
  // ---------------------------------------------------------------------------

  /** Every user, in ascending id order: the query behind list_users. */
  function UsersById(s: Db): (r: seq<User>)
    ensures UserKeys(s.users, s.nextId) ==>
      && (forall i :: 0 <= i < |r| ==> r[i].id in s.users && s.users[r[i].id] == r[i])
      && (forall k :: k in s.users ==> s.users[k] in r)
      && (forall i, j :: 0 <= i < j < |r| ==> r[i].id < r[j].id)
  {
    var ids := IdsAscBelow(s.users, s.nextId);
    var rows := Rows(s.users, ids);
    assert UserKeys(s.users, s.nextId) ==> forall i :: 0 <= i < |rows| ==> rows[i].id == ids[i] by {
      if UserKeys(s.users, s.nextId) {
        forall i | 0 <= i < |rows| ensures rows[i].id == ids[i] {
          assert rows[i] == s.users[ids[i]];
        }
      }
    }
    assert UserKeys(s.users, s.nextId) ==> forall k :: k in s.users ==> s.users[k] in rows by {
      if UserKeys(s.users, s.nextId) {
        forall k | k in s.users ensures s.users[k] in rows {
          var i :| 0 <= i < |ids| && ids[i] == k;
          assert rows[i] == s.users[k];
        }
      }
    }
    rows
  }

  /** list_users, guarded by get_current_user: the 401 for a token that does
      not resolve, otherwise every user in ascending id order. */
  function ListUsers(st: Settings, tokens: TokenCodec, s: Db, token: string, now: int): (r: Outcome<seq<User>>)
    ensures r.Failure? <==> GetCurrentUser(st, tokens, s, token, now).Err?
    ensures r.Failure? ==> r == Failure(CredentialsException)
    ensures r.Success? ==> r.status == OkStatus
    ensures r.Success? && UserKeys(s.users, s.nextId) ==>
      var l := r.value;
      && (forall i :: 0 <= i < |l| ==> l[i].id in s.users && s.users[l[i].id] == l[i])
      && (forall k :: k in s.users ==> s.users[k] in l)
      && (forall i, j :: 0 <= i < j < |l| ==> l[i].id < l[j].id)
  {
    match GetCurrentUser(st, tokens, s, token, now)
    case Err(e) => Failure(e)
    case Ok(_) => Success(OkStatus, UsersById(s))
  }

  /** get_user, guarded by get_current_user: the 401 comes before the lookup
      and its 404. */
  function GetUser(st: Settings, tokens: TokenCodec, s: Db, token: string, now: int, userId: nat): (r: Outcome<User>)
    ensures GetCurrentUser(st, tokens, s, token, now).Err? ==> r == Failure(CredentialsException)
    ensures GetCurrentUser(st, tokens, s, token, now).Ok? ==> (r.Success? <==> userId in s.users)
    ensures GetCurrentUser(st, tokens, s, token, now).Ok? && userId !in s.users ==> r == Failure(UserNotFound)
    ensures r.Success? ==> r == Success(OkStatus, s.users[userId])
  {
    match GetCurrentUser(st, tokens, s, token, now)
    case Err(e) => Failure(e)
    case Ok(_) => if userId in s.users then Success(OkStatus, s.users[userId]) else Failure(UserNotFound)
  }
}
