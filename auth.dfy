/** Registration and login (app/routers/auth.py). Hashing, verification and
    token signing are the codecs of module Security; the salt and the clock
    are parameters. */
module Auth {
  import opened Http
  import opened Models
  import opened Schemas
  import opened Store
  import opened Security

  const UsernameTakenError := Error(Conflict, "Username already registered")
  /** One error for an unknown username and for a wrong password alike. */
  const InvalidCredentials := Error(Unauthorized, "Invalid credentials")

  predicate UsernameExists(s: Db, username: string)
  {
    exists k :: k in s.users && s.users[k].username == username
  }

  /** Looks for a user with this username among the ids below `n`. */
  function FindUsername(users: map<nat, User>, username: string, n: nat): (r: Option<nat>)
    ensures r.Some? ==> r.value in users && users[r.value].username == username
    ensures r.None? ==> forall k :: k in users && k < n ==> users[k].username != username
  {
    if n == 0 then None
    else if n - 1 in users && users[n - 1].username == username then Some(n - 1)
    else FindUsername(users, username, n - 1)
  }

  /** The `.filter(User.username == ...).first()` query. */
  function UserByUsername(s: Db, username: string): (r: Option<User>)
    ensures r.Some? ==> r.value.username == username
    ensures r.Some? ==> exists k :: k in s.users && s.users[k] == r.value
    ensures UserKeys(s.users, s.nextId) ==> (r.Some? <==> UsernameExists(s, username))
  {
    match FindUsername(s.users, username, s.nextId)
    case Some(k) => Some(s.users[k])
    case None => None
  }

  /** With usernames unique, the query finds the one user of that name. */
  lemma UserByUsernameUnique(s: Db, k: nat)
    requires UserKeys(s.users, s.nextId) && UniqueUsernames(s.users)
    requires k in s.users
    ensures UserByUsername(s, s.users[k].username) == Some(s.users[k])
  {
    var r := UserByUsername(s, s.users[k].username);
    var j :| j in s.users && s.users[j] == r.value;
  }

  // ---------------------------------------------------------------------------
  // POST /auth/register
  // ---------------------------------------------------------------------------

  function RegisterStep(s: Db, u: UserCreate, pw: PasswordCodec, salt: nat): (r: Step<User>)
    ensures r.out.Failure? ==> r.db == s
    ensures r.out.Failure? <==> UsernameExists(s, u.username)
    ensures r.out.Failure? ==> r.out.error == UsernameTakenError
    ensures r.out.Success? ==>
      && r.out.status == Created
      && r.out.value == User(s.nextId, u.username, pw.hash(u.password, salt))
      && r.db == s.(users := s.users[s.nextId := r.out.value], nextId := s.nextId + 1)
  {
    if UsernameExists(s, u.username) then Step(s, Failure(UsernameTakenError))
    else
      var user := User(s.nextId, u.username, pw.hash(u.password, salt));
      Step(s.(users := s.users[user.id := user], nextId := s.nextId + 1), Success(Created, user))
  }

  method Register(db: Database, u: UserCreate, pw: PasswordCodec, salt: nat) returns (out: Outcome<User>)
    modifies db
    ensures var r := RegisterStep(old(db.State()), u, pw, salt); db.State() == r.db && out == r.out
  {
    if UsernameExists(db.State(), u.username) {
      return Failure(UsernameTakenError);
    }
    var user := User(db.nextId, u.username, pw.hash(u.password, salt));
    db.users := db.users[user.id := user];
    db.nextId := db.nextId + 1;
    out := Success(Created, user);
  }

  lemma RegisterPreservesValid(s: Db, u: UserCreate, pw: PasswordCodec, salt: nat)
    requires Valid(s)
    ensures Valid(RegisterStep(s, u, pw, salt).db)
  {
    var r := RegisterStep(s, u, pw, salt);
    if r.out.Success? {
      var t := r.db;
      assert KeysConsistent(t) by {
        assert KeysConsistent(s);
      }
      assert UniqueUsernames(t.users) by {
        assert UniqueUsernames(s.users);
        forall a, b | a in t.users && b in t.users && a != b ensures t.users[a].username != t.users[b].username {
          if a == s.nextId {
            assert t.users[b] == s.users[b];
          } else if b == s.nextId {
            assert t.users[a] == s.users[a];
          }
        }
      }
      assert ReferencesLive(t) by {
        assert ReferencesLive(s);
      }
    }
  }

  // ---------------------------------------------------------------------------
  // POST /auth/login
  // ---------------------------------------------------------------------------

  /** login: look the user up, verify the password against the stored hash,
      and issue a token whose subject is the user's id. Nothing is written. */
  function Login(s: Db, form: LoginIn, pw: PasswordCodec, st: Settings, tokens: TokenCodec, now: int)
    : (r: Outcome<TokenResponse>)
    ensures r.Failure? ==> r.error == InvalidCredentials
    ensures UserByUsername(s, form.username).None? ==> r == Failure(InvalidCredentials)
    ensures r.Success? <==>
      UserByUsername(s, form.username).Some? &&
      pw.verify(form.password, UserByUsername(s, form.username).value.passwordHash)
    ensures r.Success? ==>
      var u := UserByUsername(s, form.username).value;
      r == Success(OkStatus, TokenResponse(CreateToken(st, tokens, u.id, now), BearerType))
  {
    match UserByUsername(s, form.username)
    case None => Failure(InvalidCredentials)
    case Some(u) =>
      if !pw.verify(form.password, u.passwordHash) then Failure(InvalidCredentials)
      else Success(OkStatus, TokenResponse(CreateToken(st, tokens, u.id, now), BearerType))
  }
}
