/** Properties that span several requests: registering, logging in, using the
    token, and changing the password. */
module Flows {
  import opened Http
  import opened Models
  import opened Schemas
  import opened Store
  import opened Security
  import opened Deps
  import opened Auth
  import opened Users

  /** A freshly registered user can log in with the password they chose and
      receives a bearer token for their new id. */
  lemma RegisterThenLogin(s: Db, u: UserCreate, pw: PasswordCodec, salt: nat, st: Settings, tokens: TokenCodec, now: int)
    requires Valid(s) && Sound(pw)
    requires RegisterStep(s, u, pw, salt).out.Success?
    ensures Login(RegisterStep(s, u, pw, salt).db, LoginIn(u.username, u.password), pw, st, tokens, now)
            == Success(OkStatus, TokenResponse(CreateToken(st, tokens, s.nextId, now), BearerType))
  {
    var t := RegisterStep(s, u, pw, salt).db;
    RegisterPreservesValid(s, u, pw, salt);
    UserByUsernameUnique(t, s.nextId);
  }

  /** Register, log in, then GET /users/me with the token: the caller sees the
      user just registered. */
  lemma RegisterLoginMe(s: Db, u: UserCreate, pw: PasswordCodec, salt: nat, st: Settings, tokens: TokenCodec, now: int)
    requires Valid(s) && Sound(pw) && Faithful(tokens) && 0 <= st.accessTokenExpireMinutes
    requires RegisterStep(s, u, pw, salt).out.Success?
    ensures var t := RegisterStep(s, u, pw, salt).db;
      var login := Login(t, LoginIn(u.username, u.password), pw, st, tokens, now);
      && login.Success?
      && GetMe(st, tokens, t, login.value.accessToken, now) == Success(OkStatus, RegisterStep(s, u, pw, salt).out.value)
  {
    var t := RegisterStep(s, u, pw, salt).db;
    RegisterThenLogin(s, u, pw, salt, st, tokens, now);
    IssuedTokenResolves(st, tokens, t, s.nextId, now, now);
  }

  /** Registering the same username again is a 409 and changes nothing. */
  lemma RegisterTwiceConflicts(s: Db, u: UserCreate, v: UserCreate, pw: PasswordCodec, salt: nat, salt2: nat)
    requires RegisterStep(s, u, pw, salt).out.Success?
    requires v.username == u.username
    ensures var t := RegisterStep(s, u, pw, salt).db;
      RegisterStep(t, v, pw, salt2) == Step(t, Failure(UsernameTakenError))
  {
    var t := RegisterStep(s, u, pw, salt).db;
    assert t.users[s.nextId].username == v.username;
  }

  /** An unknown username and a known username with a wrong password get
      exactly the same response. */
  lemma LoginFailuresIndistinguishable(
    s: Db, unknown: LoginIn, wrong: LoginIn, pw: PasswordCodec, st: Settings, tokens: TokenCodec, now: int, k: nat)
    requires UserKeys(s.users, s.nextId) && UniqueUsernames(s.users)
    requires !UsernameExists(s, unknown.username)
    requires k in s.users && s.users[k].username == wrong.username
    requires !pw.verify(wrong.password, s.users[k].passwordHash)
    ensures Login(s, unknown, pw, st, tokens, now) == Login(s, wrong, pw, st, tokens, now)
    ensures Login(s, unknown, pw, st, tokens, now) == Failure(InvalidCredentials)
  {
    UserByUsernameUnique(s, k);
  }

  /** The token a successful login returns authenticates the user who logged
      in, at any time up to its expiry. */
  lemma LoginTokenAuthenticates(
    s: Db, form: LoginIn, pw: PasswordCodec, st: Settings, tokens: TokenCodec, now: int, later: int)
    requires UserKeys(s.users, s.nextId) && Faithful(tokens)
    requires Login(s, form, pw, st, tokens, now).Success?
    requires now <= later <= now + 60 * st.accessTokenExpireMinutes
    ensures var token := Login(s, form, pw, st, tokens, now).value.accessToken;
      && GetCurrentUser(st, tokens, s, token, later).Ok?
      && GetCurrentUser(st, tokens, s, token, later).value.username == form.username
  {
    var u := UserByUsername(s, form.username).value;
    var k :| k in s.users && s.users[k] == u;
    assert u.id == k;
    IssuedTokenResolves(st, tokens, s, u.id, now, later);
  }

  /** After a password change the new password logs in, and an old password
      that does not match the new hash is refused. */
  lemma ChangePasswordThenLogin(
    s: Db, me: User, pc: PasswordChange, pw: PasswordCodec, salt: nat, st: Settings, tokens: TokenCodec, now: int)
    requires Valid(s) && Sound(pw) && me.id in s.users
    requires ChangePasswordStep(s, me, pc, pw, salt).out.Success?
    ensures var t := ChangePasswordStep(s, me, pc, pw, salt).db;
      var name := s.users[me.id].username;
      && Login(t, LoginIn(name, pc.newPassword), pw, st, tokens, now)
         == Success(OkStatus, TokenResponse(CreateToken(st, tokens, me.id, now), BearerType))
      && (!pw.verify(pc.oldPassword, pw.hash(pc.newPassword, salt)) ==>
            Login(t, LoginIn(name, pc.oldPassword), pw, st, tokens, now) == Failure(InvalidCredentials))
  {
    var t := ChangePasswordStep(s, me, pc, pw, salt).db;
    ChangePasswordPreservesValid(s, me, pc, pw, salt);
    UserByUsernameUnique(t, me.id);
    assert t.users[me.id].id == me.id by {
      assert UserKeys(t.users, t.nextId);
    }
  }

  /** Changing the password does not revoke tokens already issued: every token
      resolves to the same user (id and username) before and after. */
  lemma TokensSurvivePasswordChange(
    s: Db, me: User, pc: PasswordChange, pw: PasswordCodec, salt: nat, st: Settings, tokens: TokenCodec, token: string, now: int)
    requires me.id in s.users
    ensures var t := ChangePasswordStep(s, me, pc, pw, salt).db;
      var before := GetCurrentUser(st, tokens, s, token, now);
      var after := GetCurrentUser(st, tokens, t, token, now);
      && (before.Ok? <==> after.Ok?)
      && (before.Ok? ==> after.value.id == before.value.id && after.value.username == before.value.username)
  {
  }
}
