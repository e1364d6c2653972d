/** Resolving the caller of a bearer-protected handler (app/deps.py). The
    token arrives already taken out of the Authorization header. */
module Deps {
  import opened Http
  import opened Models
  import opened Store
  import opened Security

  /** The single error every failed resolution ends in. */
  const CredentialsException := HttpError(Unauthorized, "Could not validate credentials", true)

  ghost predicate AllDigits(s: string)
  {
    forall k :: 0 <= k < |s| ==> '0' <= s[k] <= '9'
  }

  /** The value of a string of decimal digits. */
  function DigitsValue(s: string): nat
    requires AllDigits(s)
  {
    if |s| == 0 then 0 else DigitsValue(s[..|s| - 1]) * 10 + (s[|s| - 1] as int - '0' as int)
  }

  /** int(sub): a non-empty run of decimal digits parses, anything else is a
      ValueError. */
  function ParseDecimal(s: string): (r: Option<nat>)
    ensures r.Some? <==> |s| > 0 && AllDigits(s)
  {
    if |s| > 0 && forall k | 0 <= k < |s| :: '0' <= s[k] <= '9' then Some(DigitsValue(s)) else None
  }

  /** int(str(n)) == n. */
  lemma {:induction false} DecimalRoundTrip(n: nat)
    ensures ParseDecimal(Decimal(n)) == Some(n)
  {
    var d := Decimal(n);
    if n < 10 {
      assert d[..0] == "";
      assert DigitsValue(d) == n;
    } else {
      DecimalRoundTrip(n / 10);
      assert d[..|d| - 1] == Decimal(n / 10);
      assert d[|d| - 1] as int - '0' as int == n % 10;
      assert DigitsValue(d) == (n / 10) * 10 + n % 10;
    }
  }

  /** get_current_user: decode the token, read "sub" (defaulting to "0"),
      convert it to an int and load that user. Every failure, whichever step
      it comes from, is the same 401. */
  function GetCurrentUser(st: Settings, tokens: TokenCodec, s: Db, token: string, now: int): (r: Result<User>)
    ensures r.Err? ==> r.error == CredentialsException
    ensures r.Ok? <==>
      && DecodeToken(st, tokens, token, now).Ok?
      && var sub := OrElse(DecodeToken(st, tokens, token, now).value.sub, "0");
         ParseDecimal(sub).Some? && ParseDecimal(sub).value in s.users
    ensures r.Ok? ==>
      var uid := ParseDecimal(OrElse(DecodeToken(st, tokens, token, now).value.sub, "0")).value;
      uid in s.users && r.value == s.users[uid]
  {
    match DecodeToken(st, tokens, token, now)
    case Err(_) => Err(CredentialsException)
    case Ok(p) =>
      match ParseDecimal(OrElse(p.sub, "0"))
      case None => Err(CredentialsException)
      case Some(uid) => if uid in s.users then Ok(s.users[uid]) else Err(CredentialsException)
  }

  /** In a consistent store the resolved user is the row whose id the token's
      subject names. */
  lemma ResolvedUserMatchesSubject(st: Settings, tokens: TokenCodec, s: Db, token: string, now: int)
    requires KeysConsistent(s)
    requires GetCurrentUser(st, tokens, s, token, now).Ok?
    ensures var u := GetCurrentUser(st, tokens, s, token, now).value;
      && u.id in s.users && s.users[u.id] == u
      && ParseDecimal(OrElse(DecodeToken(st, tokens, token, now).value.sub, "0")) == Some(u.id)
  {
  }

  /** A token without "sub" is read as user 0, which no row has. */
  lemma MissingSubjectRejected(st: Settings, tokens: TokenCodec, s: Db, token: string, now: int)
    requires KeysConsistent(s)
    requires DecodeToken(st, tokens, token, now).Ok?
    requires DecodeToken(st, tokens, token, now).value.sub == None
    ensures GetCurrentUser(st, tokens, s, token, now) == Err(CredentialsException)
  {
    assert DigitsValue("0") == 0 by {
      assert "0"[..0] == "";
    }
  }

  /** An expired or invalid token loses its own detail: the caller sees only
      the generic 401. */
  lemma DecodeFailureCollapses(st: Settings, tokens: TokenCodec, s: Db, token: string, now: int)
    requires !tokens.decode(token, st.secretKey, st.algorithm, now).Claims?
    ensures GetCurrentUser(st, tokens, s, token, now) == Err(CredentialsException)
    ensures CredentialsException != TokenExpired && CredentialsException != TokenInvalid
  {
  }

  /** A token the service issued for a stored user resolves to that user for
      as long as it has not expired. */
  lemma IssuedTokenResolves(st: Settings, tokens: TokenCodec, s: Db, uid: nat, issued: int, now: int)
    requires Faithful(tokens)
    requires uid in s.users
    requires issued <= now <= issued + 60 * st.accessTokenExpireMinutes
    ensures GetCurrentUser(st, tokens, s, CreateToken(st, tokens, uid, issued), now) == Ok(s.users[uid])
  {
    FreshTokenDecodes(st, tokens, uid, issued, now);
    DecimalRoundTrip(uid);
  }

  /** get_current_user_id. */
  function GetCurrentUserId(st: Settings, tokens: TokenCodec, s: Db, token: string, now: int): (r: Result<nat>)
    ensures var u := GetCurrentUser(st, tokens, s, token, now);
      (u.Ok? ==> r == Ok(u.value.id)) && (u.Err? ==> r == Err(u.error))
  {
    match GetCurrentUser(st, tokens, s, token, now)
    case Ok(u) => Ok(u.id)
    case Err(e) => Err(e)
  }

  /** get_current_user_username. */
  function GetCurrentUserUsername(st: Settings, tokens: TokenCodec, s: Db, token: string, now: int): (r: Result<string>)
    ensures var u := GetCurrentUser(st, tokens, s, token, now);
      (u.Ok? ==> r == Ok(u.value.username)) && (u.Err? ==> r == Err(u.error))
  {
    match GetCurrentUser(st, tokens, s, token, now)
    case Ok(u) => Ok(u.username)
    case Err(e) => Err(e)
  }
}
