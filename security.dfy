/** Password hashing and bearer tokens (app/core/security.py). bcrypt and the
    JWT library are foreign code: they enter the model as codec values whose
    only assumed behaviour is stated by Sound and Faithful. The clock and the
    bcrypt salt are parameters. */
module Security {
  import opened Http

  // ---------------------------------------------------------------------------
  // Configuration
  // ---------------------------------------------------------------------------

  /** The settings the module reads; ALGORITHM and the TTL have defaults. */
  datatype Settings = Settings(secretKey: string, algorithm: string, accessTokenExpireMinutes: int)

  const DefaultAlgorithm := "HS256"
  const DefaultExpireMinutes := 60

  function SettingsWithDefaults(secretKey: string): (st: Settings)
    ensures st.secretKey == secretKey
    ensures st.algorithm == "HS256" && st.accessTokenExpireMinutes == 60
  {
    Settings(secretKey, DefaultAlgorithm, DefaultExpireMinutes)
  }

  /** The outcome of importing the module: ready, or a RuntimeError. */
  datatype Startup = Ready(config: Settings) | Refused(reason: string)

  /** The import-time check: an empty SECRET_KEY stops the service. */
  function Load(st: Settings): (r: Startup)
    ensures r.Ready? <==> st.secretKey != ""
    ensures r.Ready? ==> r.config == st
    ensures r.Refused? ==> r.reason == "SECRET_KEY not set in environment!"
  {
    if st.secretKey == "" then Refused("SECRET_KEY not set in environment!") else Ready(st)
  }

  // ---------------------------------------------------------------------------
  // Passwords
  // ---------------------------------------------------------------------------

  /** hash_pw and verify_pw. `hash` takes the random salt as an argument. */
  datatype PasswordCodec = PasswordCodec(hash: (string, nat) -> string, verify: (string, string) -> bool)

  /** The one property of bcrypt the model relies on: a password verifies
      against any hash made from it. */
  ghost predicate Sound(c: PasswordCodec)
  {
    forall p, salt :: c.verify(p, c.hash(p, salt))
  }

  // ---------------------------------------------------------------------------
  // Tokens
  // ---------------------------------------------------------------------------

  /** The claims create_token puts in a token. A decoded token may lack "sub". */
  datatype Payload = Payload(sub: Option<string>, iat: int, nbf: int, exp: int)

  /** The three ways jwt.decode can end. */
  datatype Decoded = ExpiredSignature | InvalidToken | Claims(payload: Payload)

  /** jwt.encode(payload, key, algorithm) and jwt.decode(token, key,
      algorithms, at time now). */
  datatype TokenCodec = TokenCodec(
    encode: (Payload, string, string) -> string,
    decode: (string, string, string, int) -> Decoded)

  /** What jwt.decode does with a token it signed itself, at time `now`: a
      token not yet valid (nbf in the future) is invalid, one whose exp has
      passed is expired, anything else yields the claims. */
  function ClaimsCheck(p: Payload, now: int): Decoded
  {
    if p.nbf > now then InvalidToken
    else if p.exp < now then ExpiredSignature
    else Claims(p)
  }

  /** The assumed behaviour of the token library on its own tokens. */
  ghost predicate Faithful(c: TokenCodec)
  {
    forall p, key, alg, now :: c.decode(c.encode(p, key, alg), key, alg, now) == ClaimsCheck(p, now)
  }

  function DigitChar(d: nat): char
    requires d < 10
    ensures '0' <= DigitChar(d) <= '9'
  {
    ('0' as int + d) as char
  }

  /** str(n) for a non-negative int: its decimal digits, no leading zero. */
  function Decimal(n: nat): (r: string)
    ensures |r| > 0 && (forall k :: 0 <= k < |r| ==> '0' <= r[k] <= '9')
    ensures |r| > 1 ==> r[0] != '0'
  {
    if n < 10 then [DigitChar(n)] else Decimal(n / 10) + [DigitChar(n % 10)]
  }

  /** The claims of create_token(user_id) at `now` (whole seconds). */
  function TokenPayload(st: Settings, userId: nat, now: int): (p: Payload)
    ensures p.sub == Some(Decimal(userId))
    ensures p.iat == now && p.nbf == now
    ensures p.exp - p.iat == 60 * st.accessTokenExpireMinutes
  {
    Payload(Some(Decimal(userId)), now, now, now + 60 * st.accessTokenExpireMinutes)
  }

  /** create_token: the claims above, signed with the configured key and
      algorithm. Decoded with that key, the token yields exactly those claims
      until it expires. */
  function CreateToken(st: Settings, tokens: TokenCodec, userId: nat, now: int): (r: string)
    ensures r == tokens.encode(TokenPayload(st, userId, now), st.secretKey, st.algorithm)
    ensures Faithful(tokens) ==>
      forall at :: tokens.decode(r, st.secretKey, st.algorithm, at) == ClaimsCheck(TokenPayload(st, userId, now), at)
  {
    tokens.encode(TokenPayload(st, userId, now), st.secretKey, st.algorithm)
  }

  const TokenExpired := HttpError(Unauthorized, "Token expired", true)
  const TokenInvalid := HttpError(Unauthorized, "Invalid token", true)

  /** decode_token: the claims, or the two 401s it raises. */
  function DecodeToken(st: Settings, tokens: TokenCodec, token: string, now: int): (r: Result<Payload>)
    ensures r.Err? ==> r.error.status == Unauthorized && r.error.bearerChallenge
    ensures r.Err? <==> !tokens.decode(token, st.secretKey, st.algorithm, now).Claims?
    ensures tokens.decode(token, st.secretKey, st.algorithm, now) == ExpiredSignature ==>
              r == Err(TokenExpired)
    ensures tokens.decode(token, st.secretKey, st.algorithm, now) == InvalidToken ==>
              r == Err(TokenInvalid)
    ensures r.Ok? ==> tokens.decode(token, st.secretKey, st.algorithm, now) == Claims(r.value)
  {
    match tokens.decode(token, st.secretKey, st.algorithm, now)
    case ExpiredSignature => Err(TokenExpired)
    case InvalidToken => Err(TokenInvalid)
    case Claims(p) => Ok(p)
  }

  /** A token the service issued at `issued` decodes, at any `now` from issue
      to expiry, to exactly the claims it was given. */
  lemma FreshTokenDecodes(st: Settings, tokens: TokenCodec, userId: nat, issued: int, now: int)
    requires Faithful(tokens)
    requires issued <= now <= issued + 60 * st.accessTokenExpireMinutes
    ensures DecodeToken(st, tokens, CreateToken(st, tokens, userId, issued), now)
            == Ok(TokenPayload(st, userId, issued))
  {
    var p := TokenPayload(st, userId, issued);
    assert tokens.decode(tokens.encode(p, st.secretKey, st.algorithm), st.secretKey, st.algorithm, now)
           == ClaimsCheck(p, now);
  }

  /** After its expiry the same token is refused as expired. */
  lemma StaleTokenExpired(st: Settings, tokens: TokenCodec, userId: nat, issued: int, now: int)
    requires Faithful(tokens)
    requires issued <= now
    requires now > issued + 60 * st.accessTokenExpireMinutes
    ensures DecodeToken(st, tokens, CreateToken(st, tokens, userId, issued), now) == Err(TokenExpired)
  {
    var p := TokenPayload(st, userId, issued);
    assert tokens.decode(tokens.encode(p, st.secretKey, st.algorithm), st.secretKey, st.algorithm, now)
           == ClaimsCheck(p, now);
  }
}
