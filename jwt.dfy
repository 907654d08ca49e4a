/** Signed, time-limited tokens (JSON Web Tokens, RFC 7519) as the blog uses them: the claims it puts
    in them, the secrets it signs them with, and what verifying a token answers. The signing library
    is a parameter; the model assumes of it only that a token it signed opens to the payload and key
    it was signed with. */
module Jwt {
  import opened Wrappers

  /** `{ userId, username, email, role }` */
  datatype Claims = Claims(userId: int, username: string, email: string, role: string)

  /** The claims with the issue time and expiry the library adds, in seconds since the epoch. */
  datatype Payload = Payload(claims: Claims, iat: int, exp: int)

  /** `jwt.sign(payload, key)` and what decoding a token reveals: its payload and the key whose
      signature it carries, or None for a string that is not a token. */
  datatype JwtLib = JwtLib(sign: (Payload, string) -> string, open: string -> Option<(Payload, string)>)

  /** What the model assumes of the library: signed tokens open to what was signed and are
      non-empty words (no space), and the empty string is not a token. */
  ghost predicate Sound(lib: JwtLib) {
    lib.open("") == None
    && forall p: Payload, key: string ::
         lib.open(lib.sign(p, key)) == Some((p, key)) && lib.sign(p, key) != "" && ' ' !in lib.sign(p, key)
  }

  /** What `jwt.verify(token, key)` does: return the payload, throw `TokenExpiredError`, or throw
      `JsonWebTokenError` for anything that is not a token signed with `key`. */
  datatype Verdict = Verified(payload: Payload) | Expired | Invalid

  /** The signature is checked before the expiry, and a token is expired from its `exp` second on. */
  function Verify(lib: JwtLib, token: string, key: string, now: int): (v: Verdict)
    ensures v.Verified? ==> lib.open(token) == Some((v.payload, key)) && now < v.payload.exp
    ensures v.Expired? <==> lib.open(token).Some? && lib.open(token).value.1 == key && lib.open(token).value.0.exp <= now
  {
    match lib.open(token)
    case None => Invalid
    case Some((payload, signedWith)) =>
      if signedWith != key then Invalid
      else if payload.exp <= now then Expired
      else Verified(payload)
  }

  /** `24h` and `7d`, in seconds. */
  const AccessLifetime: int := 24 * 60 * 60
  const RefreshLifetime: int := 7 * 24 * 60 * 60

  /** `jwt.sign(claims, key, { expiresIn: lifetime })` at second `now`. */
  function Sign(lib: JwtLib, claims: Claims, key: string, lifetime: int, now: int): (token: string)
    ensures Sound(lib) ==>
              lib.open(token) == Some((Payload(claims, now, now + lifetime), key)) && token != "" && ' ' !in token
  {
    lib.sign(Payload(claims, now, now + lifetime), key)
  }

  /** A token verifies with the key it was signed with, to the payload it was signed with, until it
      expires, and is reported expired from then on. */
  lemma SignThenVerify(lib: JwtLib, claims: Claims, key: string, lifetime: int, issued: int, now: int)
    requires Sound(lib)
    ensures now < issued + lifetime ==>
              Verify(lib, Sign(lib, claims, key, lifetime, issued), key, now) == Verified(Payload(claims, issued, issued + lifetime))
    ensures issued + lifetime <= now ==> Verify(lib, Sign(lib, claims, key, lifetime, issued), key, now) == Expired
  {
    assert lib.open(lib.sign(Payload(claims, issued, issued + lifetime), key)) == Some((Payload(claims, issued, issued + lifetime), key));
  }

  /** A token signed with one key is invalid under any other key, whether or not it has expired. */
  lemma OtherKeyInvalid(lib: JwtLib, claims: Claims, key: string, other: string, lifetime: int, issued: int, now: int)
    requires Sound(lib) && key != other
    ensures Verify(lib, Sign(lib, claims, key, lifetime, issued), other, now) == Invalid
  {
    assert lib.open(lib.sign(Payload(claims, issued, issued + lifetime), key)) == Some((Payload(claims, issued, issued + lifetime), key));
  }

  /** The environment variables the secrets come from; None when unset. */
  datatype Env = Env(jwtSecret: Option<string>, refreshTokenSecret: Option<string>)

  /** `process.env.JWT_SECRET || 'your-secret-key'` */
  function AccessSecret(env: Env): (key: string)
    ensures env.jwtSecret.None? || env.jwtSecret.value == "" ==> key == "your-secret-key"
    ensures env.jwtSecret.Some? && env.jwtSecret.value != "" ==> key == env.jwtSecret.value
  {
    if env.jwtSecret.Some? && env.jwtSecret.value != "" then env.jwtSecret.value else "your-secret-key"
  }

  /** `process.env.REFRESH_TOKEN_SECRET || 'your-refresh-secret-key'` */
  function RefreshSecret(env: Env): (key: string)
    ensures env.refreshTokenSecret.None? || env.refreshTokenSecret.value == "" ==> key == "your-refresh-secret-key"
    ensures env.refreshTokenSecret.Some? && env.refreshTokenSecret.value != "" ==> key == env.refreshTokenSecret.value
  {
    if env.refreshTokenSecret.Some? && env.refreshTokenSecret.value != "" then env.refreshTokenSecret.value
    else "your-refresh-secret-key"
  }

  /** The two secrets differ unless the environment sets them to the same value (or sets one of them to
      the other's default), so the two kinds of token are not interchangeable. */
  lemma SecretsDiffer(env: Env)
    requires env.jwtSecret.Some? && env.jwtSecret.value != "" ==> env.jwtSecret.value != "your-refresh-secret-key"
    requires env.refreshTokenSecret.Some? && env.refreshTokenSecret.value != "" ==> env.refreshTokenSecret.value != "your-secret-key"
    requires env.jwtSecret.Some? && env.jwtSecret.value != "" && env.refreshTokenSecret.Some? ==>
               env.jwtSecret.value != env.refreshTokenSecret.value
    ensures AccessSecret(env) != RefreshSecret(env)
  {
    assert "your-secret-key" != "your-refresh-secret-key" by {
      assert "your-secret-key"[5] == 's' && "your-refresh-secret-key"[5] == 'r';
    }
  }
}
