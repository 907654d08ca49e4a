/** `authenticateJwt`, `optionalAuthenticateJwt` and `authorize`: the stricter header parser of the
    controllers, which asks `jwt.verify` itself and tells an expired token from a bad one. */
module AuthController {
  import opened Wrappers
  import opened Strings
  import opened Users
  import opened Jwt
  import opened AuthService
  import opened Requests
  import opened AuthMiddleware

  /** `authHeader.split(' ')` must give exactly two pieces, the first of them `"Bearer"`; the token is
      the second. So the header is `"Bearer "` followed by a word without spaces. */
  function BearerParts(h: string): (r: Option<string>)
    ensures r.Some? ==> h == "Bearer " + r.value && ' ' !in r.value
  {
    var parts := Split(h, ' ');
    if |parts| != 2 || parts[0] != "Bearer" then None
    else
      JoinSplit(h, ' ');
      assert Join(parts, ' ') == parts[0] + [' '] + Join(parts[1..], ' ');
      Some(parts[1])
  }

  /** Every header of that shape is accepted, with its word as the token. */
  lemma BearerPartsOf(token: string)
    requires ' ' !in token
    ensures BearerParts("Bearer " + token) == Some(token)
  {
    var h := "Bearer " + token;
    assert h == "Bearer" + [' '] + token;
    SplitAfterWord("Bearer", ' ', token);
    SplitNoSeparator(token, ' ');
  }

  /** A header the controllers accept gives the same token to `extractTokenFromHeader`. */
  lemma StrictAgreesWithExtract(h: string)
    requires BearerParts(h).Some?
    ensures ExtractToken(Some(h)) == BearerParts(h)
  {
    ExtractTokenOfBearer(BearerParts(h).value);
  }

  /** The converse fails: a header with a second space is refused here but yields its first word to
      `extractTokenFromHeader`. */
  lemma ExtractAcceptsMore(word: string, rest: string)
    requires ' ' !in word
    ensures BearerParts("Bearer " + word + " " + rest).None?
    ensures ExtractToken(Some("Bearer " + word + " " + rest)) == Some(word)
  {
    var h := "Bearer " + word + " " + rest;
    ExtractTokenIgnoresRest(word, rest);
    assert h[7 + |word|] == ' ';
  }

  /** What `authenticateJwt` decides: 401 for a missing header, a header of the wrong shape, an
      expired token, a token that is not signed with the access secret, or an unknown user; 500 only
      when looking the user up throws; otherwise the user. */
  function JwtGate(header: Option<string>, cfg: Config, db: UserDb, now: nat): (g: Gate)
    ensures header.None? || header.value == "" ==> g == Stop(401, "Authorization header missing")
    ensures g.Stop? ==> g.status == 401 || (g == Stop(500, "Internal server error") && db.Unavailable?)
    ensures g.Pass? <==>
              header.Some? && BearerParts(header.value).Some?
              && Verify(cfg.jwt, BearerParts(header.value).value, AccessSecret(cfg.env), Seconds(now)).Verified?
              && FindUser(db, Verify(cfg.jwt, BearerParts(header.value).value, AccessSecret(cfg.env), Seconds(now)).payload.claims.userId).Found?
    ensures g.Pass? ==> g.user.id == g.payload.claims.userId && g.user in db.table.rows
    ensures header.Some? && BearerParts(header.value).Some?
            && Verify(cfg.jwt, BearerParts(header.value).value, AccessSecret(cfg.env), Seconds(now)).Expired? ==>
              g == Stop(401, "Token expired")
    ensures header.Some? && header.value != "" && BearerParts(header.value).None? ==>
              g == Stop(401, "Invalid authorization format")
    ensures header.Some? && BearerParts(header.value).Some?
            && Verify(cfg.jwt, BearerParts(header.value).value, AccessSecret(cfg.env), Seconds(now)).Invalid? ==>
              g == Stop(401, "Invalid token")
    ensures header.Some? && BearerParts(header.value).Some?
            && Verify(cfg.jwt, BearerParts(header.value).value, AccessSecret(cfg.env), Seconds(now)).Verified?
            && FindUser(db, Verify(cfg.jwt, BearerParts(header.value).value, AccessSecret(cfg.env), Seconds(now)).payload.claims.userId).NotFound? ==>
              g == Stop(401, "User not found")
    ensures header.Some? && BearerParts(header.value).Some?
            && Verify(cfg.jwt, BearerParts(header.value).value, AccessSecret(cfg.env), Seconds(now)).Verified?
            && FindUser(db, Verify(cfg.jwt, BearerParts(header.value).value, AccessSecret(cfg.env), Seconds(now)).payload.claims.userId).Failed? ==>
              g == Stop(500, "Internal server error")
  {
    if header.None? || header.value == "" then Stop(401, "Authorization header missing")
    else
      match BearerParts(header.value)
      case None => Stop(401, "Invalid authorization format")
      case Some(token) =>
        match Verify(cfg.jwt, token, AccessSecret(cfg.env), Seconds(now))
        case Expired => Stop(401, "Token expired")
        case Invalid => Stop(401, "Invalid token")
        case Verified(payload) =>
          match FindUser(db, payload.claims.userId)
          case Found(u) => Pass(u, payload)
          case NotFound => Stop(401, "User not found")
          case Failed => Stop(500, "Internal server error")
  }

  /** For a well-formed bearer header and a reachable table the two authenticating middleware let the
      same requests through, with the same user. */
  lemma GatesAgree(token: string, cfg: Config, t: Users, now: nat)
    requires ' ' !in token && token != ""
    ensures var strict := JwtGate(Some("Bearer " + token), cfg, Available(t), now);
            var lenient := Admit(Some("Bearer " + token), cfg, Available(t), now);
            (strict.Pass? <==> lenient.Pass?) && (strict.Pass? ==> strict == lenient)
  {
    BearerPartsOf(token);
    ExtractTokenOfBearer(token);
  }

  /** `authenticateJwt`: on every refusal the request is left as it was; on success the whole user
      row is attached and `next()` runs. */
  method AuthenticateJwt(req: Request, cfg: Config, db: UserDb, now: nat) returns (outcome: Outcome)
    modifies req
    ensures var g := JwtGate(old(req.authorization), cfg, db, now);
            (g.Stop? ==> outcome == Respond(g.status, g.message) && unchanged(req))
            && (g.Pass? ==> outcome == Next && req.user == Some(Full(g.user))
                              && req.authorization == old(req.authorization) && req.jwtPayload == old(req.jwtPayload))
  {
    var header := req.authorization;
    if header.None? || header.value == "" {
      return Respond(401, "Authorization header missing");
    }
    var token := BearerParts(header.value);
    if token.None? {
      return Respond(401, "Invalid authorization format");
    }
    var decoded := Verify(cfg.jwt, token.value, AccessSecret(cfg.env), Seconds(now));
    if decoded.Expired? {
      return Respond(401, "Token expired");
    } else if decoded.Invalid? {
      return Respond(401, "Invalid token");
    }
    var user := FindUser(db, decoded.payload.claims.userId);
    if user.Failed? {
      return Respond(500, "Internal server error");
    }
    if user.NotFound? {
      return Respond(401, "User not found");
    }
    req.user := Some(Full(user.user));
    outcome := Next;
  }

  /** `optionalAuthenticateJwt`: always `next()`; the user row is attached exactly when
      `authenticateJwt` would have let the request through, and nothing else changes. */
  method OptionalAuthenticateJwt(req: Request, cfg: Config, db: UserDb, now: nat) returns (outcome: Outcome)
    modifies req
    ensures outcome == Next
    ensures req.authorization == old(req.authorization) && req.jwtPayload == old(req.jwtPayload)
    ensures var g := JwtGate(old(req.authorization), cfg, db, now);
            req.user == if g.Pass? then Some(Full(g.user)) else old(req.user)
  {
    outcome := Next;
    var header := req.authorization;
    if header.None? || header.value == "" {
      return;
    }
    var token := BearerParts(header.value);
    if token.None? {
      return;
    }
    var decoded := Verify(cfg.jwt, token.value, AccessSecret(cfg.env), Seconds(now));
    if !decoded.Verified? {
      return;
    }
    var user := FindUser(db, decoded.payload.claims.userId);
    if user.Found? {
      req.user := Some(Full(user.user));
    }
  }

  /** `authorize(roles)`: 401 without a user, 403 when the user's role is not listed, `next()`
      otherwise; the request is only read. */
  function Authorize(roles: seq<string>, req: Request): (o: Outcome)
    reads req
    ensures o == Next <==> req.user.Some? && RoleOf(req.user.value) in roles
    ensures req.user.None? ==> o == Respond(401, "Not authenticated")
    ensures req.user.Some? && RoleOf(req.user.value) !in roles ==> o == Respond(403, "Insufficient permissions")
  {
    Guard(roles, req.user, "Insufficient permissions")
  }
}
