/** `authMiddleware` and `roleGuard`: the bearer token of the `Authorization` header must verify with
    the access secret and name an existing user, who is then attached to the request without the
    password. */
module AuthMiddleware {
  import opened Wrappers
  import opened Strings
  import opened Users
  import opened Jwt
  import opened AuthService
  import opened Requests

  /** `extractTokenFromHeader`: nothing unless the header starts with `"Bearer "`; otherwise the second
      piece of the header split at spaces, that is, the word after `"Bearer "` up to the next space. */
  function ExtractToken(header: Option<string>): (r: Option<string>)
    ensures r.None? <==> header.None? || !StartsWith(header.value, "Bearer ")
    ensures r.Some? ==>
              var rest := header.value[7..];
              ' ' !in r.value && (r.value == rest || StartsWith(rest, r.value + " "))
  {
    if header.None? || header.value == "" || !StartsWith(header.value, "Bearer ") then None
    else
      var h := header.value;
      BearerSplit(h);
      FirstWord(h[7..]);
      Some(Split(h, ' ')[1])
  }

  /** A header that starts with `"Bearer "` splits into `"Bearer"` and the pieces of what follows. */
  lemma BearerSplit(h: string)
    requires StartsWith(h, "Bearer ")
    ensures Split(h, ' ') == ["Bearer"] + Split(h[7..], ' ')
  {
    assert h == "Bearer" + [' '] + h[7..];
    SplitAfterWord("Bearer", ' ', h[7..]);
  }

  /** The first piece of a split is the whole string or is followed by the separator. */
  lemma FirstWord(s: string)
    ensures var w := Split(s, ' ')[0]; w == s || StartsWith(s, w + " ")
  {
    var k := IndexOfChar(s, ' ');
    if k < |s| {
      assert Split(s, ' ')[0] == s[..k];
      assert s[..k + 1] == s[..k] + " ";
    }
  }

  /** A bearer header built from a word without spaces gives the word back. */
  lemma ExtractTokenOfBearer(token: string)
    requires ' ' !in token
    ensures ExtractToken(Some("Bearer " + token)) == Some(token)
  {
    var h := "Bearer " + token;
    assert h[7..] == token;
    BearerSplit(h);
    SplitNoSeparator(token, ' ');
  }

  /** Whatever follows a second space is ignored: `"Bearer a b"` yields `"a"`. */
  lemma ExtractTokenIgnoresRest(word: string, rest: string)
    requires ' ' !in word
    ensures ExtractToken(Some("Bearer " + word + " " + rest)) == Some(word)
  {
    var h := "Bearer " + word + " " + rest;
    BearerSplit(h);
    assert h[7..] == word + [' '] + rest;
    SplitAfterWord(word, ' ', rest);
  }

  /** What `authMiddleware` decides: 401 when the token is missing or empty, when it does not verify,
      when no user has its id, and when looking the user up throws; otherwise the user and payload. */
  function Admit(header: Option<string>, cfg: Config, db: UserDb, now: nat): (g: Gate)
    ensures g.Stop? ==> g.status == 401
    ensures g.Pass? <==>
              ExtractToken(header).Some? && ExtractToken(header).value != ""
              && VerifyToken(cfg, ExtractToken(header).value, now).Some?
              && FindUser(db, VerifyToken(cfg, ExtractToken(header).value, now).value.claims.userId).Found?
    ensures g.Pass? ==>
              Some(g.payload) == VerifyToken(cfg, ExtractToken(header).value, now)
              && g.user.id == g.payload.claims.userId && g.user in db.table.rows
    ensures ExtractToken(header).None? || ExtractToken(header).value == "" ==>
              g == Stop(401, "Authentication token is missing")
    ensures ExtractToken(header).Some? && ExtractToken(header).value != ""
            && VerifyToken(cfg, ExtractToken(header).value, now).None? ==>
              g == Stop(401, "Invalid or expired token")
    ensures ExtractToken(header).Some? && ExtractToken(header).value != ""
            && VerifyToken(cfg, ExtractToken(header).value, now).Some?
            && FindUser(db, VerifyToken(cfg, ExtractToken(header).value, now).value.claims.userId).NotFound? ==>
              g == Stop(401, "User not found")
    ensures (db.Unavailable? && g.Stop? && g.message != "Authentication token is missing"
             && g.message != "Invalid or expired token") ==> g.message == "Authentication failed"
  {
    var token := ExtractToken(header);
    if token.None? || token.value == "" then Stop(401, "Authentication token is missing")
    else
      match VerifyToken(cfg, token.value, now)
      case None => Stop(401, "Invalid or expired token")
      case Some(payload) =>
        match FindUser(db, payload.claims.userId)
        case Found(u) => Pass(u, payload)
        case NotFound => Stop(401, "User not found")
        case Failed => Stop(401, "Authentication failed")
  }

  /** `authMiddleware`: on every refusal the request is left as it was and the reply is 401; on
      success the user without the password and the verified payload are attached and `next()` runs. */
  method Authenticate(req: Request, cfg: Config, db: UserDb, now: nat) returns (outcome: Outcome)
    modifies req
    ensures var g := Admit(old(req.authorization), cfg, db, now);
            (g.Stop? ==> outcome == Respond(g.status, g.message) && unchanged(req))
            && (g.Pass? ==> outcome == Next && req.authorization == old(req.authorization)
                              && req.user == Some(Public(Strip(g.user))) && req.jwtPayload == Some(g.payload))
  {
    var token := ExtractToken(req.authorization);
    if token.None? || token.value == "" {
      return Respond(401, "Authentication token is missing");
    }
    var payload := VerifyToken(cfg, token.value, now);
    if payload.None? {
      return Respond(401, "Invalid or expired token");
    }
    var user := FindUser(db, payload.value.claims.userId);
    if user.Failed? {
      return Respond(401, "Authentication failed");
    }
    if user.NotFound? {
      return Respond(401, "User not found");
    }
    req.user := Some(Public(Strip(user.user)));
    req.jwtPayload := payload;
    outcome := Next;
  }

  /** `roleGuard(roles)`: 401 without a user, 403 when the user's role is not listed, `next()`
      otherwise; the request is only read. */
  function RoleGuard(roles: seq<string>, req: Request): (o: Outcome)
    reads req
    ensures o == Next <==> req.user.Some? && RoleOf(req.user.value) in roles
    ensures req.user.None? ==> o == Respond(401, "Not authenticated")
    ensures req.user.Some? && RoleOf(req.user.value) !in roles ==> o == Respond(403, "Forbidden: Insufficient permissions")
  {
    Guard(roles, req.user, "Forbidden: Insufficient permissions")
  }

  /** The access token of a successful login gets its holder through `authMiddleware` for 24 hours,
      against the table the login left behind, and the role guard then sees the holder's role. */
  lemma LoginTokenAdmitted(cfg: Config, users: Users, email: string, password: string, now: nat, later: nat)
    requires ConfigSound(cfg)
    requires Login(cfg, users, email, password, now).1.Some?
    requires Seconds(later) < Seconds(now) + AccessLifetime
    ensures var r := Login(cfg, users, email, password, now);
            var t := r.0;
            var resp := r.1.value;
            var g := Admit(Some("Bearer " + resp.token), cfg, Available(t), later);
            g.Pass? && g.user.id == resp.user.id && g.payload.claims == ClaimsOf(resp.user)
  {
    var r := Login(cfg, users, email, password, now);
    var t := r.0;
    var resp := r.1.value;
    LoginTokenVerifies(cfg, users, email, password, now, later);
    var claims := ClaimsOf(resp.user);
    assert resp.token == Sign(cfg.jwt, claims, AccessSecret(cfg.env), AccessLifetime, Seconds(now));
    assert ' ' !in resp.token && resp.token != "";
    ExtractTokenOfBearer(resp.token);
    var row := FindByEmail(users, email).value;
    var k :| 0 <= k < |users.rows| && users.rows[k] == row;
    assert t.rows[k].id == resp.user.id;
  }
}
