/** The token service: checking credentials, logging in, registering, and issuing, verifying and
    refreshing the access and refresh tokens. */
module AuthService {
  import opened Wrappers
  import opened Users
  import opened Jwt

  /** `bcrypt.hash(password, rounds)` and `bcrypt.compare(password, hash)`. */
  datatype Bcrypt = Bcrypt(hash: (string, nat) -> string, compare: (string, string) -> bool)

  /** What the model assumes of bcrypt: a password matches its own hash. */
  ghost predicate BcryptSound(b: Bcrypt) {
    forall password: string, rounds: nat :: b.compare(password, b.hash(password, rounds))
  }

  /** The salt rounds the blog hashes passwords with. */
  const SaltRounds: nat := 10

  /** The environment and the two libraries the service uses. */
  datatype Config = Config(env: Env, jwt: JwtLib, bcrypt: Bcrypt)

  ghost predicate ConfigSound(cfg: Config) {
    Sound(cfg.jwt) && BcryptSound(cfg.bcrypt)
  }

  /** The `iat` the library stamps at `Date.now()` milliseconds: `Math.floor(now / 1000)`. */
  function Seconds(now: nat): nat {
    now / 1000
  }

  /** The four identity claims of a user. */
  function ClaimsOf(u: PublicUser): (c: Claims)
    ensures c.userId == u.id && c.username == u.username && c.email == u.email && c.role == RoleName(u.role)
  {
    Claims(u.id, u.username, u.email, RoleName(u.role))
  }

  /** `{ user, token, refreshToken }` */
  datatype AuthResponse = AuthResponse(user: PublicUser, token: string, refreshToken: string)

  /** `{ token, refreshToken }` */
  datatype TokenPair = TokenPair(token: string, refreshToken: string)

  /** `generateToken`: signed with the access secret, valid for 24 hours. */
  function GenerateToken(cfg: Config, claims: Claims, now: nat): (token: string)
    ensures Sound(cfg.jwt) ==>
              cfg.jwt.open(token) == Some((Payload(claims, Seconds(now), Seconds(now) + AccessLifetime), AccessSecret(cfg.env)))
  {
    Sign(cfg.jwt, claims, AccessSecret(cfg.env), AccessLifetime, Seconds(now))
  }

  /** `generateRefreshToken`: signed with the refresh secret, valid for 7 days. */
  function GenerateRefreshToken(cfg: Config, claims: Claims, now: nat): (token: string)
    ensures Sound(cfg.jwt) ==>
              cfg.jwt.open(token) == Some((Payload(claims, Seconds(now), Seconds(now) + RefreshLifetime), RefreshSecret(cfg.env)))
  {
    Sign(cfg.jwt, claims, RefreshSecret(cfg.env), RefreshLifetime, Seconds(now))
  }

  /** `verifyToken`: the payload of a token signed with the access secret that has not expired, and
      null for every token `jwt.verify` throws on. */
  function VerifyToken(cfg: Config, token: string, now: nat): (r: Option<Payload>)
    ensures r.Some? <==> Verify(cfg.jwt, token, AccessSecret(cfg.env), Seconds(now)).Verified?
    ensures r.Some? ==> r.value == Verify(cfg.jwt, token, AccessSecret(cfg.env), Seconds(now)).payload
  {
    match Verify(cfg.jwt, token, AccessSecret(cfg.env), Seconds(now))
    case Verified(p) => Some(p)
    case _ => None
  }

  /** `validateUser`: null for an unknown e-mail or a password that does not match the stored hash;
      otherwise the user without the password. */
  function ValidateUser(cfg: Config, users: Users, email: string, password: string): (r: Option<PublicUser>)
    ensures r.Some? <==> FindByEmail(users, email).Some?
                         && cfg.bcrypt.compare(password, FindByEmail(users, email).value.password)
    ensures r.Some? ==> r.value == Strip(FindByEmail(users, email).value)
  {
    match FindByEmail(users, email)
    case None => None
    case Some(u) => if cfg.bcrypt.compare(password, u.password) then Some(Strip(u)) else None
  }

  /** `login`: null, with the table unchanged, when the credentials do not check out; otherwise the
      user's `lastLogin` is set to now, and the reply carries the user as validated (before that
      write) and two tokens carrying the user's identity claims. */
  function Login(cfg: Config, users: Users, email: string, password: string, now: nat): (r: (Users, Option<AuthResponse>))
    ensures r.1.None? <==> ValidateUser(cfg, users, email, password).None?
    ensures r.1.None? ==> r.0 == users
    ensures r.1.Some? ==>
              var u := ValidateUser(cfg, users, email, password).value;
              r.1.value == AuthResponse(u, GenerateToken(cfg, ClaimsOf(u), now), GenerateRefreshToken(cfg, ClaimsOf(u), now))
              && Update(users, u.id, SetLastLogin(now)).Some?
              && r.0 == Update(users, u.id, SetLastLogin(now)).value.0
  {
    match ValidateUser(cfg, users, email, password)
    case None => (users, None)
    case Some(u) =>
      assert FindById(users, u.id).Some?;
      var updated := Update(users, u.id, SetLastLogin(now)).value.0;
      var claims := ClaimsOf(u);
      (updated, Some(AuthResponse(u, GenerateToken(cfg, claims, now), GenerateRefreshToken(cfg, claims, now))))
  }

  /** The fields a caller registers with. */
  datatype Registration = Registration(
    username: string,
    email: string,
    password: string,
    fullName: string,
    avatar: Option<string>,
    bio: Option<string>)

  /** The row `register` asks the store to create: the hashed password and the subscriber role. */
  function NewSubscriber(cfg: Config, data: Registration): (d: NewUser)
    ensures d.role == Subscriber && d.password == cfg.bcrypt.hash(data.password, SaltRounds)
    ensures d.username == data.username && d.email == data.email && d.fullName == data.fullName
    ensures d.avatar == data.avatar && d.bio == data.bio
  {
    NewUser(data.username, data.email, cfg.bcrypt.hash(data.password, SaltRounds), data.fullName, data.avatar, data.bio, Subscriber)
  }

  /** `register`: the store creates a subscriber with the hashed password. When it refuses the user
      (`user.create` throws, e.g. on a taken e-mail) the result is None and nothing is written;
      otherwise the user without the password and a token pair. */
  function Register(cfg: Config, users: Users, data: Registration, now: nat): (r: (Users, Option<AuthResponse>))
    ensures r.1.None? <==> Create(users, NewSubscriber(cfg, data), now).None?
    ensures r.1.None? ==> r.0 == users
    ensures r.1.Some? ==>
              var created := Create(users, NewSubscriber(cfg, data), now).value;
              var u := Strip(created.1);
              r.0 == created.0
              && r.1.value == AuthResponse(u, GenerateToken(cfg, ClaimsOf(u), now), GenerateRefreshToken(cfg, ClaimsOf(u), now))
  {
    match Create(users, NewSubscriber(cfg, data), now)
    case None => (users, None)
    case Some((t, created)) =>
      var u := Strip(created);
      (t, Some(AuthResponse(u, GenerateToken(cfg, ClaimsOf(u), now), GenerateRefreshToken(cfg, ClaimsOf(u), now))))
  }

  /** `refreshToken`: null unless the token verifies with the refresh secret; otherwise a new pair
      for the token's four identity claims, its `iat` and `exp` dropped. Nothing is recorded. */
  function RefreshToken(cfg: Config, token: string, now: nat): (r: Option<TokenPair>)
    ensures r.Some? <==> Verify(cfg.jwt, token, RefreshSecret(cfg.env), Seconds(now)).Verified?
    ensures r.Some? ==>
              var claims := Verify(cfg.jwt, token, RefreshSecret(cfg.env), Seconds(now)).payload.claims;
              r.value == TokenPair(GenerateToken(cfg, claims, now), GenerateRefreshToken(cfg, claims, now))
  {
    match Verify(cfg.jwt, token, RefreshSecret(cfg.env), Seconds(now))
    case Verified(p) =>
      var claims := Claims(p.claims.userId, p.claims.username, p.claims.email, p.claims.role);
      Some(TokenPair(GenerateToken(cfg, claims, now), GenerateRefreshToken(cfg, claims, now)))
    case _ => None
  }

  // ------------------------------------------------------------ how the tokens behave

  /** An access token verifies to its claims for the 24 hours after it is issued, and not after. */
  lemma AccessTokenLifetime(cfg: Config, claims: Claims, issued: nat, now: nat)
    requires ConfigSound(cfg)
    ensures Seconds(now) < Seconds(issued) + AccessLifetime ==>
              VerifyToken(cfg, GenerateToken(cfg, claims, issued), now)
              == Some(Payload(claims, Seconds(issued), Seconds(issued) + AccessLifetime))
    ensures Seconds(issued) + AccessLifetime <= Seconds(now) ==>
              VerifyToken(cfg, GenerateToken(cfg, claims, issued), now) == None
  {
    SignThenVerify(cfg.jwt, claims, AccessSecret(cfg.env), AccessLifetime, Seconds(issued), Seconds(now));
  }

  /** A refresh token is refused where an access token is expected and an access token where a
      refresh token is expected, as long as the two secrets differ. */
  lemma TokenKindsNotInterchangeable(cfg: Config, claims: Claims, issued: nat, now: nat)
    requires ConfigSound(cfg) && AccessSecret(cfg.env) != RefreshSecret(cfg.env)
    ensures VerifyToken(cfg, GenerateRefreshToken(cfg, claims, issued), now) == None
    ensures RefreshToken(cfg, GenerateToken(cfg, claims, issued), now) == None
  {
    OtherKeyInvalid(cfg.jwt, claims, RefreshSecret(cfg.env), AccessSecret(cfg.env), RefreshLifetime, Seconds(issued), Seconds(now));
    OtherKeyInvalid(cfg.jwt, claims, AccessSecret(cfg.env), RefreshSecret(cfg.env), AccessLifetime, Seconds(issued), Seconds(now));
  }

  /** A refresh token is never used up: within its 7 days every call succeeds, each time with a new
      pair for the same claims, whose access token verifies to those claims. */
  lemma RefreshReplayable(cfg: Config, claims: Claims, issued: nat, now: nat)
    requires ConfigSound(cfg)
    requires Seconds(now) < Seconds(issued) + RefreshLifetime
    ensures RefreshToken(cfg, GenerateRefreshToken(cfg, claims, issued), now)
            == Some(TokenPair(GenerateToken(cfg, claims, now), GenerateRefreshToken(cfg, claims, now)))
    ensures VerifyToken(cfg, GenerateToken(cfg, claims, now), now)
            == Some(Payload(claims, Seconds(now), Seconds(now) + AccessLifetime))
  {
    SignThenVerify(cfg.jwt, claims, RefreshSecret(cfg.env), RefreshLifetime, Seconds(issued), Seconds(now));
    AccessTokenLifetime(cfg, claims, now, now);
  }

  /** The tokens of a successful login carry the user's identity claims: the access token verifies
      to them until it expires. */
  lemma LoginTokenVerifies(cfg: Config, users: Users, email: string, password: string, now: nat, later: nat)
    requires ConfigSound(cfg)
    requires Login(cfg, users, email, password, now).1.Some?
    requires Seconds(later) < Seconds(now) + AccessLifetime
    ensures var resp := Login(cfg, users, email, password, now).1.value;
            VerifyToken(cfg, resp.token, later) == Some(Payload(ClaimsOf(resp.user), Seconds(now), Seconds(now) + AccessLifetime))
            && resp.user.email == email
  {
    var resp := Login(cfg, users, email, password, now).1.value;
    AccessTokenLifetime(cfg, ClaimsOf(resp.user), now, later);
  }

  /** A user who has just registered can log in with the same e-mail and password. */
  lemma RegisterThenLogin(cfg: Config, users: Users, data: Registration, now: nat, later: nat)
    requires ConfigSound(cfg) && Valid(users)
    requires Register(cfg, users, data, now).1.Some?
    ensures var t := Register(cfg, users, data, now).0;
            ValidateUser(cfg, t, data.email, data.password) == Some(Register(cfg, users, data, now).1.value.user)
            && Login(cfg, t, data.email, data.password, later).1.Some?
  {
    var created := Create(users, NewSubscriber(cfg, data), now).value;
    var t := created.0;
    var u := created.1;
    assert t.rows == users.rows + [u];
    assert forall k :: 0 <= k < |users.rows| ==> users.rows[k].email != data.email;
    assert FindEmailIn(t.rows, data.email) == Some(u) by {
      FindEmailLast(users.rows, u, data.email);
    }
    assert cfg.bcrypt.compare(data.password, u.password);
  }

  /** Looking an e-mail up in rows that end with the only row holding it finds that row. */
  lemma {:induction false} FindEmailLast(rows: seq<User>, u: User, email: string)
    requires u.email == email
    requires forall k :: 0 <= k < |rows| ==> rows[k].email != email
    ensures FindEmailIn(rows + [u], email) == Some(u)
  {
    if rows != [] {
      assert (rows + [u])[1..] == rows[1..] + [u];
      FindEmailLast(rows[1..], u, email);
    }
  }
}
