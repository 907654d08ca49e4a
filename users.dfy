/** The user records of the blog and the user table the services read and write: lookups by id and
    by e-mail, creation under the unique e-mail and user-name constraints, partial updates and
    deletion, as the services use them. */
module Users {
  import opened Wrappers

  /** `'admin' | 'author' | 'subscriber'` */
  datatype Role = Admin | Author | Subscriber

  function RoleName(r: Role): string {
    match r
    case Admin => "admin"
    case Author => "author"
    case Subscriber => "subscriber"
  }

  /** `['admin', 'author', 'subscriber'].includes(s)`, answering which role it names. */
  function ParseRole(s: string): (r: Option<Role>)
    ensures r.Some? ==> RoleName(r.value) == s
    ensures r.None? <==> forall role: Role :: RoleName(role) != s
  {
    if s == "admin" then Some(Admin)
    else if s == "author" then Some(Author)
    else if s == "subscriber" then Some(Subscriber)
    else None
  }

  /** The role names read back as the roles they name: the role set is closed. */
  lemma ParseRoleName(r: Role)
    ensures ParseRole(RoleName(r)) == Some(r)
  {
  }

  /** A stored user. Dates are milliseconds since the epoch. */
  datatype User = User(
    id: int,
    username: string,
    email: string,
    password: string,
    fullName: string,
    avatar: Option<string>,
    bio: Option<string>,
    role: Role,
    createdAt: int,
    updatedAt: Option<int>,
    lastLogin: Option<int>)

  /** `Omit<User, 'password'>` */
  datatype PublicUser = PublicUser(
    id: int,
    username: string,
    email: string,
    fullName: string,
    avatar: Option<string>,
    bio: Option<string>,
    role: Role,
    createdAt: int,
    updatedAt: Option<int>,
    lastLogin: Option<int>)

  /** `const { password: _, ...rest } = user` */
  function Strip(u: User): (p: PublicUser)
    ensures p.id == u.id && p.username == u.username && p.email == u.email && p.fullName == u.fullName
    ensures p.avatar == u.avatar && p.bio == u.bio && p.role == u.role
    ensures p.createdAt == u.createdAt && p.updatedAt == u.updatedAt && p.lastLogin == u.lastLogin
  {
    PublicUser(u.id, u.username, u.email, u.fullName, u.avatar, u.bio, u.role, u.createdAt, u.updatedAt, u.lastLogin)
  }

  /** Two users that differ only in their password look the same once it is stripped. */
  lemma StripForgetsPassword(u: User, password: string)
    ensures Strip(u.(password := password)) == Strip(u)
  {
  }

  /** The user table and the id its next row gets. */
  datatype Users = Users(rows: seq<User>, nextId: int)

  /** Ids, e-mails and user names are unique, and every id is below the next one. */
  ghost predicate Valid(t: Users) {
    1 <= t.nextId
    && (forall k :: 0 <= k < |t.rows| ==> t.rows[k].id < t.nextId)
    && (forall i, j :: 0 <= i < j < |t.rows| ==>
          t.rows[i].id != t.rows[j].id && t.rows[i].email != t.rows[j].email
          && t.rows[i].username != t.rows[j].username)
  }

  /** `findUnique({ where: { id } })` */
  function FindById(t: Users, id: int): (r: Option<User>)
    ensures r.None? <==> forall k :: 0 <= k < |t.rows| ==> t.rows[k].id != id
    ensures r.Some? ==> r.value.id == id && r.value in t.rows
  {
    FindIdIn(t.rows, id)
  }

  function FindIdIn(rows: seq<User>, id: int): (r: Option<User>)
    ensures r.None? <==> forall k :: 0 <= k < |rows| ==> rows[k].id != id
    ensures r.Some? ==> r.value.id == id && r.value in rows
  {
    if rows == [] then None
    else if rows[0].id == id then Some(rows[0])
    else
      var r := FindIdIn(rows[1..], id);
      assert forall k :: 1 <= k < |rows| ==> rows[k] == rows[1..][k - 1];
      r
  }

  /** `findUnique({ where: { email } })` */
  function FindByEmail(t: Users, email: string): (r: Option<User>)
    ensures r.None? <==> forall k :: 0 <= k < |t.rows| ==> t.rows[k].email != email
    ensures r.Some? ==> r.value.email == email && r.value in t.rows
  {
    FindEmailIn(t.rows, email)
  }

  function FindEmailIn(rows: seq<User>, email: string): (r: Option<User>)
    ensures r.None? <==> forall k :: 0 <= k < |rows| ==> rows[k].email != email
    ensures r.Some? ==> r.value.email == email && r.value in rows
  {
    if rows == [] then None
    else if rows[0].email == email then Some(rows[0])
    else
      var r := FindEmailIn(rows[1..], email);
      assert forall k :: 1 <= k < |rows| ==> rows[k] == rows[1..][k - 1];
      r
  }

  /** In a valid table the row a lookup by id finds is the only row with that id. */
  lemma FindByIdUnique(t: Users, k: nat)
    requires Valid(t) && k < |t.rows|
    ensures FindById(t, t.rows[k].id) == Some(t.rows[k])
  {
    var r := FindById(t, t.rows[k].id);
    var j :| 0 <= j < |t.rows| && t.rows[j] == r.value;
  }

  /** In a valid table the row a lookup by e-mail finds is the only row with that e-mail. */
  lemma FindByEmailUnique(t: Users, k: nat)
    requires Valid(t) && k < |t.rows|
    ensures FindByEmail(t, t.rows[k].email) == Some(t.rows[k])
  {
    var r := FindByEmail(t, t.rows[k].email);
    var j :| 0 <= j < |t.rows| && t.rows[j] == r.value;
  }

  /** The fields of a user the caller supplies at creation. */
  datatype NewUser = NewUser(
    username: string,
    email: string,
    password: string,
    fullName: string,
    avatar: Option<string>,
    bio: Option<string>,
    role: Role)

  /** `user.create({ data })`: the store refuses a user whose e-mail or user name is taken (None);
      otherwise the row gets the next id and the creation date. */
  function Create(t: Users, d: NewUser, now: int): (r: Option<(Users, User)>)
    ensures r.None? <==> exists k :: 0 <= k < |t.rows| && (t.rows[k].email == d.email || t.rows[k].username == d.username)
    ensures r.Some? ==>
              var u := r.value.1;
              u.id == t.nextId && u.username == d.username && u.email == d.email && u.password == d.password
              && u.fullName == d.fullName && u.avatar == d.avatar && u.bio == d.bio && u.role == d.role
              && u.createdAt == now && u.lastLogin.None?
              && r.value.0 == Users(t.rows + [u], t.nextId + 1)
    ensures r.Some? && Valid(t) ==> Valid(r.value.0)
  {
    if exists k :: 0 <= k < |t.rows| && (t.rows[k].email == d.email || t.rows[k].username == d.username) then
      None
    else
      var u := User(t.nextId, d.username, d.email, d.password, d.fullName, d.avatar, d.bio, d.role, now, None, None);
      Some((Users(t.rows + [u], t.nextId + 1), u))
  }

  /** The partial updates the services make through `user.update`. A full name that is None was left
      out of the data, and the store leaves it as it is; the optional bio and avatar are left as they
      are when absent, cleared by a `null` and overwritten when given. */
  datatype Patch =
    | Profile(fullName: Option<string>, bio: Field<string>, avatar: Field<string>, at: int)
    | SetRole(role: Role)
    | SetLastLogin(at: int)
    | SetPassword(hash: string, at: int)

  function Apply(u: User, p: Patch): (v: User)
    ensures v.id == u.id && v.email == u.email && v.username == u.username && v.createdAt == u.createdAt
  {
    match p
    case Profile(fullName, bio, avatar, at) =>
      u.(fullName := fullName.GetOr(u.fullName),
         bio := bio.Over(u.bio),
         avatar := avatar.Over(u.avatar),
         updatedAt := Some(at))
    case SetRole(role) => u.(role := role)
    case SetLastLogin(at) => u.(lastLogin := Some(at))
    case SetPassword(hash, at) => u.(password := hash, updatedAt := Some(at))
  }

  /** `user.update({ where: { id }, data })`: the store refuses an id no row has (None); otherwise
      every row with the id is patched and the patched row is returned. */
  function Update(t: Users, id: int, p: Patch): (r: Option<(Users, User)>)
    ensures r.None? <==> FindById(t, id).None?
    ensures r.Some? ==>
              r.value.1 == Apply(FindById(t, id).value, p)
              && r.value.0.nextId == t.nextId
              && |r.value.0.rows| == |t.rows|
              && forall k :: 0 <= k < |t.rows| ==>
                   r.value.0.rows[k] == if t.rows[k].id == id then Apply(t.rows[k], p) else t.rows[k]
    ensures r.Some? && Valid(t) ==> Valid(r.value.0)
  {
    match FindById(t, id)
    case None => None
    case Some(u) =>
      var rows := seq(|t.rows|, k requires 0 <= k < |t.rows| => if t.rows[k].id == id then Apply(t.rows[k], p) else t.rows[k]);
      Some((Users(rows, t.nextId), Apply(u, p)))
  }

  /** In a valid table, looking the id up after an update finds the updated row. */
  lemma UpdateThenFindById(t: Users, id: int, p: Patch)
    requires Valid(t) && Update(t, id, p).Some?
    ensures FindById(Update(t, id, p).value.0, id) == Some(Update(t, id, p).value.1)
  {
    var u := FindById(t, id).value;
    var k :| 0 <= k < |t.rows| && t.rows[k] == u;
    FindByIdUnique(t, k);
    FindByIdUnique(Update(t, id, p).value.0, k);
  }

  /** `user.delete({ where: { id } })`: the store refuses an id no row has (None). */
  function Delete(t: Users, id: int): (r: Option<Users>)
    ensures r.None? <==> FindById(t, id).None?
    ensures r.Some? ==> r.value.nextId == t.nextId
                        && forall u :: u in r.value.rows <==> u in t.rows && u.id != id
  {
    if FindById(t, id).None? then None
    else Some(Users(RemoveId(t.rows, id), t.nextId))
  }

  function RemoveId(rows: seq<User>, id: int): (r: seq<User>)
    ensures forall u :: u in r <==> u in rows && u.id != id
    ensures |r| <= |rows|
  {
    if rows == [] then []
    else if rows[0].id == id then RemoveId(rows[1..], id)
    else [rows[0]] + RemoveId(rows[1..], id)
  }

  /** `findMany({ skip, take, select: everything but the password })` with `count()`: the store refuses
      a negative skip or take (None); otherwise the rows `[skip, skip + take)` without their
      passwords, and the number of all rows. */
  function FindPage(t: Users, skip: int, take: int): (r: Option<(seq<PublicUser>, nat)>)
    ensures r.None? <==> skip < 0 || take < 0
    ensures r.Some? ==>
              r.value.1 == |t.rows|
              && |r.value.0| == (if skip >= |t.rows| then 0 else if skip + take <= |t.rows| then take else |t.rows| - skip)
              && forall k :: 0 <= k < |r.value.0| ==> skip + k < |t.rows| && r.value.0[k] == Strip(t.rows[skip + k])
  {
    if skip < 0 || take < 0 then None
    else
      var rows := if skip >= |t.rows| then [] else if skip + take <= |t.rows| then t.rows[skip..skip + take] else t.rows[skip..];
      Some((seq(|rows|, k requires 0 <= k < |rows| => Strip(rows[k])), |t.rows|))
  }

  /** The user table as a request handler reaches it: a query either runs against the table or throws
      (the database is unreachable). */
  datatype UserDb = Available(table: Users) | Unavailable

  /** What `userService.findById(id)` gives a caller: the row, null, or an exception. */
  datatype Lookup = Found(user: User) | NotFound | Failed

  function FindUser(db: UserDb, id: int): (r: Lookup)
    ensures r.Failed? <==> db.Unavailable?
    ensures r.NotFound? <==> db.Available? && FindById(db.table, id).None?
    ensures r.Found? ==> db.Available? && Some(r.user) == FindById(db.table, id)
  {
    match db
    case Unavailable => Failed
    case Available(t) =>
      match FindById(t, id)
      case None => NotFound
      case Some(u) => Found(u)
  }
}
