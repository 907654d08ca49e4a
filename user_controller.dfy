/** `UserController`: the profile endpoints of the signed-in user and the administrator's user
    endpoints. Each handler is a function of the user table and the request's inputs, giving the new
    table and the reply. Every user a reply carries is a `PublicUser`, which has no password. */
module UserController {
  import opened Wrappers
  import opened Strings
  import opened Users
  import opened AuthService

  /** `!req.user?.id`: no signed-in user, or the id 0. */
  predicate NoCaller(caller: Option<int>) {
    caller.None? || caller.value == 0
  }

  const ServerError: Reply<PublicUser> := Reply(500, Message("Internal server error"))

  /** `getProfile`: 401 without a caller, 404 when no user has the caller's id, otherwise 200 with the
      caller's row without the password. */
  function GetProfile(t: Users, caller: Option<int>): (r: Reply<PublicUser>)
    ensures NoCaller(caller) <==> r == Reply(401, Message("Not authenticated"))
    ensures !NoCaller(caller) ==>
              (r == Reply(404, Message("User not found")) <==> FindById(t, caller.value).None?)
    ensures r.status == 200 <==> !NoCaller(caller) && FindById(t, caller.value).Some?
    ensures r.status == 200 ==> r.body == Json(Strip(FindById(t, caller.value).value))
  {
    if NoCaller(caller) then Reply(401, Message("Not authenticated"))
    else
      match FindById(t, caller.value)
      case None => Reply(404, Message("User not found"))
      case Some(u) => Reply(200, Json(Strip(u)))
  }

  /** `updateProfile`: 401 without a caller; otherwise the store writes the body's full name, bio and
      avatar (each left as it is when the body leaves it out) and the update time into the caller's
      row. It refuses a `null` full name, the column being required, and an unknown id, so the reply
      is 500; a `null` bio or avatar clears it. Otherwise 200 with the new row without the password. */
  function UpdateProfile(t: Users, caller: Option<int>, fullName: Field<string>, bio: Field<string>,
                         avatar: Field<string>, now: int): (r: (Users, Reply<PublicUser>))
    ensures NoCaller(caller) ==> r == (t, Reply(401, Message("Not authenticated")))
    ensures !NoCaller(caller) && (fullName.Null? || FindById(t, caller.value).None?) ==> r == (t, ServerError)
    ensures r.1.status == 200 <==> !NoCaller(caller) && !fullName.Null? && FindById(t, caller.value).Some?
    ensures r.1.status == 200 ==>
              var u := Update(t, caller.value, Profile(fullName.Defined(), bio, avatar, now)).value;
              r.0 == u.0 && r.1.body == Json(Strip(u.1))
  {
    if NoCaller(caller) then (t, Reply(401, Message("Not authenticated")))
    else if fullName.Null? then (t, ServerError)
    else
      match Update(t, caller.value, Profile(fullName.Defined(), bio, avatar, now))
      case None => (t, ServerError)
      case Some((t', u)) => (t', Reply(200, Json(Strip(u))))
  }

  /** A profile update leaves the caller's identity, role, password and login time as they were,
      writes exactly the profile fields the body carried (clearing a bio or avatar sent as `null`),
      changes no other row, and the profile read back afterwards is the one the reply carried. */
  lemma UpdateProfileOnlyProfile(t: Users, caller: int, fullName: Field<string>, bio: Field<string>,
                                 avatar: Field<string>, now: int)
    requires Valid(t) && caller != 0
    requires UpdateProfile(t, Some(caller), fullName, bio, avatar, now).1.status == 200
    ensures var (t', reply) := UpdateProfile(t, Some(caller), fullName, bio, avatar, now);
            var before := FindById(t, caller).value;
            var after := FindById(t', caller).value;
            FindById(t', caller).Some?
            && after.email == before.email && after.username == before.username && after.role == before.role
            && after.password == before.password && after.lastLogin == before.lastLogin
            && after.createdAt == before.createdAt && after.updatedAt == Some(now)
            && (fullName.Given? ==> after.fullName == fullName.value)
            && (fullName.Absent? ==> after.fullName == before.fullName)
            && (bio.Absent? ==> after.bio == before.bio) && (bio.Null? ==> after.bio.None?)
            && (bio.Given? ==> after.bio == Some(bio.value))
            && (avatar.Absent? ==> after.avatar == before.avatar) && (avatar.Null? ==> after.avatar.None?)
            && (avatar.Given? ==> after.avatar == Some(avatar.value))
            && |t'.rows| == |t.rows|
            && (forall k :: 0 <= k < |t.rows| && t.rows[k].id != caller ==> t'.rows[k] == t.rows[k])
            && GetProfile(t', Some(caller)) == reply
  {
    UpdateThenFindById(t, caller, Profile(fullName.Defined(), bio, avatar, now));
  }

  /** `changePassword`: 401 without a caller; 400 when either password is missing or empty; 404 for
      an unknown caller; 400 when the current password does not match the stored hash; otherwise the
      hash of the new password (10 rounds) replaces the stored one, and the reply is 200. The table
      changes only on that last path. */
  function ChangePassword(cfg: Config, t: Users, caller: Option<int>, current: Option<string>,
                          newPassword: Option<string>, now: int): (r: (Users, Reply<PublicUser>))
    ensures NoCaller(caller) ==> r == (t, Reply(401, Message("Not authenticated")))
    ensures !NoCaller(caller) && (Falsy(current) || Falsy(newPassword)) ==>
              r == (t, Reply(400, Message("Current password and new password are required")))
    ensures r.1.status == 200 <==>
              !NoCaller(caller) && !Falsy(current) && !Falsy(newPassword)
              && FindById(t, caller.value).Some?
              && cfg.bcrypt.compare(current.value, FindById(t, caller.value).value.password)
    ensures !NoCaller(caller) && !Falsy(current) && !Falsy(newPassword) && FindById(t, caller.value).None? ==>
              r == (t, Reply(404, Message("User not found")))
    ensures !NoCaller(caller) && !Falsy(current) && !Falsy(newPassword) && FindById(t, caller.value).Some?
            && !cfg.bcrypt.compare(current.value, FindById(t, caller.value).value.password) ==>
              r == (t, Reply(400, Message("Current password is incorrect")))
    ensures r.1.status != 200 ==> r.0 == t
    ensures r.1.status == 200 ==>
              r == (Update(t, caller.value, SetPassword(cfg.bcrypt.hash(newPassword.value, SaltRounds), now)).value.0,
                    Reply(200, Message("Password changed successfully")))
  {
    if NoCaller(caller) then (t, Reply(401, Message("Not authenticated")))
    else if Falsy(current) || Falsy(newPassword) then
      (t, Reply(400, Message("Current password and new password are required")))
    else
      match FindById(t, caller.value)
      case None => (t, Reply(404, Message("User not found")))
      case Some(u) =>
        if !cfg.bcrypt.compare(current.value, u.password) then (t, Reply(400, Message("Current password is incorrect")))
        else
          var hashed := cfg.bcrypt.hash(newPassword.value, SaltRounds);
          (Update(t, caller.value, SetPassword(hashed, now)).value.0, Reply(200, Message("Password changed successfully")))
  }

  /** After a password change the caller's credentials are the e-mail and the new password: signing in
      with them is accepted. */
  lemma ChangePasswordThenValidate(cfg: Config, t: Users, caller: int, current: string, newPassword: string, now: int)
    requires BcryptSound(cfg.bcrypt) && Valid(t) && caller != 0
    requires ChangePassword(cfg, t, Some(caller), Some(current), Some(newPassword), now).1.status == 200
    ensures var t' := ChangePassword(cfg, t, Some(caller), Some(current), Some(newPassword), now).0;
            var email := FindById(t, caller).value.email;
            ValidateUser(cfg, t', email, newPassword) == Some(Strip(FindById(t', caller).value))
  {
    NewPasswordValidates(cfg, t, caller, newPassword, now);
  }

  lemma NewPasswordValidates(cfg: Config, t: Users, caller: int, newPassword: string, now: int)
    requires BcryptSound(cfg.bcrypt) && Valid(t) && FindById(t, caller).Some?
    ensures var t' := Update(t, caller, SetPassword(cfg.bcrypt.hash(newPassword, SaltRounds), now)).value.0;
            ValidateUser(cfg, t', FindById(t, caller).value.email, newPassword) == Some(Strip(FindById(t', caller).value))
  {
    var hashed := cfg.bcrypt.hash(newPassword, SaltRounds);
    var patch := SetPassword(hashed, now);
    var before := FindById(t, caller).value;
    var r := Update(t, caller, patch).value;
    var t' := r.0;
    assert Valid(t');
    UpdateThenFindById(t, caller, patch);
    var u := r.1;
    assert u == Apply(before, patch) && u.email == before.email && u.password == hashed;
    var k :| 0 <= k < |t'.rows| && t'.rows[k] == u;
    FindByEmailUnique(t', k);
    assert cfg.bcrypt.compare(newPassword, hashed);
  }

  /** `parseInt(query) || fallback`: the number the query starts with, unless there is none or it is 0. */
  function QueryOr(query: Option<string>, fallback: int): (n: int)
    ensures fallback != 0 ==> n != 0
    ensures query.Some? && ParseInt(query.value).Some? && ParseInt(query.value).value != 0 ==> n == ParseInt(query.value).value
    ensures query.None? || ParseInt(query.value).None? || ParseInt(query.value) == Some(0) ==> n == fallback
  {
    if query.None? then fallback
    else
      match ParseInt(query.value)
      case None => fallback
      case Some(v) => if v == 0 then fallback else v
  }

  /** A page number or limit written out in the query is read back as that number. */
  lemma QueryOrOfNumber(n: int, fallback: int)
    requires n != 0
    ensures QueryOr(Some(IntToString(n)), fallback) == n
  {
    ParseIntToString(n);
  }

  /** `Math.ceil(total / limit)` for a positive limit: the fewest pages of `limit` rows that hold
      `total` rows. */
  function PageCount(total: nat, limit: int): (pages: nat)
    requires limit > 0
    ensures total <= pages * limit
    ensures (pages - 1) * limit < total || pages == 0
  {
    var q := (total + limit - 1) / limit;
    var rem := (total + limit - 1) % limit;
    assert total + limit - 1 == q * limit + rem;
    assert (q - 1) * limit == q * limit - limit;
    q
  }

  datatype Pagination = Pagination(total: nat, page: int, limit: int, pages: nat)

  /** `{ users, pagination }` */
  datatype UserList = UserList(users: seq<PublicUser>, pagination: Pagination)

  /** The page `getAllUsers` answers for a page number and limit: the `limit` rows from
      `(page - 1) * limit` on, without passwords, and the page count. The store refuses a negative
      skip or limit, so the reply is then 500. */
  function Paginate(t: Users, page: int, limit: int): (r: Reply<UserList>)
    requires limit != 0
    ensures var skip := (page - 1) * limit;
            (r.status == 200 <==> skip >= 0 && limit > 0)
            && (r.status != 200 ==> r == Reply(500, Message("Internal server error")))
            && (r.status == 200 ==>
                  r.body.Json? && r.body.value.pagination.total == |t.rows|
                  && r.body.value.pagination.page == page && r.body.value.pagination.limit == limit
                  && var users := r.body.value.users;
                     |users| == (if skip >= |t.rows| then 0 else if skip + limit <= |t.rows| then limit else |t.rows| - skip)
                     && (forall k :: 0 <= k < |users| ==> skip + k < |t.rows| && users[k] == Strip(t.rows[skip + k])))
    ensures r.status == 200 ==>
              var pages := r.body.value.pagination.pages;
              |t.rows| <= pages * limit && ((pages - 1) * limit < |t.rows| || pages == 0)
  {
    var skip := (page - 1) * limit;
    match FindPage(t, skip, limit)
    case None => Reply(500, Message("Internal server error"))
    case Some((users, total)) =>
      Reply(200, Json(UserList(users, Pagination(total, page, limit, PageCount(total, limit)))))
  }

  /** `getAllUsers`: the page and limit the query asks for, 1 and 10 when it asks for none. */
  function GetAllUsers(t: Users, pageQuery: Option<string>, limitQuery: Option<string>): (r: Reply<UserList>)
    ensures pageQuery.None? && limitQuery.None? ==> r == Paginate(t, 1, 10)
  {
    Paginate(t, QueryOr(pageQuery, 1), QueryOr(limitQuery, 10))
  }

  /** Every user is listed on one of the pages the pagination announces: row `k` is on page
      `k / limit + 1`. */
  lemma EveryUserListed(t: Users, limit: int, k: nat)
    requires limit > 0 && k < |t.rows|
    ensures var page := k / limit + 1;
            var r := Paginate(t, page, limit);
            r.status == 200 && 1 <= page <= r.body.value.pagination.pages
            && k - (page - 1) * limit < |r.body.value.users|
            && r.body.value.users[k - (page - 1) * limit] == Strip(t.rows[k])
  {
    RowOnPage(limit, k);
    ListedOnPage(t, k / limit + 1, limit, k);
  }

  /** Row `k` is listed on a page whose range holds it, and that page is one of those announced. */
  lemma ListedOnPage(t: Users, page: int, limit: int, k: nat)
    requires limit > 0 && page >= 1 && k < |t.rows|
    requires (page - 1) * limit <= k < (page - 1) * limit + limit
    ensures var r := Paginate(t, page, limit);
            r.status == 200 && page <= r.body.value.pagination.pages
            && k - (page - 1) * limit < |r.body.value.users|
            && r.body.value.users[k - (page - 1) * limit] == Strip(t.rows[k])
  {
    var skip := (page - 1) * limit;
    var r := Paginate(t, page, limit);
    var users := r.body.value.users;
    assert k - skip < |users|;
    assert users[k - skip] == Strip(t.rows[k]);
    var pages := r.body.value.pagination.pages;
    if pages < page {
      MulMonotone(pages, page - 1, limit);
    }
  }

  lemma MulMonotone(a: int, b: int, c: int)
    requires a <= b && c >= 0
    ensures a * c <= b * c
  {
    assert b * c - a * c == (b - a) * c;
  }

  /** Row `k` lies in the `limit` rows from `(k / limit) * limit` on. */
  lemma RowOnPage(limit: int, k: nat)
    requires limit > 0
    ensures 0 <= (k / limit) * limit <= k < (k / limit) * limit + limit
  {
    assert k == (k / limit) * limit + k % limit;
  }

  /** `getUserById`: 400 for an id `parseInt` cannot read, 404 for an unknown id, otherwise 200 with
      the row without the password. */
  function GetUserById(t: Users, param: string): (r: Reply<PublicUser>)
    ensures ParseInt(param).None? <==> r == Reply(400, Message("Invalid user ID"))
    ensures r.status == 200 <==> ParseInt(param).Some? && FindById(t, ParseInt(param).value).Some?
    ensures r.status == 200 ==> r.body == Json(Strip(FindById(t, ParseInt(param).value).value))
    ensures ParseInt(param).Some? && FindById(t, ParseInt(param).value).None? ==> r == Reply(404, Message("User not found"))
  {
    match ParseInt(param)
    case None => Reply(400, Message("Invalid user ID"))
    case Some(id) =>
      match FindById(t, id)
      case None => Reply(404, Message("User not found"))
      case Some(u) => Reply(200, Json(Strip(u)))
  }

  /** `updateUserRole`: 400 for an unreadable id and 400 for a missing role or one outside the three
      roles, both before anything is written; the store refuses an unknown id, so the reply is then
      500; otherwise the row gets the role and the reply is 200 with it. */
  function UpdateUserRole(t: Users, param: string, role: Option<string>): (r: (Users, Reply<PublicUser>))
    ensures ParseInt(param).None? ==> r == (t, Reply(400, Message("Invalid user ID")))
    ensures ParseInt(param).Some? && (Falsy(role) || ParseRole(role.value).None?) ==>
              r == (t, Reply(400, Message("Invalid role")))
    ensures r.1.status == 200 <==>
              ParseInt(param).Some? && !Falsy(role) && ParseRole(role.value).Some?
              && FindById(t, ParseInt(param).value).Some?
    ensures r.1.status != 200 ==> r.0 == t
    ensures r.1.status == 200 ==>
              var u := Update(t, ParseInt(param).value, SetRole(ParseRole(role.value).value)).value;
              r.0 == u.0 && r.1.body == Json(Strip(u.1)) && RoleName(u.1.role) == role.value
  {
    match ParseInt(param)
    case None => (t, Reply(400, Message("Invalid user ID")))
    case Some(id) =>
      if Falsy(role) || ParseRole(role.value).None? then (t, Reply(400, Message("Invalid role")))
      else
        match Update(t, id, SetRole(ParseRole(role.value).value))
        case None => (t, ServerError)
        case Some((t', u)) => (t', Reply(200, Json(Strip(u))))
  }

  /** `deleteUser`: 400 for an unreadable id, 400 when the id is the caller's own, both before
      anything is deleted; the store refuses an unknown id, so the reply is then 500; otherwise the row
      is gone and the reply is 200. */
  function DeleteUser(t: Users, param: string, caller: Option<int>): (r: (Users, Reply<PublicUser>))
    ensures ParseInt(param).None? ==> r == (t, Reply(400, Message("Invalid user ID")))
    ensures ParseInt(param).Some? && caller == Some(ParseInt(param).value) ==>
              r == (t, Reply(400, Message("Cannot delete your own account through this endpoint")))
    ensures r.1.status == 200 <==>
              ParseInt(param).Some? && caller != Some(ParseInt(param).value) && FindById(t, ParseInt(param).value).Some?
    ensures r.1.status != 200 ==> r.0 == t
    ensures r.1.status == 200 ==>
              r == (Delete(t, ParseInt(param).value).value, Reply(200, Message("User deleted successfully")))
  {
    match ParseInt(param)
    case None => (t, Reply(400, Message("Invalid user ID")))
    case Some(id) =>
      if caller == Some(id) then (t, Reply(400, Message("Cannot delete your own account through this endpoint")))
      else
        match Delete(t, id)
        case None => (t, ServerError)
        case Some(t') => (t', Reply(200, Message("User deleted successfully")))
  }

  /** A deleted user is gone: asking for it afterwards answers 404, and the caller can still read
      their own profile. */
  lemma DeleteThenGone(t: Users, id: int, caller: int)
    requires DeleteUser(t, IntToString(id), Some(caller)).1.status == 200
    ensures var t' := DeleteUser(t, IntToString(id), Some(caller)).0;
            GetUserById(t', IntToString(id)) == Reply(404, Message("User not found"))
            && (caller != 0 && FindById(t, caller).Some? ==> GetProfile(t', Some(caller)).status == 200)
  {
    ParseIntToString(id);
    var t' := DeleteUser(t, IntToString(id), Some(caller)).0;
    if caller != 0 && FindById(t, caller).Some? {
      var u := FindById(t, caller).value;
      assert u in t'.rows;
    }
  }
}
