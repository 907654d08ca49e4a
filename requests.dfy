/** The parts of an Express request the authentication middleware reads and writes, and the decisions
    the middleware share. */
module Requests {
  import opened Wrappers
  import opened Users
  import opened Jwt

  /** What a middleware attaches as `req.user`: the whole row, or the row without its password. */
  datatype RequestUser = Full(row: User) | Public(view: PublicUser)

  /** `req.user.role` */
  function RoleOf(u: RequestUser): (role: string)
    ensures role == RoleName(if u.Full? then u.row.role else u.view.role)
  {
    match u
    case Full(row) => RoleName(row.role)
    case Public(view) => RoleName(view.role)
  }

  /** The request: its `Authorization` header (None when absent), and what the middleware attach. */
  class Request {
    var authorization: Option<string>
    var user: Option<RequestUser>
    var jwtPayload: Option<Payload>

    /** A request as it reaches the first middleware: nothing attached yet. */
    constructor (authorization: Option<string>)
      ensures this.authorization == authorization && user.None? && jwtPayload.None?
    {
      this.authorization := authorization;
      user := None;
      jwtPayload := None;
    }
  }

  /** How an authenticating middleware decides: let the request through as `user` (with the verified
      `payload`), or answer with `status` and `message`. */
  datatype Gate = Pass(user: User, payload: Payload) | Stop(status: int, message: string)

  /** The role check `roleGuard` and `authorize` share: 401 without a user, `forbidden` (403) when the
      user's role is not listed, `next()` otherwise. */
  function Guard(roles: seq<string>, user: Option<RequestUser>, forbidden: string): (o: Outcome)
    ensures o == Next <==> user.Some? && RoleOf(user.value) in roles
    ensures user.None? ==> o == Respond(401, "Not authenticated")
    ensures user.Some? && RoleOf(user.value) !in roles ==> o == Respond(403, forbidden)
  {
    if user.None? then Respond(401, "Not authenticated")
    else if RoleOf(user.value) !in roles then Respond(403, forbidden)
    else Next
  }

  /** The two authenticating middleware attach different shapes (the row without its password, or
      the whole row), but the role checks see the same role and so decide alike. */
  lemma GuardSeesSameRole(roles: seq<string>, u: User, forbidden: string)
    ensures RoleOf(Public(Strip(u))) == RoleOf(Full(u))
    ensures Guard(roles, Some(Public(Strip(u))), forbidden) == Guard(roles, Some(Full(u)), forbidden)
  {
  }
}
