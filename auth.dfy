/**
 * The authorization decision chain of auth.py: a bearer token is decoded,
 * its user is looked up and must be active, and role-guarded endpoints then
 * check the user's role. Each step either admits the user or ends the request
 * with an HTTP status.
 *
 * JWT decoding (signature and expiry checking) is a foreign library and a
 * clock; its outcome is an input here. The database lookup is read-only and
 * is a map from user id to user.
 */
module Auth {
  import opened Wrappers

  const Unauthorized: nat := 401
  const Forbidden: nat := 403
  /** Status FastAPI answers with when a dependency raises an unhandled exception. */
  const InternalServerError: nat := 500

  /** The fields of a `User` row the checks read. */
  datatype User = User(id: string, role: string, isActive: bool)

  /**
   * A claim value of a decoded token. User ids are UUID strings, and the
   * service signs them into its tokens as text.
   */
  datatype Claim = Number(n: int) | Text(s: string)

  /** The decoded token payload: claim name to value. */
  type Claims = map<string, Claim>

  /** What `jwt.decode` does with a token: returns its claims or raises one of two errors. */
  datatype Decoding = Decoded(claims: Claims) | Expired | Invalid

  /** Outcome of a dependency: the admitted user, or the status of the HTTPException raised. */
  datatype Decision = Admitted(user: User) | Rejected(status: nat)

  /** `verify_token`: the claims of a token that decodes, None when it is expired or invalid. */
  function VerifyToken(d: Decoding): (r: Option<Claims>)
    ensures r.Some? <==> d.Decoded?
    ensures r.Some? ==> r.value == d.claims
  {
    match d
    case Decoded(claims) => Some(claims)
    case Expired => None
    case Invalid => None
  }

  /** The token passes the `if not payload` test: it decoded to a non-empty dict. */
  predicate TokenAccepted(d: Decoding)
  {
    var payload := VerifyToken(d);
    payload.Some? && |payload.value| > 0
  }

  /** The `user_id` claim names a user of the table; a number names none, ids being strings. */
  predicate KnownUser(claims: Claims, users: map<string, User>)
  {
    "user_id" in claims && claims["user_id"].Text? && claims["user_id"].s in users
  }

  /**
   * `get_current_user`: the token must decode (401), name an existing user
   * (401) who is active (403), checked in that order. A decoded payload
   * without a `user_id` claim makes `payload['user_id']` raise a KeyError,
   * which the framework answers with 500.
   */
  function GetCurrentUser(d: Decoding, users: map<string, User>): (r: Decision)
    ensures !TokenAccepted(d) ==> r == Rejected(Unauthorized)
    ensures TokenAccepted(d) && "user_id" !in d.claims ==> r == Rejected(InternalServerError)
    ensures TokenAccepted(d) && "user_id" in d.claims && !KnownUser(d.claims, users) ==> r == Rejected(Unauthorized)
    ensures TokenAccepted(d) && KnownUser(d.claims, users) && !users[d.claims["user_id"].s].isActive ==>
      r == Rejected(Forbidden)
    ensures r.Admitted? <==>
      TokenAccepted(d) && KnownUser(d.claims, users) && users[d.claims["user_id"].s].isActive
    ensures r.Admitted? ==> r.user == users[d.claims["user_id"].s] && r.user.isActive
  {
    var payload := VerifyToken(d);
    if payload.None? || |payload.value| == 0 then Rejected(Unauthorized)
    else if "user_id" !in payload.value then Rejected(InternalServerError)
    else
      var id := payload.value["user_id"];
      if !id.Text? || id.s !in users then Rejected(Unauthorized)
      else
        var user := users[id.s];
        if !user.isActive then Rejected(Forbidden)
        else Admitted(user)
  }

  /** A token that does not decode is refused before the user table is consulted. */
  lemma RejectedTokenIgnoresUsers(d: Decoding, users1: map<string, User>, users2: map<string, User>)
    requires !d.Decoded?
    ensures GetCurrentUser(d, users1) == GetCurrentUser(d, users2) == Rejected(Unauthorized)
  {
  }

  /** A token the service issued for an active user of the table admits that user. */
  lemma IssuedTokenAdmits(claims: Claims, users: map<string, User>, user: User)
    requires user.id in users && users[user.id] == user && user.isActive
    requires "user_id" in claims && claims["user_id"] == Text(user.id)
    ensures GetCurrentUser(Decoded(claims), users) == Admitted(user)
  {
  }

  /** `require_auth`: any user `get_current_user` admits. */
  function RequireAuth(current: Decision): (r: Decision)
    ensures current.Rejected? ==> r == current
    ensures r.Admitted? <==> current.Admitted?
    ensures r.Admitted? ==> r.user == current.user
  {
    current
  }

  /**
   * `require_role(*allowed_roles)`: a refusal of `get_current_user` stands;
   * an admitted user whose role is not allowed gets 403; otherwise the same
   * user is admitted unchanged.
   */
  function RequireRole(allowed: seq<string>, current: Decision): (r: Decision)
    ensures current.Rejected? ==> r == current
    ensures current.Admitted? && current.user.role !in allowed ==> r == Rejected(Forbidden)
    ensures r.Admitted? <==> current.Admitted? && current.user.role in allowed
    ensures r.Admitted? ==> r.user == current.user
  {
    match current
    case Rejected(_) => current
    case Admitted(user) =>
      if user.role !in allowed then Rejected(Forbidden) else Admitted(user)
  }

  /** `require_admin`: only the role "admin" passes. */
  function RequireAdmin(current: Decision): (r: Decision)
    ensures current.Rejected? ==> r == current
    ensures r.Admitted? <==> current.Admitted? && current.user.role == "admin"
    ensures r.Admitted? ==> r.user == current.user
    ensures current.Admitted? && current.user.role != "admin" ==> r == Rejected(Forbidden)
  {
    RequireRole(["admin"], current)
  }

  /** `require_developer`: the roles "admin" and "developer" pass, any other gets 403. */
  function RequireDeveloper(current: Decision): (r: Decision)
    ensures current.Rejected? ==> r == current
    ensures r.Admitted? <==> current.Admitted? && (current.user.role == "admin" || current.user.role == "developer")
    ensures r.Admitted? ==> r.user == current.user
    ensures current.Admitted? && current.user.role != "admin" && current.user.role != "developer" ==>
      r == Rejected(Forbidden)
  {
    RequireRole(["admin", "developer"], current)
  }

  /** Whoever passes the admin guard passes the developer guard too. */
  lemma AdminIsDeveloper(current: Decision)
    ensures RequireAdmin(current).Admitted? ==> RequireDeveloper(current) == RequireAdmin(current)
  {
  }
}
