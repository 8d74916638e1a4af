/**
 * The authentication middleware of src/auth/middleware.ts: it reads the `words_auth` cookie,
 * verifies it and checks the payload's role against the allowed roles, answering 401 or 403
 * itself or handing the request on to the next handler. Token verification is a parameter: a
 * partial function from token to the payload it was signed with.
 */
module AuthMiddleware {
  import opened Wrappers
  import opened Schema
  import opened Http

  /**
   * The factory's `options` argument. `roles == None` stands for an options object without a
   * `roles` key; an explicit `roles: undefined`, which `Object.assign` would copy over the default,
   * is not modelled.
   */
  datatype Options = Options(roles: Option<seq<string>>)

  const DefaultRoles: seq<string> := ["admin", "student"]

  /** `Object.assign(defaultOptions, options)` when options are given, `defaultOptions` otherwise. */
  function AllowedRoles(options: Option<Options>): (roles: seq<string>)
    ensures options.Some? && options.value.roles.Some? ==> roles == options.value.roles.value
    ensures options.None? || options.value.roles.None? ==> roles == DefaultRoles
  {
    match options
    case Some(Options(Some(given))) => given
    case _ => DefaultRoles
  }

  datatype Decision = Unauthenticated(message: string) | Forbidden(payload: User) | Proceed(payload: User)

  /** The middleware's verdict on one request. */
  function Decide(token: Option<string>, verify: string -> Option<User>, options: Option<Options>): (d: Decision)
    ensures d.Unauthenticated? <==> !Truthy(token) || verify(token.value).None?
    ensures !Truthy(token) ==> d == Unauthenticated("Token not provided.")
    ensures Truthy(token) && verify(token.value).None? ==> d == Unauthenticated("Invalid token.")
    ensures !d.Unauthenticated? ==> d.payload == verify(token.value).value
    ensures d.Proceed? <==>
      Truthy(token) && verify(token.value).Some? && verify(token.value).value.role in AllowedRoles(options)
  {
    if !Truthy(token) then Unauthenticated("Token not provided.")
    else match verify(token.value)
      case None => Unauthenticated("Invalid token.")
      case Some(payload) =>
        if payload.role in AllowedRoles(options) then Proceed(payload) else Forbidden(payload)
  }

  /**
   * The middleware applied to `ctx`. `callNext` says whether it calls `next()` (once) or ends the
   * request. The payload is stored in `ctx.user` before the role check, so a 403 keeps it there.
   */
  method Authenticate(ctx: Context, verify: string -> Option<User>, options: Option<Options>) returns (callNext: bool)
    modifies ctx
    ensures callNext <==> Decide(ctx.token, verify, options).Proceed?
    ensures ctx.cookie == old(ctx.cookie)
    ensures match Decide(ctx.token, verify, options)
      case Unauthenticated(message) =>
        ctx.status == 401 && ctx.body == ErrorBody(401, message) && ctx.user == old(ctx.user)
      case Forbidden(payload) =>
        ctx.status == 403 && ctx.body == ErrorBody(403, "Insufficient permissions.") && ctx.user == Some(payload)
      case Proceed(payload) =>
        ctx.status == 200 && ctx.body == old(ctx.body) && ctx.user == Some(payload)
  {
    var roles := AllowedRoles(options);
    if !Truthy(ctx.token) {
      Reject(ctx, 401, "Token not provided.");
      return false;
    }
    var verified := verify(ctx.token.value);
    if verified.None? {
      Reject(ctx, 401, "Invalid token.");
      return false;
    }
    ctx.status, ctx.user := 200, verified;
    if verified.value.role !in roles {
      Reject(ctx, 403, "Insufficient permissions.");
      return false;
    }
    callNext := true;
  }

  /** With no options, exactly the roles `admin` and `student` get past a verified token. */
  lemma DefaultsAdmitStudentsAndAdmins(token: string, verify: string -> Option<User>, payload: User)
    requires token != "" && verify(token) == Some(payload)
    ensures Decide(Some(token), verify, None).Proceed? <==> payload.role == "admin" || payload.role == "student"
    ensures !Decide(Some(token), verify, None).Proceed? ==> Decide(Some(token), verify, None) == Forbidden(payload)
  {
  }
}
