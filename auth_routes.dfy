/**
 * The handlers of src/auth/routes.ts: signup, signin, signout and account deletion. Signup,
 * signin and deletion share one per-email state machine over `auth_codes`: with no code in the
 * body a fresh code is upserted for the email; with a code, it must equal the stored one, and a
 * match performs the action and removes the code. The generated code, the token signer and the
 * token verifier are parameters; sending the email and the expiry timer are not modelled, except
 * that `Expire` is what one firing of the timer does.
 */
module AuthRoutes {
  import opened Wrappers
  import opened Sql
  import opened Schema
  import opened Http
  import opened AuthDb

  datatype SignupBody = SignupBody(email: Option<string>, username: Option<string>, code: Option<string>)
  datatype SigninBody = SigninBody(email: Option<string>, code: Option<string>)
  datatype DeleteBody = DeleteBody(code: Option<string>)

  /** The exit a handler takes, in the order it tests for them. */
  datatype Route =
    | MissingEmail | MissingUsername | EmailTaken | UsernameTaken | UnknownEmail
    | NoToken | BadToken | CodeRequested | WrongCode | Verified | Blocked

  /** `code !== storedCode`, with `storedCode` undefined when the email has no row. */
  predicate CodeMatches(codes: map<string, AuthCode>, email: string, code: string) {
    GetCode(codes, email) == Some(code)
  }

  /** The exit that signup takes on `t`. */
  function SignupRoute(t: Tables, body: SignupBody): Route {
    if !Truthy(body.email) then MissingEmail
    else if !Truthy(body.username) then MissingUsername
    else if GetUserByEmail(t.users, body.email.value).Some? then EmailTaken
    else if GetUserByUsername(t.users, body.username.value).Some? then UsernameTaken
    else if !Truthy(body.code) then CodeRequested
    else if !CodeMatches(t.codes, body.email.value, body.code.value) then WrongCode
    else Verified
  }

  /** The exit that signin takes on `t`. */
  function SigninRoute(t: Tables, body: SigninBody): Route {
    if !Truthy(body.email) then MissingEmail
    else if GetUserByEmail(t.users, body.email.value).None? then UnknownEmail
    else if !Truthy(body.code) then CodeRequested
    else if !CodeMatches(t.codes, body.email.value, body.code.value) then WrongCode
    else Verified
  }

  /** The exit that account deletion takes on `t`. */
  function DeleteRoute(t: Tables, token: Option<string>, verify: string -> Option<User>, body: DeleteBody): Route {
    if !Truthy(token) then NoToken
    else if verify(token.value).None? then BadToken
    else
      var user := verify(token.value).value;
      if !Truthy(body.code) then CodeRequested
      else if !CodeMatches(t.codes, user.email, body.code.value) then WrongCode
      else if WordsByAuthor(t.words, user.id) || TagsByAuthor(t.tags, user.id) then Blocked
      else Verified
  }

  /** The row `createUser` inserts on `t`. */
  function NewUser(t: Tables, email: string, username: string): User {
    User(t.userSeq, email, username, t.clock, t.clock, DefaultRole)
  }

  /** The tables once a code request for `email` has upserted `code`. */
  function Issued(t: Tables, email: string, code: string): Tables {
    t.(codes := t.codes[email := AuthCode(email, code, t.clock)], clock := t.clock + 1)
  }

  /** The tables once the expiry timer for `email` has fired. */
  function Expired(t: Tables, email: string): Tables {
    t.(codes := t.codes - {email})
  }

  /** The tables once signup has verified its code and created the user. */
  function SignedUp(t: Tables, email: string, username: string): Tables {
    t.(users := t.users + [NewUser(t, email, username)], userSeq := t.userSeq + 1, clock := t.clock + 1,
       codes := t.codes - {email})
  }

  /**
   * POST /auth/signup (src/auth/routes.ts:24-112). `cookie` is what the handler does to the
   * `words_auth` cookie.
   */
  method Signup(db: Database, body: SignupBody, generated: string, sign: User -> string)
    returns (reply: Reply, cookie: CookieAction)
    requires db.Valid()
    modifies db
    ensures db.Valid()
    ensures var t := old(db.State());
      match SignupRoute(t, body)
      case MissingEmail => reply == Error(400, "Email not provided.") && db.State() == t
      case MissingUsername => reply == Error(400, "Username not provided.") && db.State() == t
      case EmailTaken => reply == Error(400, "The email provided is already in use.") && db.State() == t
      case UsernameTaken => reply == Error(400, "The username provided is already in use.") && db.State() == t
      case CodeRequested =>
        reply == Reply(200, CodeBody(AuthCode(body.email.value, generated, t.clock)))
        && db.State() == Issued(t, body.email.value, generated)
      case WrongCode => reply == Error(400, "Invalid code provided.") && db.State() == t
      case Verified =>
        var user := NewUser(t, body.email.value, body.username.value);
        && reply == Reply(201, UserBody(user)) && cookie == SetTo(sign(user))
        && db.State() == SignedUp(t, body.email.value, body.username.value)
      case _ => false
    ensures SignupRoute(old(db.State()), body) != Verified ==> cookie == Untouched
  {
    cookie := Untouched;
    var email, username, code := body.email, body.username, body.code;
    if !Truthy(email) || !Truthy(username) {
      return Error(400, if !Truthy(email) then "Email not provided." else "Username not provided."), cookie;
    }
    if GetUserByEmail(db.users, email.value).Some? {
      return Error(400, "The email provided is already in use."), cookie;
    }
    if GetUserByUsername(db.users, username.value).Some? {
      return Error(400, "The username provided is already in use."), cookie;
    }
    if !Truthy(code) {
      var row := SaveCode(db, email.value, generated);
      return Reply(200, CodeBody(row)), cookie;
    }
    if GetCode(db.codes, email.value) != Some(code.value) {
      return Error(400, "Invalid code provided."), cookie;
    }
    var created := CreateUser(db, email.value, username.value);
    var user := created.value;
    reply, cookie := Reply(201, UserBody(user)), SetTo(sign(user));
    var removed := DeleteCode(db, email.value);
  }

  /** POST /auth/signin (src/auth/routes.ts:115-186). */
  method Signin(db: Database, body: SigninBody, generated: string, sign: User -> string)
    returns (reply: Reply, cookie: CookieAction)
    requires db.Valid()
    modifies db
    ensures db.Valid()
    ensures var t := old(db.State());
      match SigninRoute(t, body)
      case MissingEmail => reply == Error(400, "Email not provided.") && db.State() == t
      case UnknownEmail => reply == Error(400, "The email provided does not exist.") && db.State() == t
      case CodeRequested =>
        reply == Reply(200, CodeBody(AuthCode(body.email.value, generated, t.clock)))
        && db.State() == Issued(t, body.email.value, generated)
      case WrongCode => reply == Error(400, "Invalid code provided.") && db.State() == t
      case Verified =>
        var user := GetUserByEmail(t.users, body.email.value).value;
        && reply == Reply(200, UserBody(user)) && cookie == SetTo(sign(user))
        && db.State() == t.(codes := t.codes - {body.email.value})
      case _ => false
    ensures SigninRoute(old(db.State()), body) != Verified ==> cookie == Untouched
  {
    cookie := Untouched;
    var email, code := body.email, body.code;
    if !Truthy(email) {
      return Error(400, "Email not provided."), cookie;
    }
    var user := GetUserByEmail(db.users, email.value);
    if user.None? {
      return Error(400, "The email provided does not exist."), cookie;
    }
    if !Truthy(code) {
      var row := SaveCode(db, email.value, generated);
      return Reply(200, CodeBody(row)), cookie;
    }
    if GetCode(db.codes, email.value) != Some(code.value) {
      return Error(400, "Invalid code provided."), cookie;
    }
    // Assigning a body to a response whose status was never set makes Koa answer 200.
    reply, cookie := Reply(200, UserBody(user.value)), SetTo(sign(user.value));
    var removed := DeleteCode(db, email.value);
  }

  /** GET /auth/signout (src/auth/routes.ts:189-217): only the token is looked at. */
  method Signout(token: Option<string>, verify: string -> Option<User>) returns (reply: Reply, cookie: CookieAction)
    ensures !Truthy(token) ==> reply == Error(401, "Token not provided.") && cookie == Untouched
    ensures Truthy(token) && verify(token.value).None? ==> reply == Error(401, "Invalid token") && cookie == Untouched
    ensures Truthy(token) && verify(token.value).Some? ==> reply == Reply(204, NoBody) && cookie == Cleared
  {
    if !Truthy(token) {
      return Error(401, "Token not provided."), Untouched;
    }
    if verify(token.value).None? {
      return Error(401, "Invalid token"), Untouched;
    }
    reply, cookie := Reply(204, NoBody), Cleared;
  }

  /**
   * DELETE /auth/delete (src/auth/routes.ts:220-289). The user comes from the token, so its email
   * and id are the ones it was signed with. When the user still owns words or tags, `deleteUser`
   * throws and the request ends in a 500 with the code kept.
   */
  method Delete(db: Database, token: Option<string>, body: DeleteBody, verify: string -> Option<User>, generated: string)
    returns (reply: Reply, cookie: CookieAction)
    requires db.Valid()
    modifies db
    ensures db.Valid()
    ensures var t := old(db.State());
      match DeleteRoute(t, token, verify, body)
      case NoToken => reply == Error(401, "Token not provided.") && db.State() == t
      case BadToken => reply == Error(401, "Invalid token") && db.State() == t
      case CodeRequested =>
        var email := verify(token.value).value.email;
        reply == Reply(200, CodeBody(AuthCode(email, generated, t.clock))) && db.State() == Issued(t, email, generated)
      case WrongCode => reply == Error(400, "Invalid code provided.") && db.State() == t
      case Blocked => reply == Uncaught && db.State() == t
      case Verified =>
        var user := verify(token.value).value;
        && reply == Reply(204, NoBody) && cookie == Cleared
        && db.State() == t.(users := Where(t.users, (u: User) => u.id != user.id), codes := t.codes - {user.email})
      case _ => false
    ensures DeleteRoute(old(db.State()), token, verify, body) != Verified ==> cookie == Untouched
  {
    cookie := Untouched;
    if !Truthy(token) {
      return Error(401, "Token not provided."), cookie;
    }
    var verified := verify(token.value);
    if verified.None? {
      return Error(401, "Invalid token"), cookie;
    }
    var user := verified.value;
    if !Truthy(body.code) {
      var row := SaveCode(db, user.email, generated);
      return Reply(200, CodeBody(row)), cookie;
    }
    if GetCode(db.codes, user.email) != Some(body.code.value) {
      return Error(400, "Invalid code provided."), cookie;
    }
    var deleted := DeleteUser(db, user.id);
    if deleted.Failure? {
      return Uncaught, cookie;
    }
    reply, cookie := Reply(204, NoBody), Cleared;
    var removed := DeleteCode(db, user.email);
  }

  /** One firing of the five-minute timer set when a code is issued: `db.deleteCode({ email })`. */
  method Expire(db: Database, email: string)
    requires db.Valid()
    modifies db
    ensures db.Valid()
    ensures db.State() == Expired(old(db.State()), email)
  {
    var removed := DeleteCode(db, email);
  }
}
