/**
 * Request sequences of the one-time-code flow of src/auth/routes.ts, stated over the exits the
 * handlers take and the tables they leave: `AuthRoutes.Issued` is what `Signup`, `Signin` and
 * `Delete` leave when they issue a code, `AuthRoutes.SignedUp` what a verified signup leaves, and
 * `AuthRoutes.Expired` what `AuthRoutes.Expire` leaves.
 */
module AuthScenarios {
  import opened Wrappers
  import opened Sql
  import opened Schema
  import opened AuthDb
  import opened AuthRoutes

  /** A signup that asked for a code goes through when the code it was sent comes back. */
  lemma SignupRequestThenVerify(t: Tables, email: string, username: string, code: string)
    requires SignupRoute(t, SignupBody(Some(email), Some(username), None)) == CodeRequested
    requires code != []
    ensures SignupRoute(Issued(t, email, code), SignupBody(Some(email), Some(username), Some(code))) == Verified
  {
  }

  /** Asking for a second code replaces the first: only the latest one is accepted. */
  lemma ResentCodeReplacesTheOld(t: Tables, email: string, username: string, first: string, second: string)
    requires SignupRoute(t, SignupBody(Some(email), Some(username), None)) == CodeRequested
    requires first != [] && second != [] && first != second
    ensures var t' := Issued(Issued(t, email, first), email, second);
      && SignupRoute(t', SignupBody(Some(email), Some(username), Some(first))) == WrongCode
      && SignupRoute(t', SignupBody(Some(email), Some(username), Some(second))) == Verified
  {
  }

  /** Once the timer has fired, the code that was sent is refused by every flow. */
  lemma ExpiredCodeIsRefused(t: Tables, email: string, code: string, username: string,
                             token: string, verify: string -> Option<User>)
    requires code != [] && email != []
    requires GetUserByEmail(t.users, email).Some? || SignupRoute(t, SignupBody(Some(email), Some(username), None)) == CodeRequested
    requires token != [] && verify(token).Some? && verify(token).value.email == email
    ensures var t' := Expired(Issued(t, email, code), email);
      && (GetUserByEmail(t.users, email).None? ==>
            SignupRoute(t', SignupBody(Some(email), Some(username), Some(code))) == WrongCode)
      && (GetUserByEmail(t.users, email).Some? ==>
            SigninRoute(t', SigninBody(Some(email), Some(code))) == WrongCode)
      && DeleteRoute(t', Some(token), verify, DeleteBody(Some(code))) == WrongCode
  {
  }

  /**
   * Codes are stored by email alone: a code that signin issued is accepted by account deletion, and
   * one that deletion issued is accepted by signin, for the same email.
   */
  lemma CodesCrossFlows(t: Tables, token: string, verify: string -> Option<User>, code: string)
    requires token != [] && verify(token).Some? && verify(token).value.email != [] && code != []
    requires GetUserByEmail(t.users, verify(token).value.email).Some?
    ensures var email := verify(token).value.email;
      && SigninRoute(t, SigninBody(Some(email), None)) == CodeRequested
      && DeleteRoute(t, Some(token), verify, DeleteBody(None)) == CodeRequested
      && SigninRoute(Issued(t, email, code), SigninBody(Some(email), Some(code))) == Verified
      && DeleteRoute(Issued(t, email, code), Some(token), verify, DeleteBody(Some(code))) in {Verified, Blocked}
  {
  }

  /**
   * After signing up, the email and the username are taken, the code is gone, and signin finds
   * exactly the new user.
   */
  lemma SignedUpUserCanSignIn(t: Tables, body: SignupBody, other: string)
    requires TablesValid(t)
    requires SignupRoute(t, body) == Verified
    ensures var email, username := body.email.value, body.username.value;
      var t' := SignedUp(t, email, username);
      && GetUserByEmail(t'.users, email) == Some(NewUser(t, email, username))
      && SignupRoute(t', body) == EmailTaken
      && SignupRoute(t', body.(email := Some(other))) in {MissingEmail, EmailTaken, UsernameTaken}
      && SigninRoute(t', SigninBody(Some(email), body.code)) == WrongCode
      && SigninRoute(t', SigninBody(Some(email), None)) == CodeRequested
  {
    var email, username := body.email.value, body.username.value;
    var user := NewUser(t, email, username);
    InsertUserKeepsValid(t, user);
    GetUserByEmailFindsTheRow(t.users + [user], user);
    GetUserByUsernameFindsTheRow(t.users + [user], user);
  }
}
