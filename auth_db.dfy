/**
 * The statements of src/auth/db.ts over the `users` and `auth_codes` tables: upsert, lookup and
 * removal of one-time codes keyed by email, and creation, lookup and removal of users.
 */
module AuthDb {
  import opened Wrappers
  import opened Sql
  import opened Schema

  /** `SELECT * FROM auth_codes WHERE email = $1`, read through `rows[0] || { code: undefined }`. */
  function GetCode(codes: map<string, AuthCode>, email: string): (code: Option<string>)
    ensures code.Some? <==> email in codes
    ensures code.Some? ==> code.value == codes[email].code
  {
    if email in codes then Some(codes[email].code) else None
  }

  /** `SELECT * FROM users WHERE email = $1`, first row. */
  function GetUserByEmail(users: seq<User>, email: string): (r: Option<User>)
    ensures r.Some? ==> r.value in users && r.value.email == email
    ensures r.None? <==> forall u :: u in users ==> u.email != email
  {
    FirstWhere(users, (u: User) => u.email == email)
  }

  /** `SELECT * FROM users WHERE username = $1`, first row. */
  function GetUserByUsername(users: seq<User>, username: string): (r: Option<User>)
    ensures r.Some? ==> r.value in users && r.value.username == username
    ensures r.None? <==> forall u :: u in users ==> u.username != username
  {
    FirstWhere(users, (u: User) => u.username == username)
  }

  /** Since `email` is `UNIQUE`, the lookup by email finds exactly the row holding it. */
  lemma GetUserByEmailFindsTheRow(users: seq<User>, u: User)
    requires Pairwise(users, UsersApart)
    requires u in users
    ensures GetUserByEmail(users, u.email) == Some(u)
  {
    var found := GetUserByEmail(users, u.email).value;
    if found != u {
      PairwiseMembers(users, UsersApart, found, u);
    }
  }

  /** Since `username` is `UNIQUE`, the lookup by username finds exactly the row holding it. */
  lemma GetUserByUsernameFindsTheRow(users: seq<User>, u: User)
    requires Pairwise(users, UsersApart)
    requires u in users
    ensures GetUserByUsername(users, u.username) == Some(u)
  {
    var found := GetUserByUsername(users, u.username).value;
    if found != u {
      PairwiseMembers(users, UsersApart, found, u);
    }
  }

  /**
   * `INSERT INTO auth_codes (email, code) VALUES ($1, $2) ON CONFLICT (email) DO UPDATE SET code = $2,
   * timestamp = CURRENT_TIMESTAMP RETURNING *`: afterwards `email` maps to the new row alone, whether
   * or not it held a code before.
   */
  method SaveCode(db: Database, email: string, code: string) returns (row: AuthCode)
    requires db.Valid()
    modifies db
    ensures db.Valid()
    ensures row == AuthCode(email, code, old(db.clock))
    ensures db.State() == old(db.State()).(codes := old(db.codes)[email := row], clock := old(db.clock) + 1)
  {
    var t := db.State();
    row := AuthCode(email, code, t.clock);
    db.Write(t.(codes := t.codes[email := row], clock := t.clock + 1));
  }

  /** `DELETE FROM auth_codes WHERE email = $1 RETURNING *`, first row. */
  method DeleteCode(db: Database, email: string) returns (row: Option<AuthCode>)
    requires db.Valid()
    modifies db
    ensures db.Valid()
    ensures row == if email in old(db.codes) then Some(old(db.codes)[email]) else None
    ensures db.State() == old(db.State()).(codes := old(db.codes) - {email})
  {
    var t := db.State();
    row := if email in t.codes then Some(t.codes[email]) else None;
    db.Write(t.(codes := t.codes - {email}));
  }

  /**
   * `INSERT INTO users (email, username) VALUES ($1, $2) RETURNING *`. The `SERIAL` id is drawn
   * before the `UNIQUE` checks, so a rejected insert still uses up one id.
   */
  method CreateUser(db: Database, email: string, username: string) returns (r: Result<User, DbError>)
    requires db.Valid()
    modifies db
    ensures db.Valid()
    ensures r.Failure? <==> GetUserByEmail(old(db.users), email).Some? || GetUserByUsername(old(db.users), username).Some?
    ensures r.Failure? ==> r.error == UniqueViolation && db.State() == old(db.State()).(userSeq := old(db.userSeq) + 1)
    ensures r.Success? ==>
      && r.value == User(old(db.userSeq), email, username, old(db.clock), old(db.clock), DefaultRole)
      && db.State() == old(db.State()).(users := old(db.users) + [r.value], userSeq := old(db.userSeq) + 1,
                                        clock := old(db.clock) + 1)
  {
    var before := db.State();
    var id := db.userSeq;
    if GetUserByEmail(db.users, email).Some? || GetUserByUsername(db.users, username).Some? {
      DrawSerialKeepsValid(before);
      db.Write(before.(userSeq := id + 1));
      return Failure(UniqueViolation);
    }
    var user := User(id, email, username, before.clock, before.clock, DefaultRole);
    InsertUserKeepsValid(before, user);
    db.Write(before.(users := before.users + [user], userSeq := id + 1, clock := before.clock + 1));
    r := Success(user);
  }

  /** Drawing a value from the `users` sequence without inserting a row keeps the schema. */
  lemma DrawSerialKeepsValid(t: Tables)
    requires TablesValid(t)
    ensures TablesValid(t.(userSeq := t.userSeq + 1))
  {
  }

  /** A fresh user whose email and username are free can be appended without breaking the schema. */
  lemma InsertUserKeepsValid(t: Tables, u: User)
    requires TablesValid(t)
    requires u.id == t.userSeq && FirstSerial <= u.id
    requires forall x :: x in t.users ==> x.email != u.email && x.username != u.username
    ensures TablesValid(t.(users := t.users + [u], userSeq := t.userSeq + 1, clock := t.clock + 1))
  {
    AppendKeepsPairwise(t.users, u, UsersApart);
    assert UserIds(t.users) <= UserIds(t.users + [u]);
  }

  /**
   * `DELETE FROM users WHERE id = $1 RETURNING *`. `words.author` and `tags.author` reference
   * `users(id)` without `ON DELETE`, so the statement fails while any word or tag names the user.
   */
  method DeleteUser(db: Database, id: int) returns (r: Result<Option<User>, DbError>)
    requires db.Valid()
    modifies db
    ensures db.Valid()
    ensures r.Failure? <==> WordsByAuthor(old(db.words), id) || TagsByAuthor(old(db.tags), id)
    ensures r.Failure? ==> r.error == ForeignKeyViolation && db.State() == old(db.State())
    ensures r.Success? ==>
      && r.value == FirstWhere(old(db.users), (u: User) => u.id == id)
      && db.State() == old(db.State()).(users := Where(old(db.users), (u: User) => u.id != id))
  {
    if WordsByAuthor(db.words, id) || TagsByAuthor(db.tags, id) {
      return Failure(ForeignKeyViolation);
    }
    var before := db.State();
    var removed := FirstWhere(before.users, (u: User) => u.id == id);
    var users := Where(before.users, (u: User) => u.id != id);
    WhereKeepsPairwise(before.users, (u: User) => u.id != id, UsersApart);
    forall w | w in before.words ensures w.author in UserIds(users) {
      var owner :| owner in before.users && owner.id == w.author;
      assert owner in users;
    }
    forall t | t in before.tags ensures t.author in UserIds(users) {
      var owner :| owner in before.users && owner.id == t.author;
      assert owner in users;
    }
    db.Write(before.(users := users));
    r := Success(removed);
  }
}
