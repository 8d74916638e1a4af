/**
 * The database the service keeps: the `users` and `auth_codes` tables created at
 * src/auth/db.ts:13-33 and the `words`, `tags` and `wt_relationships` tables created at
 * src/db/index.ts:15-54, with their keys, `UNIQUE` columns, defaults and foreign keys as the
 * invariant `Database.Valid`. A `SERIAL` column is a counter holding the next value its sequence
 * hands out, and `CURRENT_TIMESTAMP` is a logical clock that every stamping statement advances.
 */
module Schema {
  import opened Wrappers
  import opened Sql

  /** `role TEXT NOT NULL DEFAULT 'student'`. */
  const DefaultRole: string := "student"
  /** `level INTEGER NOT NULL DEFAULT 0`. */
  const DefaultLevel: int := 0
  /** The first value a `SERIAL` sequence hands out. */
  const FirstSerial: nat := 1

  datatype User = User(id: int, email: string, username: string, createdAt: nat, updatedAt: nat, role: string)
  datatype AuthCode = AuthCode(email: string, code: string, timestamp: nat)
  datatype Word = Word(id: int, author: int, createdAt: nat, updatedAt: nat, spelling: string, meaning: string,
                       level: int, reviewedAt: nat)
  datatype Tag = Tag(id: int, author: int, createdAt: nat, updatedAt: nat, name: string)
  datatype Link = Link(wordId: int, tagId: int)

  /** The two constraint violations a statement of the service can raise, with their SQLSTATE. */
  datatype DbError = UniqueViolation | ForeignKeyViolation {
    function SqlState(): string {
      match this
      case UniqueViolation => "23505"
      case ForeignKeyViolation => "23503"
    }
  }

  /** Two rows of `users` differ in the primary key and in both `UNIQUE` columns. */
  predicate UsersApart(a: User, b: User) {
    a.id != b.id && a.email != b.email && a.username != b.username
  }

  /** Two rows of `words` differ in the primary key, and the earlier one was created first. */
  predicate WordsApart(a: Word, b: Word) {
    a.id != b.id && a.createdAt < b.createdAt
  }

  /** Two rows of `tags` differ in the primary key and in `name UNIQUE`. */
  predicate TagsApart(a: Tag, b: Tag) {
    a.id != b.id && a.name != b.name
  }

  /** Two rows of `wt_relationships` differ in the composite key `(word_id, tag_id)`. */
  predicate LinksApart(a: Link, b: Link) {
    a != b
  }

  function UserIds(users: seq<User>): set<int> { set u | u in users :: u.id }
  function WordIds(words: seq<Word>): set<int> { set w | w in words :: w.id }
  function TagIds(tags: seq<Tag>): set<int> { set t | t in tags :: t.id }

  /** Some word names user `id` as its author (`words.author REFERENCES users(id)`). */
  predicate WordsByAuthor(words: seq<Word>, id: int) {
    FirstWhere(words, (w: Word) => w.author == id).Some?
  }

  /** Some tag names user `id` as its author (`tags.author REFERENCES users(id)`). */
  predicate TagsByAuthor(tags: seq<Tag>, id: int) {
    FirstWhere(tags, (t: Tag) => t.author == id).Some?
  }

  /** Some link references word `id` (`word_id REFERENCES words(id)`). */
  predicate LinksToWord(links: seq<Link>, id: int) {
    FirstWhere(links, (l: Link) => l.wordId == id).Some?
  }

  /** Some link references tag `id` (`tag_id REFERENCES tags(id)`). */
  predicate LinksToTag(links: seq<Link>, id: int) {
    FirstWhere(links, (l: Link) => l.tagId == id).Some?
  }

  /** The value of the whole database at one moment. */
  datatype Tables = Tables(users: seq<User>, codes: map<string, AuthCode>, words: seq<Word>, tags: seq<Tag>,
                           links: seq<Link>, userSeq: nat, wordSeq: nat, tagSeq: nat, clock: nat)

  ghost predicate UsersValid(users: seq<User>, userSeq: nat) {
    && FirstSerial <= userSeq
    && Pairwise(users, UsersApart)
    && forall u :: u in users ==> FirstSerial <= u.id < userSeq
  }

  /** `email TEXT PRIMARY KEY`: the map key is the row's own email. */
  ghost predicate CodesValid(codes: map<string, AuthCode>) {
    forall e :: e in codes ==> codes[e].email == e
  }

  ghost predicate WordsValid(words: seq<Word>, userIds: set<int>, wordSeq: nat, clock: nat) {
    && FirstSerial <= wordSeq
    && Pairwise(words, WordsApart)
    && forall w :: w in words ==> FirstSerial <= w.id < wordSeq && w.author in userIds && w.createdAt < clock
  }

  ghost predicate TagsValid(tags: seq<Tag>, userIds: set<int>, tagSeq: nat) {
    && FirstSerial <= tagSeq
    && Pairwise(tags, TagsApart)
    && forall t :: t in tags ==> FirstSerial <= t.id < tagSeq && t.author in userIds
  }

  ghost predicate LinksValid(links: seq<Link>, wordIds: set<int>, tagIds: set<int>) {
    && Pairwise(links, LinksApart)
    && forall l :: l in links ==> l.wordId in wordIds && l.tagId in tagIds
  }

  /** Every key, `UNIQUE` column and `REFERENCES` clause of the schema holds. */
  ghost predicate TablesValid(t: Tables) {
    && UsersValid(t.users, t.userSeq)
    && CodesValid(t.codes)
    && WordsValid(t.words, UserIds(t.users), t.wordSeq, t.clock)
    && TagsValid(t.tags, UserIds(t.users), t.tagSeq)
    && LinksValid(t.links, WordIds(t.words), TagIds(t.tags))
  }

  class Database {
    var users: seq<User>
    var codes: map<string, AuthCode>
    var words: seq<Word>
    var tags: seq<Tag>
    var links: seq<Link>
    var userSeq: nat
    var wordSeq: nat
    var tagSeq: nat
    var clock: nat

    function State(): Tables
      reads this
    {
      Tables(users, codes, words, tags, links, userSeq, wordSeq, tagSeq, clock)
    }

    ghost predicate Valid()
      reads this
    {
      TablesValid(State())
    }

    /** Writes every table and counter of `t`, which satisfies the schema. */
    method Write(t: Tables)
      requires TablesValid(t)
      modifies this
      ensures State() == t && Valid()
    {
      users, codes, words, tags, links := t.users, t.codes, t.words, t.tags, t.links;
      userSeq, wordSeq, tagSeq, clock := t.userSeq, t.wordSeq, t.tagSeq, t.clock;
    }

    /** The database right after the `CREATE TABLE IF NOT EXISTS` statements ran on an empty one. */
    constructor ()
      ensures Valid()
      ensures users == [] && codes == map[] && words == [] && tags == [] && links == []
      ensures userSeq == FirstSerial && wordSeq == FirstSerial && tagSeq == FirstSerial
    {
      users, codes, words, tags, links := [], map[], [], [], [];
      userSeq, wordSeq, tagSeq, clock := FirstSerial, FirstSerial, FirstSerial, 0;
    }
  }
}
