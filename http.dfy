/**
 * The part of a Koa request context the handlers touch: the `words_auth` cookie the request
 * carries, and the response status, body and cookie they write, plus `ctx.user`, which the
 * authentication middleware fills in. Request bodies are decoded JSON, so a field may be absent,
 * and the handlers test fields with JavaScript truthiness.
 */
module Http {
  import opened Wrappers
  import opened Schema

  /** `!!s` for an optional string field: present and not the empty string. */
  predicate Truthy(s: Option<string>) {
    s.Some? && s.value != ""
  }

  /** `!!n` for an optional number field: present and not `0`. */
  predicate TruthyNumber(n: Option<int>) {
    n.Some? && n.value != 0
  }

  /** What the response does to the `words_auth` cookie. */
  datatype CookieAction = Untouched | SetTo(token: string) | Cleared

  /** A word row with the `tags` property a handler may attach to it (`undefined` when absent). */
  datatype TaggedWord = TaggedWord(word: Word, tags: Option<seq<int>>)

  datatype Body =
    | NoBody
    | ErrorBody(code: int, message: string)   // `{ error: { code, message } }`
    | UserBody(user: User)
    | CodeBody(row: AuthCode)
    | WordBody(tagged: TaggedWord)
    | WordListBody(list: seq<TaggedWord>)
    | WordRowsBody(rows: seq<Word>)
    | TagBody(tag: Tag)
    | TagListBody(tags: seq<Tag>)
    | InternalServerError                     // Koa's reply to an exception nobody caught

  /** The status and body a handler assigns to `ctx`, which Koa then sends. */
  datatype Reply = Reply(status: int, body: Body)

  /** `ctx.status = code; ctx.body = { error: { code, message } }`. */
  function Error(code: int, message: string): Reply {
    Reply(code, ErrorBody(code, message))
  }

  /** Koa's answer to an exception nobody caught. */
  const Uncaught: Reply := Reply(500, InternalServerError)

  class Context {
    /** `ctx.cookies.get('words_auth')`. */
    const token: Option<string>
    var status: int
    var body: Body
    var cookie: CookieAction
    /** `ctx.user`, the verified token payload. */
    var user: Option<User>

    /** A fresh context: Koa starts every response as 404 with no body. */
    constructor (token: Option<string>)
      ensures this.token == token && status == 404 && body == NoBody && cookie == Untouched && user == None
    {
      this.token := token;
      status, body, cookie, user := 404, NoBody, Untouched, None;
    }
  }

  /** `ctx.status = code; ctx.body = { error: { code, message } }`. */
  method Reject(ctx: Context, code: int, message: string)
    modifies ctx
    ensures ctx.status == code && ctx.body == ErrorBody(code, message)
    ensures ctx.cookie == old(ctx.cookie) && ctx.user == old(ctx.user)
  {
    ctx.status, ctx.body := code, ErrorBody(code, message);
  }
}
