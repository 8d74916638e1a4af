/**
 * The older word handlers of src/words/routes.ts, over LegacyWordsDb. They pass the caller's id
 * along, but the statements ignore it, so any signed-in user reads, edits and reviews any word.
 * There are no links and no delete handler.
 */
module LegacyWordRoutes {
  import opened Wrappers
  import opened Sql
  import opened Schema
  import opened Http
  import opened LegacyWordsDb
  import WordsDb
  import WordRoutes

  datatype CreateWordBody = CreateWordBody(spelling: Option<string>, meaning: Option<string>)
  datatype EditWordBody = EditWordBody(id: Option<int>, spelling: Option<string>, meaning: Option<string>)

  /** The exit word creation takes on `t`. */
  function CreateRoute(t: Tables, author: int, body: CreateWordBody): WordRoutes.Exit {
    if !Truthy(body.spelling) then WordRoutes.BadRequest("Spelling field is mandatory.")
    else if !Truthy(body.meaning) then WordRoutes.BadRequest("Meaning field is mandatory.")
    else if author !in UserIds(t.users) then WordRoutes.Crashed
    else WordRoutes.Done
  }

  /** POST /words (src/words/routes.ts:16-37): 201 with the inserted row. */
  method Create(db: Database, user: User, body: CreateWordBody) returns (reply: Reply)
    requires db.Valid()
    modifies db
    ensures db.Valid()
    ensures var t := old(db.State());
      match CreateRoute(t, user.id, body)
      case BadRequest(message) => reply == Error(400, message) && db.State() == t
      case Crashed => reply == Uncaught && db.State() == t.(wordSeq := t.wordSeq + 1)
      case Done =>
        var word := WordsDb.NewWord(t, user.id, body.spelling.value, body.meaning.value);
        && reply == Reply(201, WordBody(TaggedWord(word, None)))
        && db.State() == t.(words := t.words + [word], wordSeq := t.wordSeq + 1, clock := t.clock + 1)
      case NotFound(_) => false
  {
    var spelling, meaning := body.spelling, body.meaning;
    if !Truthy(spelling) || !Truthy(meaning) {
      return Error(400, if !Truthy(spelling) then "Spelling field is mandatory." else "Meaning field is mandatory.");
    }
    var created := WordsDb.CreateWord(db, user.id, spelling.value, meaning.value);
    if created.Failure? {
      return Uncaught;
    }
    reply := Reply(201, WordBody(TaggedWord(created.value, None)));
  }

  /** GET /words/:id (src/words/routes.ts:43-60): the row with that id, whoever wrote it. */
  method Get(db: Database, user: User, id: int) returns (reply: Reply)
    ensures var found := GetWord(db.words, id);
      && (found.None? ==> reply == Error(404, "Cannot find the word."))
      && (found.Some? ==> reply == Reply(200, WordBody(TaggedWord(found.value, None))))
    ensures reply.status == 200 <==> id in WordIds(db.words)
  {
    var found := GetWord(db.words, id);
    if found.None? {
      return Error(404, "Cannot find the word.");
    }
    reply := Reply(200, WordBody(TaggedWord(found.value, None)));
  }

  /** GET /words (src/words/routes.ts:66-71): every row of every author, in storage order. */
  method GetAll(db: Database, user: User) returns (reply: Reply)
    ensures reply == Reply(200, WordRowsBody(db.words))
    ensures forall w :: w in db.words ==> w in reply.body.rows
  {
    reply := Reply(200, WordRowsBody(db.words));
  }

  /** The exit word editing takes on `t`. */
  function EditRoute(t: Tables, body: EditWordBody): WordRoutes.Exit {
    if !TruthyNumber(body.id) then WordRoutes.BadRequest("The field `id` is mandatory.")
    else if !Truthy(body.spelling) then WordRoutes.BadRequest("The field `spelling` is mandatory.")
    else if !Truthy(body.meaning) then WordRoutes.BadRequest("The field `meaning` is mandatory")
    else if GetWord(t.words, body.id.value).None? then WordRoutes.NotFound("Cannot find the word.")
    else WordRoutes.Done
  }

  /** PATCH /words/edit (src/words/routes.ts:83-123). */
  method Edit(db: Database, user: User, body: EditWordBody) returns (reply: Reply)
    requires db.Valid()
    modifies db
    ensures db.Valid()
    ensures var t := old(db.State());
      match EditRoute(t, body)
      case BadRequest(message) => reply == Error(400, message) && db.State() == t
      case NotFound(message) => reply == Error(404, message) && db.State() == t
      case Done =>
        var id, spelling, meaning := body.id.value, body.spelling.value, body.meaning.value;
        && reply == Reply(200, WordBody(TaggedWord(WordsDb.Edited(GetWord(t.words, id).value, spelling, meaning, t.clock), None)))
        && db.State() == t.(words := EditedWords(t.words, id, spelling, meaning, t.clock), clock := t.clock + 1)
      case Crashed => false
  {
    var id, spelling, meaning := body.id, body.spelling, body.meaning;
    if !TruthyNumber(id) || !Truthy(spelling) || !Truthy(meaning) {
      return Error(400, if !TruthyNumber(id) then "The field `id` is mandatory."
                        else if !Truthy(spelling) then "The field `spelling` is mandatory."
                        else "The field `meaning` is mandatory");
    }
    var result := EditWord(db, id.value, spelling.value, meaning.value);
    if result.None? {
      return Error(404, "Cannot find the word.");
    }
    reply := Reply(200, WordBody(TaggedWord(result.value, None)));
  }

  /** The exit word review takes on `t`. */
  function ReviewRoute(t: Tables, body: WordRoutes.ReviewWordBody): WordRoutes.Exit {
    if !TruthyNumber(body.id) then WordRoutes.BadRequest("The field `id` is mandatory.")
    else if !TruthyNumber(body.level) then WordRoutes.BadRequest("The field `level` is mandatory.")
    else if GetWord(t.words, body.id.value).None? then WordRoutes.NotFound("Cannot find the word.")
    else WordRoutes.Done
  }

  /** PATCH /words/review (src/words/routes.ts:134-167). A level of 0 is falsy and reported as missing. */
  method Review(db: Database, user: User, body: WordRoutes.ReviewWordBody) returns (reply: Reply)
    requires db.Valid()
    modifies db
    ensures db.Valid()
    ensures var t := old(db.State());
      match ReviewRoute(t, body)
      case BadRequest(message) => reply == Error(400, message) && db.State() == t
      case NotFound(message) => reply == Error(404, message) && db.State() == t
      case Done =>
        var id, level := body.id.value, body.level.value;
        && reply == Reply(200, WordBody(TaggedWord(WordsDb.Reviewed(GetWord(t.words, id).value, level, t.clock), None)))
        && db.State() == t.(words := ReviewedWords(t.words, id, level, t.clock), clock := t.clock + 1)
      case Crashed => false
  {
    var id, level := body.id, body.level;
    if !TruthyNumber(id) || !TruthyNumber(level) {
      return Error(400, if !TruthyNumber(id) then "The field `id` is mandatory." else "The field `level` is mandatory.");
    }
    var result := ReviewWord(db, id.value, level.value);
    if result.None? {
      return Error(404, "Cannot find the word.");
    }
    reply := Reply(200, WordBody(TaggedWord(result.value, None)));
  }

  /**
   * On someone else's word the two variants part: the older handlers edit and review it as if the
   * caller were its author, where the ownership-filtered ones answer 404 and change no word.
   */
  lemma OlderVariantIgnoresOwnership(t: Tables, w: Word, caller: int, spelling: string, meaning: string, level: int)
    requires TablesValid(t)
    requires w in t.words && w.id != 0 && w.author != caller && spelling != [] && meaning != [] && level != 0
    ensures EditRoute(t, EditWordBody(Some(w.id), Some(spelling), Some(meaning))).Done?
    ensures ReviewRoute(t, WordRoutes.ReviewWordBody(Some(w.id), Some(level))).Done?
    ensures WordRoutes.ReviewRoute(t, caller, WordRoutes.ReviewWordBody(Some(w.id), Some(level)))
            == WordRoutes.NotFound("Cannot find that word.")
    ensures EditedWords(t.words, w.id, spelling, meaning, t.clock)
            == WordsDb.EditedWords(t.words, w.id, w.author, spelling, meaning, t.clock)
  {
    GetWordFindsAnyRow(t.words, w, caller);
    EditActsAsTheAuthor(t.words, w, spelling, meaning, t.clock);
  }
}
