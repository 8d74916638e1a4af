/**
 * The word handlers of src/routes/words.ts. Each runs behind the authentication middleware, so
 * it receives the verified `ctx.user`; it returns the status and body it assigns to `ctx`.
 * Required fields are checked first, in a fixed order, and every statement on `words` is filtered
 * by the caller's id. Editing and deleting clear the word's links before the filtered statement
 * runs, so a request naming someone else's word still changes that word's links.
 */
module WordRoutes {
  import opened Wrappers
  import opened Sql
  import opened Schema
  import opened Http
  import opened WordsDb
  import opened LinksDb

  datatype CreateWordBody = CreateWordBody(spelling: Option<string>, meaning: Option<string>, tags: Option<seq<int>>)
  datatype EditWordBody = EditWordBody(id: Option<int>, spelling: Option<string>, meaning: Option<string>,
                                       tags: Option<seq<int>>)
  datatype ReviewWordBody = ReviewWordBody(id: Option<int>, level: Option<int>)
  datatype DeleteWordBody = DeleteWordBody(id: Option<int>)

  /** The exit a handler takes: a 400, a 404, an exception nobody catches, or its success reply. */
  datatype Exit = BadRequest(message: string) | NotFound(message: string) | Crashed | Done

  /** The links `createWtRelationships` leaves, and the error it rejects with, for the word `id`. */
  function LinkTags(t: Tables, links: seq<Link>, id: int, tags: seq<int>): (seq<Link>, Option<DbError>) {
    InsertAll(WordIds(t.words), TagIds(t.tags), links, id, tags)
  }

  /** The exit word creation takes on `t`. */
  function CreateRoute(t: Tables, author: int, body: CreateWordBody): Exit {
    if !Truthy(body.spelling) then BadRequest("The field `spelling` is mandatory.")
    else if !Truthy(body.meaning) then BadRequest("The field `meaning` is mandatory.")
    else if author !in UserIds(t.users) then Crashed
    else
      var word := NewWord(t, author, body.spelling.value, body.meaning.value);
      if LinkTags(t.(words := t.words + [word]), t.links, word.id, body.tags.GetOr([])).1.Some? then Crashed else Done
  }

  /** The tables once word creation got past its field checks. */
  function CreatedTables(t: Tables, author: int, spelling: string, meaning: string, tags: seq<int>): Tables {
    if author !in UserIds(t.users) then t.(wordSeq := t.wordSeq + 1)
    else
      var word := NewWord(t, author, spelling, meaning);
      var t' := t.(words := t.words + [word], wordSeq := t.wordSeq + 1, clock := t.clock + 1);
      t'.(links := LinkTags(t', t.links, word.id, tags).0)
  }

  /**
   * POST /words (src/routes/words.ts:17-45). `tags` defaults to none; the reply's `tags` is what
   * `createWtRelationships` resolves to, which is nothing.
   */
  method Create(db: Database, user: User, body: CreateWordBody) returns (reply: Reply)
    requires db.Valid()
    modifies db
    ensures db.Valid()
    ensures var t := old(db.State());
      match CreateRoute(t, user.id, body)
      case BadRequest(message) => reply == Error(400, message) && db.State() == t
      case Crashed =>
        reply == Uncaught && db.State() == CreatedTables(t, user.id, body.spelling.value, body.meaning.value, body.tags.GetOr([]))
      case Done =>
        && reply == Reply(201, WordBody(TaggedWord(NewWord(t, user.id, body.spelling.value, body.meaning.value), None)))
        && db.State() == CreatedTables(t, user.id, body.spelling.value, body.meaning.value, body.tags.GetOr([]))
      case NotFound(_) => false
  {
    var spelling, meaning, tags := body.spelling, body.meaning, body.tags.GetOr([]);
    if !Truthy(spelling) || !Truthy(meaning) {
      return Error(400, if !Truthy(spelling) then "The field `spelling` is mandatory." else "The field `meaning` is mandatory.");
    }
    var created := CreateWord(db, user.id, spelling.value, meaning.value);
    if created.Failure? {
      return Uncaught;
    }
    var word := created.value;
    var err := CreateWtRelationships(db, word.id, tags);
    if err.Some? {
      return Uncaught;
    }
    reply := Reply(201, WordBody(TaggedWord(word, None)));
  }

  /** GET /words/:id (src/routes/words.ts:51-71): another user's word is as missing as an absent one. */
  method Get(db: Database, user: User, id: int) returns (reply: Reply)
    ensures var found := GetWord(db.words, id, user.id);
      && (found.None? ==> reply == Error(404, "Cannot find the word."))
      && (found.Some? ==> reply == Reply(200, WordBody(TaggedWord(found.value, Some(GetTagsWithWord(db.links, id))))))
    ensures reply.status == 200 <==> exists w :: w in db.words && w.id == id && w.author == user.id
  {
    var found := GetWord(db.words, id, user.id);
    if found.None? {
      return Error(404, "Cannot find the word.");
    }
    var tags := GetTagsWithWord(db.links, id);
    reply := Reply(200, WordBody(TaggedWord(found.value, Some(tags))));
  }

  /** A word as get-all lists it: with the ids of the tags linked to it. */
  function Annotated(links: seq<Link>, w: Word): (r: TaggedWord)
    ensures r.word == w && r.tags.Some?
    ensures forall tag :: tag in r.tags.value <==> Link(w.id, tag) in links
  {
    TaggedWord(w, Some(GetTagsWithWord(links, w.id)))
  }

  /** `word.tags = await db.getTagsWithWord({ wordId: word.id })` for each row, in order. */
  method AnnotateAll(links: seq<Link>, rows: seq<Word>) returns (list: seq<TaggedWord>)
    ensures |list| == |rows| && forall i :: 0 <= i < |rows| ==> list[i] == Annotated(links, rows[i])
  {
    list := [];
    var i := 0;
    while i < |rows|
      invariant 0 <= i <= |rows| && |list| == i
      invariant forall k :: 0 <= k < i ==> list[k] == Annotated(links, rows[k])
    {
      var tags := GetTagsWithWord(links, rows[i].id);
      list := list + [TaggedWord(rows[i], Some(tags))];
      i := i + 1;
    }
  }

  /** GET /words (src/routes/words.ts:77-90): the caller's words, newest first, each given its tag ids. */
  method GetAll(db: Database, user: User) returns (reply: Reply)
    ensures reply.status == 200 && reply.body.WordListBody?
    ensures var rows := GetAllWords(db.words, user.id);
      && |reply.body.list| == |rows|
      && forall i :: 0 <= i < |rows| ==> reply.body.list[i] == Annotated(db.links, rows[i])
  {
    var list := AnnotateAll(db.links, GetAllWords(db.words, user.id));
    reply := Reply(200, WordListBody(list));
  }

  /** The exit word editing takes on `t`. */
  function EditRoute(t: Tables, author: int, body: EditWordBody): Exit {
    if !TruthyNumber(body.id) then BadRequest("The field `id` is mandatory.")
    else if !Truthy(body.spelling) then BadRequest("The field `spelling` is mandatory.")
    else if !Truthy(body.meaning) then BadRequest("The field `meaning` is mandatory")
    else if body.tags.None? then Crashed
    else if LinkTags(t, WithoutWordLinks(t.links, body.id.value), body.id.value, body.tags.value).1.Some? then Crashed
    else if GetWord(t.words, body.id.value, author).None? then NotFound("Cannot find the word.")
    else Done
  }

  /** The tables once word editing got past its field checks. */
  function EditedTables(t: Tables, id: int, author: int, spelling: string, meaning: string, tags: Option<seq<int>>): Tables {
    var cleared := WithoutWordLinks(t.links, id);
    if tags.None? then t.(links := cleared)
    else
      var (links, err) := LinkTags(t, cleared, id, tags.value);
      if err.Some? || GetWord(t.words, id, author).None? then t.(links := links)
      else t.(links := links, words := EditedWords(t.words, id, author, spelling, meaning, t.clock), clock := t.clock + 1)
  }

  /**
   * PATCH /words/edit (src/routes/words.ts:103-151). The links are replaced before the filtered
   * update, so they are replaced even when the reply is 404; with no `tags` in the body,
   * `createWtRelationships` throws once the old links are gone.
   */
  method Edit(db: Database, user: User, body: EditWordBody) returns (reply: Reply)
    requires db.Valid()
    modifies db
    ensures db.Valid()
    ensures var t := old(db.State());
      match EditRoute(t, user.id, body)
      case BadRequest(message) => reply == Error(400, message) && db.State() == t
      case Crashed =>
        reply == Uncaught && db.State() == EditedTables(t, body.id.value, user.id, body.spelling.value, body.meaning.value, body.tags)
      case NotFound(message) =>
        reply == Error(404, message) && db.State() == EditedTables(t, body.id.value, user.id, body.spelling.value, body.meaning.value, body.tags)
      case Done =>
        var id := body.id.value;
        && reply == Reply(200, WordBody(TaggedWord(Edited(GetWord(t.words, id, user.id).value, body.spelling.value,
                                                          body.meaning.value, t.clock),
                                                   Some(GetTagsWithWord(db.links, id)))))
        && db.State() == EditedTables(t, id, user.id, body.spelling.value, body.meaning.value, body.tags)
  {
    var id, spelling, meaning, tags := body.id, body.spelling, body.meaning, body.tags;
    if !TruthyNumber(id) || !Truthy(spelling) || !Truthy(meaning) {
      return Error(400, if !TruthyNumber(id) then "The field `id` is mandatory."
                        else if !Truthy(spelling) then "The field `spelling` is mandatory."
                        else "The field `meaning` is mandatory");
    }
    RemoveAllByWord(db, id.value);
    if tags.None? {
      return Uncaught;
    }
    var err := CreateWtRelationships(db, id.value, tags.value);
    if err.Some? {
      return Uncaught;
    }
    var stored := GetTagsWithWord(db.links, id.value);
    var result := EditWord(db, id.value, user.id, spelling.value, meaning.value);
    if result.None? {
      return Error(404, "Cannot find the word.");
    }
    reply := Reply(200, WordBody(TaggedWord(result.value, Some(stored))));
  }

  /** The exit word review takes on `t`. */
  function ReviewRoute(t: Tables, author: int, body: ReviewWordBody): Exit {
    if !TruthyNumber(body.id) then BadRequest("The field `id` is mandatory.")
    else if !TruthyNumber(body.level) then BadRequest("The field `level` is mandatory.")
    else if GetWord(t.words, body.id.value, author).None? then NotFound("Cannot find that word.")
    else Done
  }

  /** PATCH /words/review (src/routes/words.ts:162-195). A level of 0 is falsy and reported as missing. */
  method Review(db: Database, user: User, body: ReviewWordBody) returns (reply: Reply)
    requires db.Valid()
    modifies db
    ensures db.Valid()
    ensures var t := old(db.State());
      match ReviewRoute(t, user.id, body)
      case BadRequest(message) => reply == Error(400, message) && db.State() == t
      case NotFound(message) => reply == Error(404, message) && db.State() == t
      case Done =>
        var id, level := body.id.value, body.level.value;
        && reply == Reply(200, WordBody(TaggedWord(Reviewed(GetWord(t.words, id, user.id).value, level, t.clock), None)))
        && db.State() == t.(words := ReviewedWords(t.words, id, user.id, level, t.clock), clock := t.clock + 1)
      case Crashed => false
  {
    var id, level := body.id, body.level;
    if !TruthyNumber(id) || !TruthyNumber(level) {
      return Error(400, if !TruthyNumber(id) then "The field `id` is mandatory." else "The field `level` is mandatory.");
    }
    var result := ReviewWord(db, id.value, user.id, level.value);
    if result.None? {
      return Error(404, "Cannot find that word.");
    }
    reply := Reply(200, WordBody(TaggedWord(result.value, None)));
  }

  /** The exit word deletion takes on `t`. */
  function DeleteRoute(t: Tables, author: int, body: DeleteWordBody): Exit {
    if !TruthyNumber(body.id) then BadRequest("The field `id` is mandatory.")
    else if GetWord(t.words, body.id.value, author).None? then NotFound("Cannot find that word.")
    else Done
  }

  /**
   * DELETE /words (src/routes/words.ts:205-236). The word's links go first, whoever owns it, so the
   * owned row can then be deleted; a missing or foreign id gets 404 with the links already gone.
   */
  method Delete(db: Database, user: User, body: DeleteWordBody) returns (reply: Reply)
    requires db.Valid()
    modifies db
    ensures db.Valid()
    ensures var t := old(db.State());
      match DeleteRoute(t, user.id, body)
      case BadRequest(message) => reply == Error(400, message) && db.State() == t
      case NotFound(message) =>
        reply == Error(404, message) && db.State() == t.(links := WithoutWordLinks(t.links, body.id.value))
      case Done =>
        && reply == Reply(204, NoBody)
        && db.State() == t.(links := WithoutWordLinks(t.links, body.id.value),
                            words := WithoutWord(t.words, body.id.value, user.id))
      case Crashed => false
  {
    var id := body.id;
    if !TruthyNumber(id) {
      return Error(400, "The field `id` is mandatory.");
    }
    RemoveAllByWord(db, id.value);
    var result := DeleteWord(db, id.value, user.id);
    if result.value.None? {
      WithoutMissingWord(old(db.words), id.value, user.id);
      return Error(404, "Cannot find that word.");
    }
    reply := Reply(204, NoBody);
  }

  /**
   * A created word is linked to exactly the tags of the request: its id is fresh, so no link
   * named it before, and every insert went through.
   */
  lemma CreateLinksTheTags(t: Tables, author: int, body: CreateWordBody)
    requires TablesValid(t)
    requires CreateRoute(t, author, body).Done?
    ensures forall tag :: tag in GetTagsWithWord(CreatedTables(t, author, body.spelling.value, body.meaning.value,
                                                               body.tags.GetOr([])).links, t.wordSeq)
                          <==> tag in body.tags.GetOr([])
  {
    var word := NewWord(t, author, body.spelling.value, body.meaning.value);
    var t' := t.(words := t.words + [word], wordSeq := t.wordSeq + 1, clock := t.clock + 1);
    var tags := body.tags.GetOr([]);
    var (links, err) := LinkTags(t', t.links, word.id, tags);
    forall tag ensures Link(word.id, tag) in links <==> tag in tags {
      if tag in tags {
        var i :| 0 <= i < |tags| && tags[i] == tag;
        assert Admits(WordIds(t'.words), TagIds(t'.tags), t.links, Link(word.id, tags[i]));
      }
    }
  }

  /**
   * A tag id that does not exist, or one given twice, makes word creation answer 500 although
   * the word row was inserted and stays.
   */
  lemma CreateCrashKeepsTheWord(t: Tables, author: int, body: CreateWordBody)
    requires CreateRoute(t, author, body).Crashed?
    requires author in UserIds(t.users)
    ensures NewWord(t, author, body.spelling.value, body.meaning.value)
            in CreatedTables(t, author, body.spelling.value, body.meaning.value, body.tags.GetOr([])).words
  {
  }

  /**
   * Whenever editing gets past the link inserts, the word is left linked to exactly the tags of
   * the request, whether or not the caller owns it.
   */
  lemma EditReplacesTheTags(t: Tables, author: int, body: EditWordBody)
    requires EditRoute(t, author, body).NotFound? || EditRoute(t, author, body).Done?
    ensures forall tag :: tag in GetTagsWithWord(EditedTables(t, body.id.value, author, body.spelling.value,
                                                              body.meaning.value, body.tags).links, body.id.value)
                          <==> tag in body.tags.value
  {
    var id, tags := body.id.value, body.tags.value;
    var cleared := WithoutWordLinks(t.links, id);
    var (links, err) := LinkTags(t, cleared, id, tags);
    forall tag ensures Link(id, tag) in links <==> tag in tags {
      if tag in tags {
        var i :| 0 <= i < |tags| && tags[i] == tag;
        assert Admits(WordIds(t.words), TagIds(t.tags), cleared, Link(id, tags[i]));
      }
    }
  }

  /**
   * Editing someone else's word with a non-empty tag list answers 404 yet relinks that word: the
   * word must exist for the link inserts to pass its foreign key, and only the words are spared.
   */
  lemma ForeignEditRelinks(t: Tables, author: int, body: EditWordBody)
    requires EditRoute(t, author, body).NotFound? && body.tags.value != []
    ensures exists w :: w in t.words && w.id == body.id.value && w.author != author
    ensures EditedTables(t, body.id.value, author, body.spelling.value, body.meaning.value, body.tags).words == t.words
  {
    var id, tags := body.id.value, body.tags.value;
    var cleared := WithoutWordLinks(t.links, id);
    assert Admits(WordIds(t.words), TagIds(t.tags), cleared, Link(id, tags[0]));
    var w :| w in t.words && w.id == id;
    assert !Owned(w, id, author);
  }

  /** Once a word is deleted, no row of `words` has its id and no link references it. */
  lemma DeleteRemovesTheWord(t: Tables, author: int, body: DeleteWordBody)
    requires TablesValid(t)
    requires DeleteRoute(t, author, body).Done?
    ensures var id := body.id.value;
      && id !in WordIds(WithoutWord(t.words, id, author))
      && !LinksToWord(WithoutWordLinks(t.links, id), id)
  {
    var id := body.id.value;
    var owned := GetWord(t.words, id, author).value;
    forall w | w in WithoutWord(t.words, id, author) ensures w.id != id {
      PairwiseMembers(t.words, WordsApart, w, owned);
    }
  }

  /** Deleting a word a second time answers 404, not 500. */
  lemma DeleteAgainIsNotFound(t: Tables, author: int, body: DeleteWordBody)
    requires TablesValid(t)
    requires DeleteRoute(t, author, body).Done?
    ensures var id := body.id.value;
      DeleteRoute(t.(links := WithoutWordLinks(t.links, id), words := WithoutWord(t.words, id, author)), author, body)
        == NotFound("Cannot find that word.")
  {
    DeleteRemovesTheWord(t, author, body);
  }

  /** A caller who owns no word with the id never gets a success from edit, review or delete. */
  lemma OnlyTheOwnerSucceeds(t: Tables, author: int, id: int, edit: EditWordBody, review: ReviewWordBody,
                             delete: DeleteWordBody)
    requires forall w :: w in t.words && w.id == id ==> w.author != author
    requires edit.id == review.id == delete.id == Some(id)
    ensures !EditRoute(t, author, edit).Done? && !ReviewRoute(t, author, review).Done?
    ensures !DeleteRoute(t, author, delete).Done?
  {
  }
}
