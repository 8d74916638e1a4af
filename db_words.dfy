/**
 * The `words` statements of src/db/words.ts. Every statement but the insert is filtered by
 * `id = $1 AND author = $2`, so a row is only ever read, changed or removed by its author.
 */
module WordsDb {
  import opened Wrappers
  import opened Sql
  import opened Schema

  /** `WHERE id = $1 AND author = $2`. */
  predicate Owned(w: Word, id: int, author: int) {
    w.id == id && w.author == author
  }

  /** The order of `ORDER BY created_at DESC`: `a` may come before `b`. */
  predicate CreatedAfter(a: Word, b: Word) {
    a.createdAt > b.createdAt
  }

  /** The row `createWord` inserts on `t`: every column not given takes its default. */
  function NewWord(t: Tables, author: int, spelling: string, meaning: string): (w: Word)
    ensures w.id == t.wordSeq && w.author == author && w.spelling == spelling && w.meaning == meaning
    ensures w.level == DefaultLevel && w.createdAt == w.updatedAt == w.reviewedAt == t.clock
  {
    Word(t.wordSeq, author, t.clock, t.clock, spelling, meaning, DefaultLevel, t.clock)
  }

  /** What `editWord` makes of a matching row: only `spelling`, `meaning` and `updated_at` change. */
  function Edited(w: Word, spelling: string, meaning: string, now: nat): Word {
    w.(spelling := spelling, meaning := meaning, updatedAt := now)
  }

  /** What `reviewWord` makes of a matching row: only `level` and `reviewed_at` change. */
  function Reviewed(w: Word, level: int, now: nat): Word {
    w.(level := level, reviewedAt := now)
  }

  /** The table after `editWord` on the row `id` of `author`. */
  function EditedWords(words: seq<Word>, id: int, author: int, spelling: string, meaning: string, now: nat): seq<Word> {
    UpdateWhere(words, (w: Word) => Owned(w, id, author), (w: Word) => Edited(w, spelling, meaning, now))
  }

  /** The table after `reviewWord` on the row `id` of `author`. */
  function ReviewedWords(words: seq<Word>, id: int, author: int, level: int, now: nat): seq<Word> {
    UpdateWhere(words, (w: Word) => Owned(w, id, author), (w: Word) => Reviewed(w, level, now))
  }

  /** The table after `deleteWord` on the row `id` of `author`. */
  function WithoutWord(words: seq<Word>, id: int, author: int): (r: seq<Word>)
    ensures forall w :: w in r <==> w in words && !Owned(w, id, author)
  {
    Where(words, (w: Word) => !Owned(w, id, author))
  }

  /** `SELECT * FROM words WHERE id = $1 AND author = $2`, first row. */
  function GetWord(words: seq<Word>, id: int, author: int): (r: Option<Word>)
    ensures r.Some? ==> r.value in words && r.value.id == id && r.value.author == author
    ensures r.None? <==> forall w :: w in words ==> !Owned(w, id, author)
  {
    FirstWhere(words, (w: Word) => Owned(w, id, author))
  }

  /** With `id` the primary key, a row is found exactly by its own id and author. */
  lemma GetWordFindsTheRow(words: seq<Word>, w: Word)
    requires Pairwise(words, WordsApart)
    requires w in words
    ensures GetWord(words, w.id, w.author) == Some(w)
  {
    var found := GetWord(words, w.id, w.author).value;
    if found != w {
      PairwiseMembers(words, WordsApart, found, w);
    }
  }

  /** Deleting a row the author does not have leaves the table as it was. */
  lemma WithoutMissingWord(words: seq<Word>, id: int, author: int)
    requires GetWord(words, id, author).None?
    ensures WithoutWord(words, id, author) == words
  {
    WhereKeepsAll(words, (w: Word) => !Owned(w, id, author));
  }

  /** `SELECT * FROM words WHERE author = $1 ORDER BY created_at DESC`. */
  function GetAllWords(words: seq<Word>, author: int): (r: seq<Word>)
    ensures forall w :: w in r <==> w in words && w.author == author
    ensures |r| <= |words|
  {
    Reversed(Where(words, (w: Word) => w.author == author))
  }

  /**
   * The table keeps its rows in creation order (a new row gets the latest timestamp and goes last),
   * so the reversed selection is the newest-first order `ORDER BY created_at DESC` asks for.
   */
  lemma GetAllWordsNewestFirst(words: seq<Word>, author: int)
    requires Pairwise(words, WordsApart)
    ensures Pairwise(GetAllWords(words, author), CreatedAfter)
  {
    WhereKeepsPairwise(words, (w: Word) => w.author == author, WordsApart);
    ReversedFlipsPairwise(Where(words, (w: Word) => w.author == author), WordsApart, CreatedAfter);
  }

  /** Only the id, and the timestamps that keep the creation order, take part in the keys. */
  lemma ChangeKeepsValid(t: Tables, p: Word -> bool, f: Word -> Word)
    requires TablesValid(t)
    requires forall w :: f(w).id == w.id && f(w).author == w.author && f(w).createdAt == w.createdAt
    ensures TablesValid(t.(words := UpdateWhere(t.words, p, f), clock := t.clock + 1))
  {
    UpdateKeepsPairwise(t.words, p, f, WordsApart);
    var words := UpdateWhere(t.words, p, f);
    forall w | w in words ensures w.author in UserIds(t.users) && w.createdAt < t.clock + 1 {
      var i :| 0 <= i < |words| && words[i] == w;
      assert t.words[i] in t.words;
    }
    assert WordIds(words) == WordIds(t.words) by {
      forall x | x in WordIds(t.words) ensures x in WordIds(words) {
        var w :| w in t.words && w.id == x;
        var i :| 0 <= i < |t.words| && t.words[i] == w;
        assert words[i] in words;
      }
      forall x | x in WordIds(words) ensures x in WordIds(t.words) {
        var w :| w in words && w.id == x;
        var i :| 0 <= i < |words| && words[i] == w;
        assert t.words[i] in t.words;
      }
    }
  }

  /**
   * `INSERT INTO words (author, spelling, meaning) VALUES ($1, $2, $3) RETURNING *`. The author
   * must be a user (`REFERENCES users(id)`); the `SERIAL` id is used up even when it is not.
   */
  method CreateWord(db: Database, author: int, spelling: string, meaning: string) returns (r: Result<Word, DbError>)
    requires db.Valid()
    modifies db
    ensures db.Valid()
    ensures r.Failure? <==> author !in UserIds(old(db.users))
    ensures r.Failure? ==> r.error == ForeignKeyViolation && db.State() == old(db.State()).(wordSeq := old(db.wordSeq) + 1)
    ensures r.Success? ==>
      && r.value == NewWord(old(db.State()), author, spelling, meaning)
      && db.State() == old(db.State()).(words := old(db.words) + [r.value], wordSeq := old(db.wordSeq) + 1,
                                        clock := old(db.clock) + 1)
  {
    var before := db.State();
    if author !in UserIds(db.users) {
      db.Write(before.(wordSeq := before.wordSeq + 1));
      return Failure(ForeignKeyViolation);
    }
    var word := NewWord(before, author, spelling, meaning);
    AppendKeepsPairwise(before.words, word, WordsApart);
    assert WordIds(before.words) <= WordIds(before.words + [word]);
    db.Write(before.(words := before.words + [word], wordSeq := before.wordSeq + 1, clock := before.clock + 1));
    r := Success(word);
  }

  /**
   * `UPDATE words SET spelling = $3, meaning = $4, updated_at = CURRENT_TIMESTAMP
   * WHERE id = $1 AND author = $2 RETURNING *`, first row.
   */
  method EditWord(db: Database, id: int, author: int, spelling: string, meaning: string) returns (r: Option<Word>)
    requires db.Valid()
    modifies db
    ensures db.Valid()
    ensures var found := GetWord(old(db.words), id, author);
      && r == (if found.Some? then Some(Edited(found.value, spelling, meaning, old(db.clock))) else None)
      && db.State() == if found.None? then old(db.State())
         else old(db.State()).(words := EditedWords(old(db.words), id, author, spelling, meaning, old(db.clock)),
                               clock := old(db.clock) + 1)
  {
    var found := GetWord(db.words, id, author);
    if found.None? {
      return None;
    }
    var t, now := db.State(), db.clock;
    ChangeKeepsValid(t, (w: Word) => Owned(w, id, author), (w: Word) => Edited(w, spelling, meaning, now));
    db.Write(t.(words := EditedWords(t.words, id, author, spelling, meaning, now), clock := now + 1));
    r := Some(Edited(found.value, spelling, meaning, now));
  }

  /**
   * `UPDATE words SET level = $3, reviewed_at = CURRENT_TIMESTAMP WHERE id = $1 AND author = $2
   * RETURNING *`, first row.
   */
  method ReviewWord(db: Database, id: int, author: int, level: int) returns (r: Option<Word>)
    requires db.Valid()
    modifies db
    ensures db.Valid()
    ensures var found := GetWord(old(db.words), id, author);
      && r == (if found.Some? then Some(Reviewed(found.value, level, old(db.clock))) else None)
      && db.State() == if found.None? then old(db.State())
         else old(db.State()).(words := ReviewedWords(old(db.words), id, author, level, old(db.clock)),
                               clock := old(db.clock) + 1)
  {
    var found := GetWord(db.words, id, author);
    if found.None? {
      return None;
    }
    var t, now := db.State(), db.clock;
    ChangeKeepsValid(t, (w: Word) => Owned(w, id, author), (w: Word) => Reviewed(w, level, now));
    db.Write(t.(words := ReviewedWords(t.words, id, author, level, now), clock := now + 1));
    r := Some(Reviewed(found.value, level, now));
  }

  /** A row nobody links to can be deleted without breaking a key or a reference. */
  lemma DeleteKeepsValid(t: Tables, id: int, author: int)
    requires TablesValid(t)
    requires GetWord(t.words, id, author).Some? ==> !LinksToWord(t.links, id)
    ensures TablesValid(t.(words := WithoutWord(t.words, id, author)))
  {
    var words := Where(t.words, (w: Word) => !Owned(w, id, author));
    WhereKeepsPairwise(t.words, (w: Word) => !Owned(w, id, author), WordsApart);
    forall l | l in t.links ensures l.wordId in WordIds(words) {
      var w :| w in t.words && w.id == l.wordId;
      assert w in words;
    }
  }

  /**
   * `DELETE FROM words WHERE id = $1 AND author = $2 RETURNING *`, first row. While a link still
   * references the row, `word_id REFERENCES words(id)` makes the statement fail.
   */
  method DeleteWord(db: Database, id: int, author: int) returns (r: Result<Option<Word>, DbError>)
    requires db.Valid()
    modifies db
    ensures db.Valid()
    ensures r.Failure? <==> GetWord(old(db.words), id, author).Some? && LinksToWord(old(db.links), id)
    ensures r.Failure? ==> r.error == ForeignKeyViolation && db.State() == old(db.State())
    ensures r.Success? ==>
      && r.value == GetWord(old(db.words), id, author)
      && db.State() == old(db.State()).(words := WithoutWord(old(db.words), id, author))
  {
    var found := GetWord(db.words, id, author);
    if found.Some? && LinksToWord(db.links, id) {
      return Failure(ForeignKeyViolation);
    }
    var t := db.State();
    DeleteKeepsValid(t, id, author);
    db.Write(t.(words := WithoutWord(t.words, id, author)));
    r := Success(found);
  }
}
