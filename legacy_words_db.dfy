/**
 * The `words` statements of the older src/words/db.ts. The insert is that of src/db/words.ts
 * (`WordsDb.CreateWord`), but reads and updates are filtered by `id = $1` alone, and the list is
 * the whole table: nothing here consults the author.
 */
module LegacyWordsDb {
  import opened Wrappers
  import opened Sql
  import opened Schema
  import WordsDb

  /** `SELECT * FROM words WHERE id = $1`, first row. */
  function GetWord(words: seq<Word>, id: int): (r: Option<Word>)
    ensures r.Some? ==> r.value in words && r.value.id == id
    ensures r.None? <==> id !in WordIds(words)
  {
    FirstWhere(words, (w: Word) => w.id == id)
  }

  /** The table after `editWord` on the row `id`, whoever wrote it. */
  function EditedWords(words: seq<Word>, id: int, spelling: string, meaning: string, now: nat): seq<Word> {
    UpdateWhere(words, (w: Word) => w.id == id, (w: Word) => WordsDb.Edited(w, spelling, meaning, now))
  }

  /** The table after `reviewWord` on the row `id`, whoever wrote it. */
  function ReviewedWords(words: seq<Word>, id: int, level: int, now: nat): seq<Word> {
    UpdateWhere(words, (w: Word) => w.id == id, (w: Word) => WordsDb.Reviewed(w, level, now))
  }

  /** With `id` the primary key, the legacy lookup finds a row whoever asks. */
  lemma GetWordFindsAnyRow(words: seq<Word>, w: Word, author: int)
    requires Pairwise(words, WordsApart)
    requires w in words
    ensures GetWord(words, w.id) == Some(w)
    ensures WordsDb.GetWord(words, w.id, author) == if author == w.author then Some(w) else None
  {
    var found := GetWord(words, w.id).value;
    if found != w {
      PairwiseMembers(words, WordsApart, found, w);
    }
    if author == w.author {
      WordsDb.GetWordFindsTheRow(words, w);
    } else if WordsDb.GetWord(words, w.id, author).Some? {
      PairwiseMembers(words, WordsApart, WordsDb.GetWord(words, w.id, author).value, w);
    }
  }

  /** The legacy edit of a word is the ownership-filtered edit performed as its author. */
  lemma EditActsAsTheAuthor(words: seq<Word>, w: Word, spelling: string, meaning: string, now: nat)
    requires Pairwise(words, WordsApart)
    requires w in words
    ensures EditedWords(words, w.id, spelling, meaning, now) == WordsDb.EditedWords(words, w.id, w.author, spelling, meaning, now)
  {
    var a, b := EditedWords(words, w.id, spelling, meaning, now), WordsDb.EditedWords(words, w.id, w.author, spelling, meaning, now);
    forall i | 0 <= i < |words| ensures a[i] == b[i] {
      if words[i] != w && words[i].id == w.id {
        PairwiseMembers(words, WordsApart, words[i], w);
      }
    }
  }

  /**
   * `UPDATE words SET spelling = $2, meaning = $3, updated_at = CURRENT_TIMESTAMP WHERE id = $1
   * RETURNING *`, first row.
   */
  method EditWord(db: Database, id: int, spelling: string, meaning: string) returns (r: Option<Word>)
    requires db.Valid()
    modifies db
    ensures db.Valid()
    ensures var found := GetWord(old(db.words), id);
      && r == (if found.Some? then Some(WordsDb.Edited(found.value, spelling, meaning, old(db.clock))) else None)
      && db.State() == if found.None? then old(db.State())
         else old(db.State()).(words := EditedWords(old(db.words), id, spelling, meaning, old(db.clock)),
                               clock := old(db.clock) + 1)
  {
    var found := GetWord(db.words, id);
    if found.None? {
      return None;
    }
    var t, now := db.State(), db.clock;
    WordsDb.ChangeKeepsValid(t, (w: Word) => w.id == id, (w: Word) => WordsDb.Edited(w, spelling, meaning, now));
    db.Write(t.(words := EditedWords(t.words, id, spelling, meaning, now), clock := now + 1));
    r := Some(WordsDb.Edited(found.value, spelling, meaning, now));
  }

  /**
   * `UPDATE words SET level = $2, reviewed_at = CURRENT_TIMESTAMP WHERE id = $1 RETURNING *`,
   * first row.
   */
  method ReviewWord(db: Database, id: int, level: int) returns (r: Option<Word>)
    requires db.Valid()
    modifies db
    ensures db.Valid()
    ensures var found := GetWord(old(db.words), id);
      && r == (if found.Some? then Some(WordsDb.Reviewed(found.value, level, old(db.clock))) else None)
      && db.State() == if found.None? then old(db.State())
         else old(db.State()).(words := ReviewedWords(old(db.words), id, level, old(db.clock)),
                               clock := old(db.clock) + 1)
  {
    var found := GetWord(db.words, id);
    if found.None? {
      return None;
    }
    var t, now := db.State(), db.clock;
    WordsDb.ChangeKeepsValid(t, (w: Word) => w.id == id, (w: Word) => WordsDb.Reviewed(w, level, now));
    db.Write(t.(words := ReviewedWords(t.words, id, level, now), clock := now + 1));
    r := Some(WordsDb.Reviewed(found.value, level, now));
  }
}
