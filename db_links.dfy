/**
 * The `wt_relationships` statements of src/db/wt-relationships.ts, plus the two removals that
 * src/routes/words.ts:123 and src/routes/tags.ts:163 call but that file does not define; they
 * are modelled as the comment at src/routes/words.ts:122 describes them: delete every link of
 * the word (or of the tag).
 */
module LinksDb {
  import opened Wrappers
  import opened Sql
  import opened Schema

  /** `SELECT tag_id FROM wt_relationships WHERE word_id = $1`, projected to the ids. */
  function GetTagsWithWord(links: seq<Link>, wordId: int): (tagIds: seq<int>)
    ensures forall t :: t in tagIds <==> Link(wordId, t) in links
  {
    var rows := Where(links, (l: Link) => l.wordId == wordId);
    var r := Select(rows, (l: Link) => l.tagId);
    assert forall t :: t in r <==> Link(wordId, t) in rows by {
      forall t ensures t in r <==> Link(wordId, t) in rows {
        if t in r {
          var i :| 0 <= i < |r| && r[i] == t;
          assert rows[i] in rows;
        }
        if Link(wordId, t) in rows {
          var i :| 0 <= i < |rows| && rows[i] == Link(wordId, t);
          assert r[i] == t;
        }
      }
    }
    r
  }

  /** With the composite primary key in force, no tag id is listed twice. */
  lemma {:induction false} GetTagsWithWordDistinct(links: seq<Link>, wordId: int)
    requires Pairwise(links, LinksApart)
    ensures Pairwise(GetTagsWithWord(links, wordId), (a: int, b: int) => a != b)
  {
    var rows := Where(links, (l: Link) => l.wordId == wordId);
    WhereKeepsPairwise(links, (l: Link) => l.wordId == wordId, LinksApart);
    var r := GetTagsWithWord(links, wordId);
    forall i, j | 0 <= i < j < |r| ensures r[i] != r[j] {
      assert LinksApart(rows[i], rows[j]);
      assert rows[i] in rows && rows[j] in rows;
    }
  }

  /** Whether one `INSERT INTO wt_relationships (word_id, tag_id) VALUES ($1, $2)` goes through. */
  predicate Admits(wordIds: set<int>, tagIds: set<int>, links: seq<Link>, l: Link) {
    l !in links && l.wordId in wordIds && l.tagId in tagIds
  }

  /**
   * One such insert: a repeated pair violates `PRIMARY KEY(word_id, tag_id)`, and a word or tag id
   * with no row violates its `REFERENCES` clause.
   */
  function InsertLink(wordIds: set<int>, tagIds: set<int>, links: seq<Link>, l: Link): (r: Result<seq<Link>, DbError>)
    ensures r.Success? <==> Admits(wordIds, tagIds, links, l)
    ensures r.Success? ==> r.value == links + [l]
    ensures r.Failure? ==> r.error == (if l in links then UniqueViolation else ForeignKeyViolation)
  {
    if l in links then Failure(UniqueViolation)
    else if l.wordId !in wordIds || l.tagId !in tagIds then Failure(ForeignKeyViolation)
    else Success(links + [l])
  }

  /**
   * The inserts for `tags` run one after another: each insert that goes through adds its link,
   * and the error reported is that of the first insert that did not. The inserts are independent
   * statements, so the links left are the same in whatever order `Promise.all` runs them.
   */
  function InsertAll(wordIds: set<int>, tagIds: set<int>, links: seq<Link>, wordId: int, tags: seq<int>)
    : (r: (seq<Link>, Option<DbError>))
    ensures forall l :: l in r.0 <==>
      l in links || (l.wordId == wordId && l.tagId in tags && wordId in wordIds && l.tagId in tagIds)
    ensures r.1.None? <==>
      forall i :: 0 <= i < |tags| ==> Admits(wordIds, tagIds, links, Link(wordId, tags[i])) && tags[i] !in tags[..i]
    ensures Pairwise(links, LinksApart) ==> Pairwise(r.0, LinksApart)
  {
    if tags == [] then (links, None)
    else
      var n := |tags| - 1;
      var (prev, err) := InsertAll(wordIds, tagIds, links, wordId, tags[..n]);
      var l := Link(wordId, tags[n]);
      LastOfList(tags);
      AdmitsLast(wordIds, tagIds, links, wordId, tags, prev);
      match InsertLink(wordIds, tagIds, prev, l)
      case Success(next) =>
        AppendFreshLink(prev, l);
        (next, err)
      case Failure(e) => (prev, if err.Some? then err else Some(e))
  }

  /** `tags` is its prefix without the last element, followed by that element. */
  lemma LastOfList(tags: seq<int>)
    requires tags != []
    ensures var n := |tags| - 1;
      && tags == tags[..n] + [tags[n]]
      && forall i :: 0 <= i < n ==> tags[..n][i] == tags[i] && tags[..n][..i] == tags[..i]
  {
  }

  /**
   * Once the inserts for all but the last tag have run, the last one goes through exactly when
   * it would have on the original links and does not repeat an earlier tag.
   */
  lemma AdmitsLast(wordIds: set<int>, tagIds: set<int>, links: seq<Link>, wordId: int, tags: seq<int>, prev: seq<Link>)
    requires tags != []
    requires forall l :: l in prev <==>
      l in links || (l.wordId == wordId && l.tagId in tags[..|tags| - 1] && wordId in wordIds && l.tagId in tagIds)
    ensures var n := |tags| - 1;
      Admits(wordIds, tagIds, prev, Link(wordId, tags[n]))
      <==> Admits(wordIds, tagIds, links, Link(wordId, tags[n])) && tags[n] !in tags[..n]
  {
  }

  /** Appending a link not yet present keeps the composite key. */
  lemma AppendFreshLink(links: seq<Link>, l: Link)
    requires l !in links
    ensures Pairwise(links, LinksApart) ==> Pairwise(links + [l], LinksApart)
  {
    if Pairwise(links, LinksApart) {
      AppendKeepsPairwise(links, l, LinksApart);
    }
  }

  /** An empty tag list leaves the links as they are and reports nothing. */
  lemma InsertNothing(wordIds: set<int>, tagIds: set<int>, links: seq<Link>, wordId: int)
    ensures InsertAll(wordIds, tagIds, links, wordId, []) == (links, None)
  {
  }

  /**
   * `createWtRelationships({ wordId, tags })`: one insert per tag; it resolves with no value, or
   * rejects with the error of an insert that failed.
   */
  method CreateWtRelationships(db: Database, wordId: int, tags: seq<int>) returns (err: Option<DbError>)
    requires db.Valid()
    modifies db
    ensures db.Valid()
    ensures (db.links, err) == InsertAll(WordIds(old(db.words)), TagIds(old(db.tags)), old(db.links), wordId, tags)
    ensures db.State() == old(db.State()).(links := db.links)
  {
    var wordIds, tagIds := WordIds(db.words), TagIds(db.tags);
    err := None;
    var i := 0;
    while i < |tags|
      invariant 0 <= i <= |tags|
      invariant db.Valid()
      invariant (db.links, err) == InsertAll(wordIds, tagIds, old(db.links), wordId, tags[..i])
      invariant db.State() == old(db.State()).(links := db.links)
    {
      assert tags[..i + 1][..i] == tags[..i];
      match InsertLink(wordIds, tagIds, db.links, Link(wordId, tags[i])) {
        case Success(next) =>
          AppendKeepsPairwise(db.links, Link(wordId, tags[i]), LinksApart);
          db.links := next;
        case Failure(e) =>
          if err.None? {
            err := Some(e);
          }
      }
      i := i + 1;
    }
    assert tags[..i] == tags;
  }

  /** The links left after `DELETE FROM wt_relationships WHERE word_id = $1`. */
  function WithoutWordLinks(links: seq<Link>, wordId: int): (r: seq<Link>)
    ensures forall l :: l in r <==> l in links && l.wordId != wordId
  {
    Where(links, (l: Link) => l.wordId != wordId)
  }

  /** The links left after `DELETE FROM wt_relationships WHERE tag_id = $1`. */
  function WithoutTagLinks(links: seq<Link>, tagId: int): (r: seq<Link>)
    ensures forall l :: l in r <==> l in links && l.tagId != tagId
  {
    Where(links, (l: Link) => l.tagId != tagId)
  }

  /** Deleting links never breaks a key or a reference. */
  lemma RemoveLinksKeepsValid(t: Tables, keep: Link -> bool)
    requires TablesValid(t)
    ensures TablesValid(t.(links := Where(t.links, keep)))
  {
    WhereKeepsPairwise(t.links, keep, LinksApart);
  }

  /** Once the links of a word are gone, no tag is listed for it. */
  lemma NoTagsAfterRemoval(links: seq<Link>, wordId: int)
    ensures GetTagsWithWord(WithoutWordLinks(links, wordId), wordId) == []
  {
  }

  /** `removeAllWtRelationshipsByWord({ wordId })`: `DELETE FROM wt_relationships WHERE word_id = $1`. */
  method RemoveAllByWord(db: Database, wordId: int)
    requires db.Valid()
    modifies db
    ensures db.Valid()
    ensures db.State() == old(db.State()).(links := WithoutWordLinks(old(db.links), wordId))
    ensures GetTagsWithWord(db.links, wordId) == []
  {
    RemoveLinksKeepsValid(db.State(), (l: Link) => l.wordId != wordId);
    NoTagsAfterRemoval(db.links, wordId);
    db.links := WithoutWordLinks(db.links, wordId);
  }

  /** `removeAllWtRelationshipsByTag({ tagId })`: `DELETE FROM wt_relationships WHERE tag_id = $1`. */
  method RemoveAllByTag(db: Database, tagId: int)
    requires db.Valid()
    modifies db
    ensures db.Valid()
    ensures db.State() == old(db.State()).(links := WithoutTagLinks(old(db.links), tagId))
    ensures !LinksToTag(db.links, tagId)
  {
    RemoveLinksKeepsValid(db.State(), (l: Link) => l.tagId != tagId);
    db.links := WithoutTagLinks(db.links, tagId);
  }
}
