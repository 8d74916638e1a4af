/**
 * The `tags` statements of src/db/tags.ts. Reads, updates and deletes are filtered by
 * `id = $1 AND author = $2`; the name is `UNIQUE` over the whole table, across authors.
 */
module TagsDb {
  import opened Wrappers
  import opened Sql
  import opened Schema

  /** `WHERE id = $1 AND author = $2`. */
  predicate Owned(t: Tag, id: int, author: int) {
    t.id == id && t.author == author
  }

  /** Some row already has `name`. */
  predicate NameInUse(tags: seq<Tag>, name: string) {
    FirstWhere(tags, (t: Tag) => t.name == name).Some?
  }

  /** Some row other than tag `id` already has `name`. */
  predicate NameTaken(tags: seq<Tag>, name: string, id: int) {
    FirstWhere(tags, (t: Tag) => t.name == name && t.id != id).Some?
  }

  /** The row `createTag` inserts on `t`. */
  function NewTag(t: Tables, author: int, name: string): Tag {
    Tag(t.tagSeq, author, t.clock, t.clock, name)
  }

  /** What `editTag` makes of a matching row: only `name` and `updated_at` change. */
  function Renamed(t: Tag, name: string, now: nat): Tag {
    t.(name := name, updatedAt := now)
  }

  /** The table after `editTag` renames the row `id` of `author`. */
  function RenamedTags(tags: seq<Tag>, id: int, author: int, name: string, now: nat): seq<Tag> {
    UpdateWhere(tags, (x: Tag) => Owned(x, id, author), (x: Tag) => Renamed(x, name, now))
  }

  /** The table after `deleteTag` on the row `id` of `author`. */
  function WithoutTag(tags: seq<Tag>, id: int, author: int): (r: seq<Tag>)
    ensures forall x :: x in r <==> x in tags && !Owned(x, id, author)
  {
    Where(tags, (x: Tag) => !Owned(x, id, author))
  }

  /** `SELECT * FROM tags WHERE id = $1 AND author = $2`, first row. */
  function GetTag(tags: seq<Tag>, id: int, author: int): (r: Option<Tag>)
    ensures r.Some? ==> r.value in tags && r.value.id == id && r.value.author == author
    ensures r.None? <==> forall t :: t in tags ==> !Owned(t, id, author)
  {
    FirstWhere(tags, (t: Tag) => Owned(t, id, author))
  }

  /** With `id` the primary key, a tag is found exactly by its own id and author. */
  lemma GetTagFindsTheRow(tags: seq<Tag>, t: Tag)
    requires Pairwise(tags, TagsApart)
    requires t in tags
    ensures GetTag(tags, t.id, t.author) == Some(t)
  {
    var found := GetTag(tags, t.id, t.author).value;
    if found != t {
      PairwiseMembers(tags, TagsApart, found, t);
    }
  }

  /** Deleting a row the author does not have leaves the table as it was. */
  lemma WithoutMissingTag(tags: seq<Tag>, id: int, author: int)
    requires GetTag(tags, id, author).None?
    ensures WithoutTag(tags, id, author) == tags
  {
    WhereKeepsAll(tags, (x: Tag) => !Owned(x, id, author));
  }

  /** `SELECT * FROM tags WHERE author = $1`, in storage order (the query has no `ORDER BY`). */
  function GetAllTags(tags: seq<Tag>, author: int): (r: seq<Tag>)
    ensures forall t :: t in r <==> t in tags && t.author == author
    ensures Pairwise(tags, TagsApart) ==> Pairwise(r, TagsApart)
  {
    WhereKeepsPairwiseIf(tags, (t: Tag) => t.author == author);
    Where(tags, (t: Tag) => t.author == author)
  }

  /** Filtering a table whose ids and names are distinct keeps them distinct: why `GetAllTags` lists each tag once. */
  lemma WhereKeepsPairwiseIf(tags: seq<Tag>, p: Tag -> bool)
    ensures Pairwise(tags, TagsApart) ==> Pairwise(Where(tags, p), TagsApart)
  {
    if Pairwise(tags, TagsApart) {
      WhereKeepsPairwise(tags, p, TagsApart);
    }
  }

  /**
   * `INSERT INTO tags (author, name) VALUES ($1, $2) RETURNING *`. A name already in the table,
   * whoever owns it, violates `name UNIQUE`; otherwise an author that is not a user violates
   * `REFERENCES users(id)`. The `SERIAL` id is used up either way.
   */
  method CreateTag(db: Database, author: int, name: string) returns (r: Result<Tag, DbError>)
    requires db.Valid()
    modifies db
    ensures db.Valid()
    ensures r.Failure? <==> NameInUse(old(db.tags), name) || author !in UserIds(old(db.users))
    ensures r.Failure? ==>
      && r.error == (if NameInUse(old(db.tags), name) then UniqueViolation else ForeignKeyViolation)
      && db.State() == old(db.State()).(tagSeq := old(db.tagSeq) + 1)
    ensures r.Success? ==>
      && r.value == NewTag(old(db.State()), author, name)
      && db.State() == old(db.State()).(tags := old(db.tags) + [r.value], tagSeq := old(db.tagSeq) + 1,
                                        clock := old(db.clock) + 1)
  {
    var before := db.State();
    if NameInUse(db.tags, name) || author !in UserIds(db.users) {
      db.Write(before.(tagSeq := before.tagSeq + 1));
      return Failure(if NameInUse(before.tags, name) then UniqueViolation else ForeignKeyViolation);
    }
    var tag := NewTag(before, author, name);
    AppendKeepsPairwise(before.tags, tag, TagsApart);
    assert TagIds(before.tags) <= TagIds(before.tags + [tag]);
    db.Write(before.(tags := before.tags + [tag], tagSeq := before.tagSeq + 1, clock := before.clock + 1));
    r := Success(tag);
  }

  /** Renaming the one row with `id` to a name no other row has keeps every key and reference. */
  lemma RenameKeepsValid(t: Tables, id: int, author: int, name: string)
    requires TablesValid(t)
    requires !NameTaken(t.tags, name, id)
    ensures TablesValid(t.(tags := RenamedTags(t.tags, id, author, name, t.clock), clock := t.clock + 1))
  {
    var p := (x: Tag) => Owned(x, id, author);
    var f := (x: Tag) => Renamed(x, name, t.clock);
    var tags := UpdateWhere(t.tags, p, f);
    forall i, j | 0 <= i < j < |tags| ensures TagsApart(tags[i], tags[j]) {
      assert TagsApart(t.tags[i], t.tags[j]);
      if p(t.tags[i]) {
        assert t.tags[j] in t.tags && t.tags[j].id != id;
      } else if p(t.tags[j]) {
        assert t.tags[i] in t.tags && t.tags[i].id != id;
      }
    }
    forall x | x in tags ensures FirstSerial <= x.id < t.tagSeq && x.author in UserIds(t.users) {
      var i :| 0 <= i < |tags| && tags[i] == x;
      assert t.tags[i] in t.tags;
    }
    assert TagIds(tags) == TagIds(t.tags) by {
      forall y | y in TagIds(t.tags) ensures y in TagIds(tags) {
        var x :| x in t.tags && x.id == y;
        var i :| 0 <= i < |t.tags| && t.tags[i] == x;
        assert tags[i] in tags;
      }
      forall y | y in TagIds(tags) ensures y in TagIds(t.tags) {
        var x :| x in tags && x.id == y;
        var i :| 0 <= i < |tags| && tags[i] == x;
        assert t.tags[i] in t.tags;
      }
    }
  }

  /**
   * `UPDATE tags SET name = $3, updated_at = CURRENT_TIMESTAMP WHERE id = $1 AND author = $2
   * RETURNING *`, first row. Taking a name another row has violates `name UNIQUE`.
   */
  method EditTag(db: Database, id: int, author: int, name: string) returns (r: Result<Option<Tag>, DbError>)
    requires db.Valid()
    modifies db
    ensures db.Valid()
    ensures r.Failure? <==> GetTag(old(db.tags), id, author).Some? && NameTaken(old(db.tags), name, id)
    ensures r.Failure? ==> r.error == UniqueViolation && db.State() == old(db.State())
    ensures GetTag(old(db.tags), id, author).None? ==> r == Success(None)
    ensures r == Success(None) ==> db.State() == old(db.State())
    ensures r.Success? && GetTag(old(db.tags), id, author).Some? ==>
      && r.value == Some(Renamed(GetTag(old(db.tags), id, author).value, name, old(db.clock)))
      && db.State() == old(db.State()).(tags := RenamedTags(old(db.tags), id, author, name, old(db.clock)),
                                        clock := old(db.clock) + 1)
  {
    var found := GetTag(db.tags, id, author);
    if found.None? {
      return Success(None);
    }
    if NameTaken(db.tags, name, id) {
      return Failure(UniqueViolation);
    }
    var t, now := db.State(), db.clock;
    RenameKeepsValid(t, id, author, name);
    db.Write(t.(tags := RenamedTags(t.tags, id, author, name, now), clock := now + 1));
    r := Success(Some(Renamed(found.value, name, now)));
  }

  /** A tag nobody links to can be deleted without breaking a key or a reference. */
  lemma DeleteKeepsValid(t: Tables, id: int, author: int)
    requires TablesValid(t)
    requires GetTag(t.tags, id, author).Some? ==> !LinksToTag(t.links, id)
    ensures TablesValid(t.(tags := WithoutTag(t.tags, id, author)))
  {
    var tags := Where(t.tags, (x: Tag) => !Owned(x, id, author));
    WhereKeepsPairwise(t.tags, (x: Tag) => !Owned(x, id, author), TagsApart);
    forall l | l in t.links ensures l.tagId in TagIds(tags) {
      var x :| x in t.tags && x.id == l.tagId;
      assert x in tags;
    }
  }

  /**
   * `DELETE FROM tags WHERE id = $1 AND author = $2 RETURNING *`, first row. While a link still
   * references the row, `tag_id REFERENCES tags(id)` makes the statement fail.
   */
  method DeleteTag(db: Database, id: int, author: int) returns (r: Result<Option<Tag>, DbError>)
    requires db.Valid()
    modifies db
    ensures db.Valid()
    ensures r.Failure? <==> GetTag(old(db.tags), id, author).Some? && LinksToTag(old(db.links), id)
    ensures r.Failure? ==> r.error == ForeignKeyViolation && db.State() == old(db.State())
    ensures r.Success? ==>
      && r.value == GetTag(old(db.tags), id, author)
      && db.State() == old(db.State()).(tags := WithoutTag(old(db.tags), id, author))
  {
    var found := GetTag(db.tags, id, author);
    if found.Some? && LinksToTag(db.links, id) {
      return Failure(ForeignKeyViolation);
    }
    var t := db.State();
    DeleteKeepsValid(t, id, author);
    db.Write(t.(tags := WithoutTag(t.tags, id, author)));
    r := Success(found);
  }
}
