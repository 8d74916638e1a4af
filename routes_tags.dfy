/**
 * The tag handlers of src/routes/tags.ts. Like the word handlers they run behind the
 * authentication middleware and return the status and body they assign to `ctx`. Only tag
 * creation catches database errors; an edit to a name in use throws to Koa.
 */
module TagRoutes {
  import opened Wrappers
  import opened Sql
  import opened Schema
  import opened Http
  import opened TagsDb
  import opened LinksDb

  datatype CreateTagBody = CreateTagBody(name: Option<string>)
  datatype EditTagBody = EditTagBody(id: Option<int>, name: Option<string>)
  datatype DeleteTagBody = DeleteTagBody(id: Option<int>)

  /**
   * The exit a handler takes: a 400, a 404, the 500 tag creation writes itself for an error other
   * than a taken name, an exception nobody catches, or its success reply.
   */
  datatype Exit = BadRequest(message: string) | NotFound(message: string) | DatabaseError | Crashed | Done

  /** The exit tag creation takes on `t`: the name is unique across all users' tags. */
  function CreateRoute(t: Tables, author: int, body: CreateTagBody): Exit {
    if !Truthy(body.name) then BadRequest("The field `name` is mandatory.")
    else if NameInUse(t.tags, body.name.value) then BadRequest("A tag with that `name` already exists.")
    else if author !in UserIds(t.users) then DatabaseError
    else Done
  }

  /** POST /tags (src/routes/tags.ts:15-56). A failed insert still uses up a serial id. */
  method Create(db: Database, user: User, body: CreateTagBody) returns (reply: Reply)
    requires db.Valid()
    modifies db
    ensures db.Valid()
    ensures var t := old(db.State());
      match CreateRoute(t, user.id, body)
      case BadRequest(message) =>
        && reply == Error(400, message)
        && db.State() == (if Truthy(body.name) then t.(tagSeq := t.tagSeq + 1) else t)
      case DatabaseError =>
        reply == Error(500, "Something went wrong with the database.") && db.State() == t.(tagSeq := t.tagSeq + 1)
      case Done =>
        var tag := NewTag(t, user.id, body.name.value);
        && reply == Reply(201, TagBody(tag))
        && db.State() == t.(tags := t.tags + [tag], tagSeq := t.tagSeq + 1, clock := t.clock + 1)
      case NotFound(_) => false
      case Crashed => false
  {
    var name := body.name;
    if !Truthy(name) {
      return Error(400, "The field `name` is mandatory.");
    }
    var result := CreateTag(db, user.id, name.value);
    if result.Failure? {
      if result.error.SqlState() == "23505" {
        return Error(400, "A tag with that `name` already exists.");
      }
      return Error(500, "Something went wrong with the database.");
    }
    reply := Reply(201, TagBody(result.value));
  }

  /** GET /tags/:id (src/routes/tags.ts:62-79): another user's tag is as missing as an absent one. */
  method Get(db: Database, user: User, id: int) returns (reply: Reply)
    ensures var found := GetTag(db.tags, id, user.id);
      && (found.None? ==> reply == Error(404, "Cannot find the tag."))
      && (found.Some? ==> reply == Reply(200, TagBody(found.value)))
    ensures reply.status == 200 <==> exists x :: x in db.tags && x.id == id && x.author == user.id
  {
    var found := GetTag(db.tags, id, user.id);
    if found.None? {
      return Error(404, "Cannot find the tag.");
    }
    reply := Reply(200, TagBody(found.value));
  }

  /** GET /tags (src/routes/tags.ts:85-90): the caller's tags and nobody else's, each once. */
  method GetAll(db: Database, user: User) returns (reply: Reply)
    requires db.Valid()
    ensures reply.status == 200 && reply.body.TagListBody?
    ensures forall x :: x in reply.body.tags <==> x in db.tags && x.author == user.id
    ensures Pairwise(reply.body.tags, TagsApart)
  {
    reply := Reply(200, TagListBody(GetAllTags(db.tags, user.id)));
  }

  /** The exit tag editing takes on `t`. */
  function EditRoute(t: Tables, author: int, body: EditTagBody): Exit {
    if !TruthyNumber(body.id) then BadRequest("The field `id` is mandatory.")
    else if !Truthy(body.name) then BadRequest("The field `name` is mandatory")
    else if GetTag(t.tags, body.id.value, author).None? then NotFound("Cannot find the tag.")
    else if NameTaken(t.tags, body.name.value, body.id.value) then Crashed
    else Done
  }

  /** PATCH /tags/edit (src/routes/tags.ts:101-138). The update names the row and the caller. */
  method Edit(db: Database, user: User, body: EditTagBody) returns (reply: Reply)
    requires db.Valid()
    modifies db
    ensures db.Valid()
    ensures var t := old(db.State());
      match EditRoute(t, user.id, body)
      case BadRequest(message) => reply == Error(400, message) && db.State() == t
      case NotFound(message) => reply == Error(404, message) && db.State() == t
      case Crashed => reply == Uncaught && db.State() == t
      case Done =>
        var id, name := body.id.value, body.name.value;
        && reply == Reply(200, TagBody(Renamed(GetTag(t.tags, id, user.id).value, name, t.clock)))
        && db.State() == t.(tags := RenamedTags(t.tags, id, user.id, name, t.clock), clock := t.clock + 1)
      case DatabaseError => false
  {
    var id, name := body.id, body.name;
    if !TruthyNumber(id) || !Truthy(name) {
      return Error(400, if !TruthyNumber(id) then "The field `id` is mandatory." else "The field `name` is mandatory");
    }
    var result := EditTag(db, id.value, user.id, name.value);
    if result.Failure? {
      return Uncaught;
    }
    if result.value.None? {
      return Error(404, "Cannot find the tag.");
    }
    reply := Reply(200, TagBody(result.value.value));
  }

  /** The exit tag deletion takes on `t`. */
  function DeleteRoute(t: Tables, author: int, body: DeleteTagBody): Exit {
    if !TruthyNumber(body.id) then BadRequest("The field `id` is mandatory.")
    else if GetTag(t.tags, body.id.value, author).None? then NotFound("Cannot find that tag.")
    else Done
  }

  /**
   * DELETE /tags (src/routes/tags.ts:148-179). The tag's links go first, whoever owns it: a
   * missing or foreign id gets 404 with the links already gone.
   */
  method Delete(db: Database, user: User, body: DeleteTagBody) returns (reply: Reply)
    requires db.Valid()
    modifies db
    ensures db.Valid()
    ensures var t := old(db.State());
      match DeleteRoute(t, user.id, body)
      case BadRequest(message) => reply == Error(400, message) && db.State() == t
      case NotFound(message) =>
        reply == Error(404, message) && db.State() == t.(links := WithoutTagLinks(t.links, body.id.value))
      case Done =>
        && reply == Reply(204, NoBody)
        && db.State() == t.(links := WithoutTagLinks(t.links, body.id.value),
                            tags := WithoutTag(t.tags, body.id.value, user.id))
      case DatabaseError => false
      case Crashed => false
  {
    var id := body.id;
    if !TruthyNumber(id) {
      return Error(400, "The field `id` is mandatory.");
    }
    RemoveAllByTag(db, id.value);
    var result := DeleteTag(db, id.value, user.id);
    if result.value.None? {
      WithoutMissingTag(old(db.tags), id.value, user.id);
      return Error(404, "Cannot find that tag.");
    }
    reply := Reply(204, NoBody);
  }

  /** A name any user's tag already has is refused to every caller, with a 400. */
  lemma NamesAreGlobal(t: Tables, author: int, other: Tag, body: CreateTagBody)
    requires other in t.tags && body.name == Some(other.name) && other.name != []
    ensures CreateRoute(t, author, body) == BadRequest("A tag with that `name` already exists.")
  {
    assert !(forall x :: x in t.tags ==> !(x.name == other.name));
  }

  /** A created tag can be read back by its author under its new id. */
  lemma CreatedTagIsFound(t: Tables, author: int, body: CreateTagBody)
    requires TablesValid(t)
    requires CreateRoute(t, author, body).Done?
    ensures var tag := NewTag(t, author, body.name.value);
      GetTag(t.tags + [tag], t.tagSeq, author) == Some(tag)
  {
    var tag := NewTag(t, author, body.name.value);
    assert tag !in t.tags;
    forall x | x in t.tags ensures TagsApart(x, tag) {
      assert x.name != tag.name;
    }
    AppendKeepsPairwise(t.tags, tag, TagsApart);
    GetTagFindsTheRow(t.tags + [tag], tag);
  }

  /** After a rename the caller reads the tag back under its new name. */
  lemma RenamedTagIsFound(t: Tables, author: int, body: EditTagBody)
    requires TablesValid(t)
    requires EditRoute(t, author, body).Done?
    ensures var id, name := body.id.value, body.name.value;
      GetTag(RenamedTags(t.tags, id, author, name, t.clock), id, author)
        == Some(Renamed(GetTag(t.tags, id, author).value, name, t.clock))
  {
    var id, name := body.id.value, body.name.value;
    RenameKeepsValid(t, id, author, name);
    var found := GetTag(t.tags, id, author).value;
    var renamed := Renamed(found, name, t.clock);
    var tags := RenamedTags(t.tags, id, author, name, t.clock);
    var k :| 0 <= k < |t.tags| && t.tags[k] == found;
    assert tags[k] == renamed;
    GetTagFindsTheRow(tags, renamed);
  }

  /** Once a tag is deleted, no row of `tags` has its id and no link references it. */
  lemma DeleteRemovesTheTag(t: Tables, author: int, body: DeleteTagBody)
    requires TablesValid(t)
    requires DeleteRoute(t, author, body).Done?
    ensures var id := body.id.value;
      && id !in TagIds(WithoutTag(t.tags, id, author))
      && !LinksToTag(WithoutTagLinks(t.links, id), id)
  {
    var id := body.id.value;
    var owned := GetTag(t.tags, id, author).value;
    forall x | x in WithoutTag(t.tags, id, author) ensures x.id != id {
      PairwiseMembers(t.tags, TagsApart, x, owned);
    }
  }

  /** Deleting a tag a second time answers 404, not 500. */
  lemma DeleteAgainIsNotFound(t: Tables, author: int, body: DeleteTagBody)
    requires TablesValid(t)
    requires DeleteRoute(t, author, body).Done?
    ensures var id := body.id.value;
      DeleteRoute(t.(links := WithoutTagLinks(t.links, id), tags := WithoutTag(t.tags, id, author)), author, body)
        == NotFound("Cannot find that tag.")
  {
    DeleteRemovesTheTag(t, author, body);
  }

  /** A caller who owns no tag with the id never gets a success from edit or delete. */
  lemma OnlyTheOwnerSucceeds(t: Tables, author: int, id: int, edit: EditTagBody, delete: DeleteTagBody)
    requires forall x :: x in t.tags && x.id == id ==> x.author != author
    requires edit.id == delete.id == Some(id)
    ensures !EditRoute(t, author, edit).Done? && !DeleteRoute(t, author, delete).Done?
  {
  }
}
