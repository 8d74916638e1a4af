# words-backend in Dafny

A model of the request handlers and database statements of words-backend. The service is a Koa
server for learning vocabulary, backed by PostgreSQL.

- **Accounts** are created, signed in to and deleted through one-time codes. A code is kept per email
  in `auth_codes`.
- **Sessions** are JWT cookies, checked by an authentication middleware.
- **Words and tags** are rows owned by their author. A word is linked to tags through
  `wt_relationships`.

## Layout of the model

- **The database is one object.** `Schema.Database` holds the five tables. `users`, `words`, `tags`
  and `wt_relationships` are sequences in storage order. `auth_codes` is a map keyed by its primary
  key, the email.
  - Three `SERIAL` counters sit beside the tables.
  - A logical clock stands for `CURRENT_TIMESTAMP` and advances on each statement that stamps a row.
  - `Schema.TablesValid` collects every `PRIMARY KEY`, `UNIQUE` and `REFERENCES` clause of the
    schema. Every operation that changes the database preserves it.
- **Row filters are generic.** `Sql` gives the meaning of `WHERE`, `UPDATE ... WHERE` and
  `ORDER BY ... DESC` on such tables. It also gives `Pairwise`, the form every key constraint takes.
- **Statement modules** are `AuthDb` (src/auth/db.ts), `WordsDb` (src/db/words.ts), `TagsDb`
  (src/db/tags.ts and src/tags/db.ts), `LinksDb` (src/db/wt-relationships.ts) and `LegacyWordsDb`
  (src/words/db.ts).
  - Statements that write are methods that change the database.
  - Queries are functions of the table values.
  - A constraint violation is a `DbError` value carrying the PostgreSQL SQLSTATE: `23505`
    (unique) or `23503` (foreign key).
- **Handler modules** are `AuthMiddleware`, `AuthRoutes`, `WordRoutes`, `TagRoutes` and
  `LegacyWordRoutes`.
  - Each handler with several exits has a postcondition that is a `match` on a route function. The route function returns the
    exit the handler takes, with its checks tested in the source's order.
  - For each exit, the postcondition gives the exact status and body of the reply, and the exact
    tables afterwards. The auth handlers also give what they do to the session cookie.
- **The middleware keeps the mutable context.** `AuthMiddleware.Authenticate` writes
  `ctx.status`, `ctx.body` and `ctx.user` on an `Http.Context` object and says whether `next()` is
  called. The handlers it guards take the verified user as a parameter.
- **JavaScript truthiness is explicit.** `Http.Truthy` treats an absent or empty string as missing.
  `Http.TruthyNumber` treats an absent number or `0` as missing, so a review level of 0 is
  reported as missing.
- **Crashes are a reply.** An exception nobody catches becomes `Http.Uncaught`: Koa's 500 with
  its default body. The tables keep whatever the handler had already written.
- **Request sequences are lemmas.** `AuthScenarios` states facts about several requests in a row:
  - request a code, then submit it;
  - request codes twice;
  - let the expiry timer fire;
  - use a code issued by one flow in another.

### Behaviour worth knowing

- **Create-word replies have no tags.** `POST /words` does not echo the tag ids it was given.
  The handler sets `tags` to what `createWtRelationships` resolves to, which is nothing
  (src/routes/words.ts:40-41). `WordRoutes.Create`
  answers `tags = None`.
- **A foreign row gets 404, not 403.** A word or tag of another user answers 404. The queries
  filter by `author`, so such a row is simply not found.
  `WordRoutes.OnlyTheOwnerSucceeds` and `TagRoutes.OnlyTheOwnerSucceeds` state it.
- **Tag names are unique across all users.** Both tag schemas make `name` `UNIQUE` over the
  whole table (src/db/index.ts:40, src/tags/db.ts:14), so a name another user owns is refused
  (`TagRoutes.NamesAreGlobal`).
- **A taken name on tag edit is a 500.** Tag creation turns a unique violation into a 400, but
  the tag edit handler does not catch it. Renaming a tag to a name in use therefore answers 500.
- **Failed link inserts are 500s after writes.** A tag id that does not exist, or one given
  twice, makes the link inserts fail. The 500 comes after the word was inserted
  (`WordRoutes.CreateCrashKeepsTheWord`), or after its links were cleared.
- **Deleting an account with words or tags is a 500.** Deleting an account whose user still
  owns words or tags fails on the foreign key, and the code is kept.

## Model

| member | source | states |
|---|---|---|
| Schema.Database.constructor | src/db/index.ts:15-55 | the freshly created tables (with `users` and `auth_codes` from src/auth/db.ts:12-34) are empty, every serial starts at 1, and every key and reference holds |
| AuthDb.GetCode | src/auth/db.ts:50-60 | a code exactly when the email has a row, and then that row's code; none stands for the undefined `code` |
| AuthDb.GetUserByEmail | src/auth/db.ts:85-94 | a row with that email, or none exactly when no row has it |
| AuthDb.GetUserByEmailFindsTheRow | src/auth/db.ts:17 | with email `UNIQUE`, the lookup returns exactly the user who has it |
| AuthDb.GetUserByUsername | src/auth/db.ts:95-104 | a row with that username, or none exactly when no row has it |
| AuthDb.GetUserByUsernameFindsTheRow | src/auth/db.ts:18 | with username `UNIQUE`, the lookup returns exactly the user who has it |
| AuthDb.SaveCode | src/auth/db.ts:36-49 | upsert: afterwards the email maps to the new code stamped now, whatever it held before; no other email or table changes |
| AuthDb.DeleteCode | src/auth/db.ts:61-72 | removes that email's row alone and returns it; with no row it returns none and nothing changes |
| AuthDb.CreateUser | src/auth/db.ts:73-84 | fails with a unique violation exactly when the email or the username is taken, using up a serial; otherwise appends the user with the next id and role `student` |
| AuthDb.InsertUserKeepsValid | src/auth/db.ts:15-22 | a user with a fresh id and a free email and username keeps every key of `users` |
| AuthDb.DeleteUser | src/auth/db.ts:105-114 | fails with a foreign-key violation, changing nothing, exactly when a word or tag names the user; otherwise removes exactly the rows with that id and returns the first |
| AuthMiddleware.AllowedRoles | src/auth/middleware.ts:8-15 | the given roles, or `admin` and `student` when no options are given or the options have no `roles` key |
| AuthMiddleware.Decide | src/auth/middleware.ts:17-57 | 401 `Token not provided.` without a token, 401 `Invalid token.` when verification fails, 403 when the verified role is not allowed, proceed otherwise; each exactly when its condition holds |
| AuthMiddleware.Authenticate | src/auth/middleware.ts:17-59 | calls `next` exactly when the decision is to proceed; writes the decision's status and body; stores the payload in `ctx.user` before the role check, so a 403 keeps it |
| AuthMiddleware.DefaultsAdmitStudentsAndAdmins | src/auth/middleware.ts:9-15 | with default options a verified token proceeds exactly for roles `admin` and `student`, and is refused with 403 otherwise |
| AuthRoutes.Signup | src/auth/routes.ts:24-112 | checks in order: email, username, email taken, username taken, code requested, code mismatch; each error answers 400 with its message and changes nothing; a code request upserts the code and answers 200 with it; a match creates the user, answers 201, sets the cookie and removes the code |
| AuthRoutes.Signin | src/auth/routes.ts:115-186 | an unknown email answers 400 whatever the code; a code request upserts and answers 200; a mismatch answers 400; a match answers 200 with the existing user, sets the cookie, removes the code and creates no user |
| AuthRoutes.Signout | src/auth/routes.ts:189-217 | 401 without a token or with one that fails verification; otherwise 204 and the cookie is cleared |
| AuthRoutes.Delete | src/auth/routes.ts:220-289 | 401 without a verified token; without a code, upserts a code for the token's email; a mismatch answers 400; a match deletes the token's user, answers 204, clears the cookie and removes the code; a user who still owns rows ends in a 500 with nothing changed |
| AuthRoutes.Expire | src/auth/routes.ts:78-80 | one firing of the expiry timer removes the email's code and nothing else |
| AuthScenarios.SignupRequestThenVerify | src/auth/routes.ts:69-111 | after a signup code request, submitting that code completes the signup |
| AuthScenarios.ResentCodeReplacesTheOld | src/auth/routes.ts:69-97 | after two code requests only the second code is accepted; the first is refused |
| AuthScenarios.ExpiredCodeIsRefused | src/auth/routes.ts:156-158 | once the timer has fired, the issued code is refused by signup, signin and account deletion |
| AuthScenarios.CodesCrossFlows | src/auth/routes.ts:147-288 | a code issued for an email by signin is accepted by account deletion, and one issued by deletion is accepted by signin, since deletion keys its code by the token's email |
| AuthScenarios.SignedUpUserCanSignIn | src/auth/routes.ts:100-111 | after a signup the email and the username are taken, the used code is refused, and signin finds exactly the new user |
| LinksDb.GetTagsWithWord | src/db/wt-relationships.ts:17-27 | the listed tag ids are exactly those linked to the word, so none when it has no link |
| LinksDb.GetTagsWithWordDistinct | src/db/index.ts:48-52 | with `(word_id, tag_id)` the primary key, each tag id is listed once |
| LinksDb.InsertLink | src/db/index.ts:48-52 | one insert goes through exactly when the pair is new and both ids exist; a repeated pair is a unique violation and a missing id a foreign-key violation |
| LinksDb.InsertAll | src/db/wt-relationships.ts:4-16 | the links afterwards are the old ones plus `(word, t)` for each tag `t` that exists; no error exactly when every insert is admitted and no tag repeats; the key is kept |
| LinksDb.InsertNothing | src/db/wt-relationships.ts:4-16 | an empty tag list adds nothing and reports nothing |
| LinksDb.CreateWtRelationships | src/db/wt-relationships.ts:4-16 | inserts one link per tag in list order, ending in exactly the links and error of `InsertAll`; no other table changes and it returns no value |
| LinksDb.WithoutWordLinks | src/routes/words.ts:122-123 | keeps exactly the links of other words |
| LinksDb.WithoutTagLinks | src/routes/tags.ts:163 | keeps exactly the links of other tags |
| LinksDb.RemoveLinksKeepsValid | src/db/index.ts:48-52 | deleting links never breaks a key or a reference |
| LinksDb.NoTagsAfterRemoval | src/routes/words.ts:122-127 | once a word's links are removed, no tag is listed for it |
| LinksDb.RemoveAllByWord | src/routes/words.ts:122-123 | removes exactly the word's links, changes nothing else, and leaves no tag listed for the word |
| LinksDb.RemoveAllByTag | src/routes/tags.ts:163 | removes exactly the tag's links, changes nothing else, and leaves no link to the tag |
| WordsDb.NewWord | src/db/index.ts:19-28 | the inserted row has the next id, the given author, spelling and meaning, level 0, and all three timestamps now |
| WordsDb.CreateWord | src/db/words.ts:4-15 | fails with a foreign-key violation exactly when the author is no user, using up a serial; otherwise appends the new row |
| WordsDb.GetWord | src/db/words.ts:16-26 | a row only when both id and author match, and none exactly when no row matches both |
| WordsDb.GetWordFindsTheRow | src/db/words.ts:16-26 | with `id` the primary key, a word is found by its id and author |
| WordsDb.GetAllWords | src/db/words.ts:27-38 | exactly the author's words |
| WordsDb.GetAllWordsNewestFirst | src/db/words.ts:27-38 | the listed words are in strictly decreasing `created_at` |
| WordsDb.ChangeKeepsValid | src/db/index.ts:19-28 | an update that keeps id, author and creation time keeps every key and reference |
| WordsDb.EditWord | src/db/words.ts:39-51 | with an owned row, changes only its spelling, meaning and `updated_at` and returns it; with none, returns none and nothing changes |
| WordsDb.ReviewWord | src/db/words.ts:52-64 | with an owned row, changes only its level and `reviewed_at` and returns it; with none, returns none and nothing changes |
| WordsDb.WithoutWord | src/db/words.ts:65-76 | keeps exactly the rows not matching both id and author |
| WordsDb.WithoutMissingWord | src/db/words.ts:65-76 | deleting a row the author does not have leaves the table as it was |
| WordsDb.DeleteKeepsValid | src/db/index.ts:48-50 | a row no link references can be deleted without breaking a key or a reference |
| WordsDb.DeleteWord | src/db/words.ts:65-76 | fails on the foreign key, changing nothing, exactly when the owned row is still linked; otherwise removes only the owned row and returns it, or none |
| TagsDb.GetTag | src/db/tags.ts:16-26 | a row only when both id and author match, and none exactly when no row matches both |
| TagsDb.GetTagFindsTheRow | src/db/tags.ts:16-26 | with `id` the primary key, a tag is found by its id and author |
| TagsDb.GetAllTags | src/db/tags.ts:27-37 | exactly the author's tags, each once |
| TagsDb.CreateTag | src/db/tags.ts:4-15 | fails exactly when the name is in use by any author (unique violation) or the author is no user (foreign-key violation), using up a serial; otherwise appends the new row |
| TagsDb.RenameKeepsValid | src/db/index.ts:35-41 | renaming a row to a name no other row has keeps every key and reference |
| TagsDb.EditTag | src/db/tags.ts:38-50 | with an owned row and a free name, changes only its name and `updated_at`; a name another row has is a unique violation; with no owned row, returns none; the failing cases change nothing |
| TagsDb.WithoutTag | src/db/tags.ts:51-62 | keeps exactly the rows not matching both id and author |
| TagsDb.WithoutMissingTag | src/db/tags.ts:51-62 | deleting a row the author does not have leaves the table as it was |
| TagsDb.DeleteKeepsValid | src/db/index.ts:48-50 | a tag no link references can be deleted without breaking a key or a reference |
| TagsDb.DeleteTag | src/db/tags.ts:51-62 | fails on the foreign key, changing nothing, exactly when the owned row is still linked; otherwise removes only the owned row and returns it, or none |
| WordRoutes.Create | src/routes/words.ts:17-45 | spelling, then meaning, are required (400, nothing changes); otherwise inserts the word and its links and answers 201 with the row and no tags; an unknown author or a failed link insert is a 500 after those writes |
| WordRoutes.CreateLinksTheTags | src/routes/words.ts:18-44 | a created word is linked to exactly the tags of the request, none when `tags` is absent |
| WordRoutes.CreateCrashKeepsTheWord | src/routes/words.ts:34-40 | when the link inserts fail, the word row stays although the reply is 500 |
| WordRoutes.Get | src/routes/words.ts:51-71 | 404 `Cannot find the word.` unless the caller owns the id; then 200 with the word and its tag ids; 200 exactly when an owned row exists |
| WordRoutes.Annotated | src/routes/words.ts:81-84 | the listed word carries exactly the tag ids linked to it |
| WordRoutes.AnnotateAll | src/routes/words.ts:80-86 | annotates each row in order, keeping the rows |
| WordRoutes.GetAll | src/routes/words.ts:77-90 | 200 with the caller's words, newest first, each with its tag ids |
| WordRoutes.Edit | src/routes/words.ts:103-151 | id, spelling, meaning are required in that order; otherwise the word's links are replaced first; missing `tags` or a failed insert is a 500 after that; no owned row is a 404 with the links replaced; otherwise 200 with the edited word and its new tags |
| WordRoutes.EditReplacesTheTags | src/routes/words.ts:122-127 | once editing gets past the inserts, the word is linked to exactly the requested tags, whoever owns it |
| WordRoutes.ForeignEditRelinks | src/routes/words.ts:122-146 | a 404 edit with a non-empty tag list was aimed at another user's existing word, whose links it replaced while its row stayed |
| WordRoutes.Review | src/routes/words.ts:162-195 | id, then a truthy level, are required (400); without an owned row, 404 `Cannot find that word.`; otherwise only level and `reviewed_at` change and the reply is 200 with the row |
| WordRoutes.Delete | src/routes/words.ts:205-236 | id is required; otherwise the word's links go first; no owned row gives 404 with the links gone; otherwise the row is deleted and the reply is 204 |
| WordRoutes.DeleteRemovesTheWord | src/routes/words.ts:220-221 | after a delete no row has the id and no link references it |
| WordRoutes.DeleteAgainIsNotFound | src/routes/words.ts:220-232 | deleting the same word again answers 404, not 500 |
| WordRoutes.OnlyTheOwnerSucceeds | src/db/words.ts:39-76 | a caller owning no word with the id never gets a success from edit, review or delete |
| TagRoutes.Create | src/routes/tags.ts:15-56 | name is required (400, nothing changes); a name in use answers 400 with the name-taken message; any other database error answers 500 with its own message; otherwise 201 with the new row |
| TagRoutes.NamesAreGlobal | src/tags/db.ts:14 | a name any user's tag has is refused to every caller |
| TagRoutes.CreatedTagIsFound | src/routes/tags.ts:30-34 | a created tag is read back by its author under its new id |
| TagRoutes.Get | src/routes/tags.ts:62-79 | 404 `Cannot find the tag.` unless the caller owns the id; 200 with the row exactly when an owned row exists |
| TagRoutes.GetAll | src/routes/tags.ts:85-90 | 200 with exactly the caller's tags, each once |
| TagRoutes.Edit | src/routes/tags.ts:101-138 | id, then name, are required (400); no owned row is a 404; a name in use elsewhere throws (500); otherwise 200 with the renamed row; only a success changes the tables |
| TagRoutes.RenamedTagIsFound | src/routes/tags.ts:118-136 | after a rename the caller reads the tag back under its new name |
| TagRoutes.Delete | src/routes/tags.ts:148-179 | id is required; otherwise the tag's links go first; no owned row gives 404 `Cannot find that tag.` with the links gone; otherwise the row is deleted, 204 |
| TagRoutes.DeleteRemovesTheTag | src/routes/tags.ts:163-164 | after a delete no row has the id and no link references it |
| TagRoutes.DeleteAgainIsNotFound | src/routes/tags.ts:163-175 | deleting the same tag again answers 404, not 500 |
| TagRoutes.OnlyTheOwnerSucceeds | src/db/tags.ts:38-62 | a caller owning no tag with the id never gets a success from edit or delete |
| LegacyWordsDb.GetWord | src/words/db.ts:34-44 | a row with that id whoever wrote it, none exactly when no row has the id |
| LegacyWordsDb.GetWordFindsAnyRow | src/words/db.ts:34-44 | the older lookup returns any word to any caller, where the ownership-filtered one returns it only to its author |
| LegacyWordsDb.EditActsAsTheAuthor | src/words/db.ts:54-66 | the older edit of a word is the ownership-filtered edit performed as its author |
| LegacyWordsDb.EditWord | src/words/db.ts:54-66 | changes only spelling, meaning and `updated_at` of the row with the id, and returns it; none and no change when there is no such row |
| LegacyWordsDb.ReviewWord | src/words/db.ts:67-79 | changes only level and `reviewed_at` of the row with the id, and returns it; none and no change when there is no such row |
| LegacyWordRoutes.Create | src/words/routes.ts:16-37 | spelling, then meaning, are required with their own messages (400, nothing changes); otherwise 201 with the inserted row; an unknown author is a 500 |
| LegacyWordRoutes.Get | src/words/routes.ts:43-60 | 200 with the row whenever the id exists, whoever wrote it; otherwise 404 |
| LegacyWordRoutes.GetAll | src/words/routes.ts:66-71 | 200 with every row of every author |
| LegacyWordRoutes.Edit | src/words/routes.ts:83-123 | id, spelling, meaning are required in that order (400); no row with the id is a 404; otherwise 200 with the edited row |
| LegacyWordRoutes.Review | src/words/routes.ts:134-167 | id, then a truthy level, are required (400); no row with the id is a 404 `Cannot find the word.`; otherwise 200 with the reviewed row |
| LegacyWordRoutes.OlderVariantIgnoresOwnership | src/words/routes.ts:83-167 | on someone else's word the older handlers edit and review it as its author would, where the ownership-filtered review answers 404 |

## Left out

- **Networking and wiring are left out.** The Koa server, the router and the pg pools are not
  modelled, nor the `CREATE TABLE` statements beyond the constraints they declare. All pools
  reach the same database, which is one `Schema.Database`.
- **Handlers return their replies.** The word, tag and auth handlers return the status and body
  they assign to `ctx` instead of writing them, and the auth handlers also return their cookie
  action. Only the middleware writes a context object.
- **Tokens are parameters.** JWT signing and verification are a function `sign` and a partial
  function `verify` given as parameters. Token expiry is whatever `verify` says.
- **Codes are parameters.** Code generation is a parameter, the generated string. Nothing is
  assumed about its randomness.
- **Cookie attributes are not modelled.** SameSite, Secure and domain are absent; the cookie is
  set, cleared or untouched.
- **Email sending is not modelled.** src/auth/email.ts is external I/O, and it sends every code
  to one fixed address whoever signs up.
- **Timers are reduced to `Expire`.** `setInterval` fires again and again and is never
  cancelled; one firing is `AuthRoutes.Expire`, and the model has no notion of time passing.
- **Concurrency is sequential.** `Promise.all` in `createWtRelationships` and in get-all runs
  its steps one after another. The inserts are independent, so the links left are the same in
  any order; the error reported is the first in list order.
  - The un-awaited `deleteCode` calls after a successful signup, signin or delete are performed
    before the handler returns.
  - Interleaving of concurrent requests is not modelled.
- **Timestamps are a logical clock.** `CURRENT_TIMESTAMP` is a counter that advances on every
  statement that stamps a row. `ORDER BY created_at DESC` is proved over it, and wall-clock time
  is not modelled.
- **Unordered queries keep storage order.** A `SELECT` with no `ORDER BY` returns rows in
  storage order; PostgreSQL promises no order.
- **Request ids are numbers.** Ids are modelled as optional integers, and route parameters
  (`ctx.params.id`) as integers. A string id such as `"0"` would be truthy in the source; a
  non-numeric one would make PostgreSQL raise an error.
- **The link-removal functions are assumed.**
  - LinksDb.RemoveAllByWord: `removeAllWtRelationshipsByWord` is called but never defined under
    src/. It is modelled as deleting every link of the word, as the comment beside its call
    says.
  - LinksDb.RemoveAllByTag: the same holds for `removeAllWtRelationshipsByTag`.
- **Database errors are only constraint violations.** Connection failures and other errors are
  not modelled.
- **Integers are unbounded.** `SERIAL` and `INTEGER` columns are 32-bit in PostgreSQL. An id,
  author or level outside that range makes the statement fail with `22003` (numeric value out of
  range), which the handlers do not catch. For example, reviewing an owned word with level
  `2147483648` answers 500 (src/routes/words.ts:178). The model's integers are unbounded, so
  `WordRoutes.Review` answers 200 and stores that level. The same holds for the other handlers
  that pass a number to a statement.
- **An explicit `roles: undefined` is not modelled.** `AuthMiddleware.AllowedRoles` treats absent
  roles as the defaults. In the source, `Object.assign` would copy an explicit `undefined` over the
  defaults, and `roles.includes` would then throw, answering 500 once a valid token arrives. No
  caller passes options.
- **The older variant has no delete and no insert of its own.** src/words/routes.ts has no delete
  handler, so none is modelled. Its word insert (src/words/db.ts:22-33, level defaulting to 0 at line 16) is
  the same statement as the current one, so it is `WordsDb.CreateWord`.
- **Legacy tag statements reuse `TagsDb`.** The tag statements of src/tags/db.ts are the same
  SQL as src/db/tags.ts (createTag 19-30, getTag 31-41, getAllTags 42-52, editTag 53-65, deleteTag
  66-77), so `TagsDb` models both.
