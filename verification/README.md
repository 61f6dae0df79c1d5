# Posts component of a FastAPI blog backend, modelled in Dafny

The backend stores users, posts and votes in three relational tables and
serves them under `/posts`. This project models the post router
(`APP/routers/post.py`), the tables it reads and writes (`APP/models.py`) and
the request and response shapes it validates (`APP/schemas.py`).

- **Database** (`models.dfy`, module `Models`): one immutable value `Db` with
  `users` and `posts` maps keyed by primary key and `votes` as a set of
  `(user_id, post_id)` pairs. The composite primary key makes a vote its own
  key. `Valid` collects the declared constraints: each row is stored under its
  own key, owners exist, votes reference existing rows, and emails are unique.
  Each row-level change is a function: inserts that report unique and
  foreign-key violations, the post update, and the two deletes with their
  `ON DELETE CASCADE` rules written out.
- **Schemas** (`schemas.dfy`, module `Schemas`): `PostBase` with its required
  fields and the `published = True` default, `PostResponse` (which inherits
  `PostBase`), the owner shape `User` (id and email), the `PostVote` listing
  row, and the `Vote` payload with its `dir <= 1` bound.
- **Listing query** (`post_query.dfy`, module `PostQuery`): the
  `Posts LEFT OUTER JOIN Votes ... GROUP BY Posts.id` query with
  `count(Votes.post_id)`, built clause by clause. `Execute` is proved to return
  exactly one row per selected post, carrying the number of votes on that post
  (0 when there are none). `Paginate` is `OFFSET`/`LIMIT`.
- **Handlers** (`post_router.dfy`, module `PostRouter`): the seven routes as
  pure functions of the database, the caller's user id and the request
  inputs. Reads return rows. Writes return their response together with the
  new database. An error (`NotFound`, `Forbidden`, or a database error) carries
  no database, because the failed request never commits.
- `wrappers.dfy` (Option, Result) and `id_order.dfy` (least element, ascending
  order of a set of ids) are helpers.

The query has no `ORDER BY`. The model returns rows in ascending post id.
That is a choice made for the model; the source does not guarantee any order.

Two behaviours of the code that are easy to misread, and that the model keeps:
- a successful delete answers 404 although the route declares 204 (see Findings);
- `PUT` returns a `PostResponse` without a vote count, not a listing row.

## Model

| member | source | states |
|---|---|---|
| Models.InsertUser | APP/models.py:34-41 | a used id or an email another user already has is a unique violation; otherwise exactly the new user row, with every given column, is added and posts and votes are untouched |
| Models.InsertPost | APP/models.py:20-28 | a used id is a unique violation, an owner that is not a user is a foreign-key violation, and the insert succeeds exactly when neither applies; then exactly one post is added with the given owner and fields, an omitted `published` becomes true, and every other row is untouched |
| Models.UpdatePostRow | APP/routers/post.py:90 | title, content and published take the new values; id, owner, creation time, every other post, users and votes stay as they were |
| Models.DeletePostRow | APP/models.py:16 | exactly the one post disappears, a vote survives exactly when it references another post, users are untouched |
| Models.DeleteUserRow | APP/models.py:15-28 | the user disappears, a post survives exactly when someone else owns it, a vote survives exactly when it is not the user's and not on one of the user's posts |
| Models.InsertVote | APP/models.py:12-16 | a second vote with the same (user, post) key is a unique violation, a dangling user or post is a foreign-key violation, and the insert succeeds exactly when neither applies; then the vote set grows by exactly that vote |
| Models.AtMostOneVotePerKey | APP/models.py:15-16 | the table holds at most one vote per user and post |
| Models.InsertVoteCounts | APP/models.py:12-16 | an accepted vote raises its post's count by one and leaves every other post's count alone |
| Models.DeletePostRowCounts | APP/models.py:16 | after a post is deleted no vote counts for it, and every other post keeps its count |
| Models.EmptyIsValid | APP/models.py:12-41 | the database with no rows satisfies every declared constraint |
| Models.InsertUserPreservesValid | APP/models.py:38 | inserting a user keeps emails unique and every other constraint |
| Models.InsertPostPreservesValid | APP/models.py:28 | inserting a post keeps every owner an existing user and every other constraint |
| Models.UpdatePostRowPreservesValid | APP/models.py:20-28 | updating a post keeps every constraint |
| Models.DeletePostRowPreservesValid | APP/models.py:16 | the cascade leaves no vote pointing at the deleted post |
| Models.DeleteUserRowPreservesValid | APP/models.py:15-28 | the two-level cascade leaves no post owned by, and no vote cast by, the deleted user, and every constraint still holds |
| Models.InsertVotePreservesValid | APP/models.py:15-16 | inserting a vote keeps every constraint |
| Schemas.ParsePostBase | APP/schemas.py:34-37 | a body is accepted exactly when it has title and content, the missing fields are named otherwise, and `published` is the sent value or true when omitted |
| Schemas.ParseAsBody | APP/schemas.py:34-37 | a body that spells out every field validates back to the same `PostBase` |
| Schemas.OmittedPublishedIsTrue | APP/schemas.py:37 | omitting `published` is the same as sending true |
| Schemas.FromPost | APP/schemas.py:41-47 | a response carries the post's `PostBase` fields, its id and creation time, and the owner as id and email |
| Schemas.ParseVote | APP/schemas.py:70-72 | a vote payload is accepted exactly when `dir <= 1`, so 0 and negative values pass |
| Schemas.ParseVoteRoundTrip | APP/schemas.py:70-72 | every payload within the bound, whatever its sign, validates back to itself |
| PostQuery.ContainsIffOccurs | APP/routers/post.py:17 | the title search holds exactly when the search string occurs at some position of the title |
| PostQuery.EmptySearchMatches | APP/routers/post.py:16 | the default empty search is contained in every title |
| PostQuery.JoinRowOrigin | APP/routers/post.py:17 | every join row holds a stored post and, when not NULL, a vote that references that post |
| PostQuery.OuterJoinKeepsEveryPost | APP/routers/post.py:17 | the outer join keeps every post, including one with no votes |
| PostQuery.GroupKeysOfSelect | APP/routers/post.py:17 | after the WHERE clause the groups are exactly the posts the condition selects |
| PostQuery.CountOfSelect | APP/routers/post.py:17 | `count(Votes.post_id)` of a post's group equals the number of votes whose post_id is that post |
| PostQuery.GroupByPost | APP/routers/post.py:17 | one row per group, ids strictly ascending, each row reporting the stored post and its group's count |
| PostQuery.Execute | APP/routers/post.py:17 | the query yields one row for each post the condition selects and no other, in ascending id, each with its number of votes |
| PostQuery.Paginate | APP/routers/post.py:17 | the page is the contiguous run of rows starting at `skip`, at most `limit` long, and it is cut short only at the end of the rows |
| PostRouter.GetPosts | APP/routers/post.py:15-19 | fails only for a negative offset or limit; otherwise at most `limit` rows, each a post whose title contains `search` with its vote count, forming the slice at `skip` of the full listing |
| PostRouter.ScopedListing | APP/routers/post.py:24-37 | an owner-scoped listing is `NotFound` exactly when the owner has no posts, and otherwise lists each of their posts once with its vote count |
| PostRouter.GetMyPosts | APP/routers/post.py:22-29 | one row for each of the caller's posts and no other, reporting the stored post and its vote count; `NotFound` exactly when the caller owns none |
| PostRouter.GetFriendsPosts | APP/routers/post.py:32-39 | one row for each post of user `id` and no other, reporting the stored post and its vote count; `NotFound` exactly when that user owns none |
| PostRouter.GetPost | APP/routers/post.py:42-49 | succeeds exactly when the id exists, with that post and its vote count; `NotFound` otherwise |
| PostRouter.CreatePost | APP/routers/post.py:52-59 | adds exactly one post with the fresh id, the caller as owner and the body's fields; users, votes and other posts unchanged; the response reports the new post with the caller's id and email as owner |
| PostRouter.DeletePost | APP/routers/post.py:62-76 | `NotFound` exactly when the id is missing, `Forbidden` exactly when someone else owns it; otherwise exactly that post and its votes are removed |
| PostRouter.UpdatePost | APP/routers/post.py:79-93 | the same `NotFound`-then-`Forbidden` checks; on success title, content and published come from the body, id, owner and creation time stay, nothing else changes, and the response is the updated post with the caller's id and email as owner |
| PostRouter.DefaultSearchListsEveryPost | APP/routers/post.py:16-17 | with the default search every post is listed, published or not and whoever owns it |
| PostRouter.SearchNarrowsListing | APP/routers/post.py:17 | every post a search finds is also found with the empty search |
| PostRouter.DefaultListingIsFirstPage | APP/routers/post.py:16-19 | with the default parameters (limit 100, skip 0, empty search) the page is the first 100 rows of the whole listing, or all of it when shorter |
| PostRouter.NoMatchIsEmptyPage | APP/routers/post.py:16-19 | a search that matches nothing gives an empty page, not `NotFound` |
| PostRouter.FullPageListsEveryMatch | APP/routers/post.py:16-19 | from offset 0 with a limit no smaller than the table, every matching post is on the page |
| PostRouter.CreateThenGetPost | APP/routers/post.py:52-59 | a post just created is returned by `GET /posts/{id}` as created, with 0 votes |
| PostRouter.VoteThenGetPost | APP/routers/post.py:42-49 | one more accepted vote raises the count `GET /posts/{id}` reports by exactly one |
| PostRouter.DeleteThenGetPost | APP/routers/post.py:62-76 | after the owner's delete the post is `NotFound`, no vote counts for it, and other posts keep their counts |
| PostRouter.UpdateWithoutPublishedPublishes | APP/routers/post.py:90 | an update whose body omits `published` leaves the post published |
| PostRouter.CreatePostPreservesValid | APP/routers/post.py:54-56 | creating a post keeps every table constraint |
| PostRouter.UpdatePostPreservesValid | APP/routers/post.py:90-91 | updating a post keeps every table constraint |
| PostRouter.DeletePostPreservesValid | APP/routers/post.py:73-74 | deleting a post keeps every table constraint |
| PostRouter.DeleteStatusAsWritten | APP/routers/post.py:76 | as written, 404 is sent exactly when the delete succeeded or the post was missing, and 403 exactly when someone else owns it |
| PostRouter.DeleteStatusAsWrittenConflates | APP/routers/post.py:62-76 | for every database, caller and id, the as-written status is 404 exactly when the post is missing or the caller owns it, so a client cannot tell success from absence |
| PostRouter.DeleteSuccessLooksMissing | APP/routers/post.py:62-76 | as written, the owner's successful delete of post 1 and a delete of missing post 2 get the same status |
| PostRouter.DeleteStatus | APP/routers/post.py:62 | with the declared status, 204 is sent exactly on success |
| PostRouter.DeleteStatusSeparatesOutcomes | APP/routers/post.py:62-71 | with the declared status, success, missing post and someone else's post each get their own status |

## Findings

| source | as written | input that shows it | evidently intended | confidence | as-written member | corrected member |
|---|---|---|---|---|---|---|
| APP/routers/post.py:76 | the success path of `delete_post` returns `Response(status_code = 404)` | user 1 deletes their own post 1: the post is removed, yet the status is 404, the same as for deleting a post 2 that does not exist | 204 No Content, as the route declares at line 62 | high; not executed | PostRouter.DeleteStatusAsWrittenConflates | PostRouter.DeleteStatusSeparatesOutcomes |

## Left out

- Database session, `commit`, `refresh` and `get_db`: the database is a value. A failed request returns no new database, which stands for the transaction that is never committed.
- Authentication: `outh2.get_current_user` is not part of this model. The caller's user id is an input. The `Token` and `TokenData` schemas are left out, and so are `UserCreate` and `UserResponse`, which no post route uses.
- Id generation and `NOW()`: `CreatePost` takes the new id and the creation time as inputs. The database's id sequence normally supplies an unused id; a used one gives a unique violation.
- Email format: `EmailStr` validation belongs to an external library. An email is an opaque string; only its uniqueness is modelled.
- `LIKE` pattern characters: `contains` builds `title LIKE '%' || search || '%'` without escaping the search. The model uses plain substring containment instead, and the two differ in both directions. A `%` or `_` in the search is a wildcard in the source, so it can match more titles. A backslash is PostgreSQL's default LIKE escape character, so it can match fewer: the search `\` only matches titles that end in `%`, while the model finds every title containing a backslash.
- Result order: the model returns ascending post id. The source has no `ORDER BY`, so the database may return any order.
- Negative `limit` or `skip`: the model answers with a database error. This is how PostgreSQL treats a negative `LIMIT` or `OFFSET`, not something the source checks.
- Status codes and messages: only the delete status is modelled, for the finding above. Error messages are left out, including the `get_post` message that shows `current_user.id` instead of the requested `id` (APP/routers/post.py:47).
- Request parsing: JSON decoding and pydantic's type coercion are left out. Body fields arrive already typed, and `search` is never `None`.
- Integer width: the `Integer` columns are 32-bit in the database; ids here are unbounded integers.
- Votes by direction: the vote router is not part of this model. Only the `Vote` payload's bound and the `Votes` table are modelled.
- Concurrency and transaction isolation: these come from the database engine, not from this code.
