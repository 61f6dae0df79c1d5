/**
 * The seven handlers of APP/routers/post.py as pure operations. Each takes the
 * database, the id of the authenticated caller and the request inputs. A read
 * returns its rows; a write returns its response together with the new
 * database. A failure carries no database: the request's transaction is not
 * committed, so the caller keeps the database it had.
 */
module PostRouter {
  import opened Wrappers
  import opened Models
  import opened Schemas
  import opened PostQuery

  /** 404, 403, and a constraint or argument error raised by the database (500). */
  datatype Error = NotFound | Forbidden | Database(cause: DbError)

  /** Query parameter defaults of `GET /posts/`. */
  const DefaultLimit := 100
  const DefaultSkip := 0
  const DefaultSearch := ""

  /** `GET /posts/`: the title search, paginated; an empty page is not an error. */
  function GetPosts(db: Db, caller: int, limit: int, skip: int, search: string): (r: Result<seq<PostVote>, Error>)
    requires Valid(db)
    ensures r.Err? <==> skip < 0 || limit < 0
    ensures skip < 0 ==> r == Err(Database(NegativeOffset))
    ensures skip >= 0 && limit < 0 ==> r == Err(Database(NegativeLimit))
    ensures r.Ok? ==> |r.value| <= limit
    ensures r.Ok? ==> forall i | 0 <= i < |r.value| :: Reports(db, TitleContains(search), r.value[i])
    ensures r.Ok? ==>
      var all := Execute(db, TitleContains(search));
      && (|r.value| == limit || skip + |r.value| >= |all|)
      && forall i | 0 <= i < |r.value| :: skip + i < |all| && r.value[i] == all[skip + i]
  {
    if skip < 0 then Err(Database(NegativeOffset))
    else if limit < 0 then Err(Database(NegativeLimit))
    else Ok(Paginate(Execute(db, TitleContains(search)), limit, skip))
  }

  /** A listing scoped to one owner: `NotFound` when it has no rows. */
  function ScopedListing(db: Db, ownerId: int): (r: Result<seq<PostVote>, Error>)
    requires Valid(db)
    ensures r.Err? <==> OwnedPosts(db.posts, ownerId) == {}
    ensures r.Err? ==> r.error == NotFound
    ensures r.Ok? ==> |r.value| == |OwnedPosts(db.posts, ownerId)|
    ensures r.Ok? ==> forall i | 0 <= i < |r.value| :: Reports(db, OwnerIs(ownerId), r.value[i])
    ensures r.Ok? ==> forall k | k in OwnedPosts(db.posts, ownerId) :: Listed(r.value, k)
  {
    assert forall k :: k in MatchingIds(db, OwnerIs(ownerId)) <==> k in OwnedPosts(db.posts, ownerId);
    assert MatchingIds(db, OwnerIs(ownerId)) == OwnedPosts(db.posts, ownerId);
    var rows := Execute(db, OwnerIs(ownerId));
    if |rows| == 0 then Err(NotFound) else Ok(rows)
  }

  /** `GET /posts/my`: the caller's own posts. */
  function GetMyPosts(db: Db, caller: int): (r: Result<seq<PostVote>, Error>)
    requires Valid(db)
    ensures r.Err? <==> OwnedPosts(db.posts, caller) == {}
    ensures r.Err? ==> r.error == NotFound
    ensures r.Ok? ==> forall i | 0 <= i < |r.value| ::
      r.value[i].post.id in db.posts && db.posts[r.value[i].post.id].ownerId == caller
      && r.value[i].votes == VoteCount(db.votes, r.value[i].post.id)
    ensures r.Ok? ==> forall k | k in OwnedPosts(db.posts, caller) :: Listed(r.value, k)
    ensures r.Ok? ==> |r.value| == |OwnedPosts(db.posts, caller)|
    ensures r.Ok? ==> forall i | 0 <= i < |r.value| :: Reports(db, OwnerIs(caller), r.value[i])
  {
    ScopedListing(db, caller)
  }

  /** `GET /posts/friends/{id}`: the posts of user `id`, whoever asks. */
  function GetFriendsPosts(db: Db, caller: int, id: int): (r: Result<seq<PostVote>, Error>)
    requires Valid(db)
    ensures r.Err? <==> OwnedPosts(db.posts, id) == {}
    ensures r.Err? ==> r.error == NotFound
    ensures r.Ok? ==> forall i | 0 <= i < |r.value| ::
      r.value[i].post.id in db.posts && db.posts[r.value[i].post.id].ownerId == id
      && r.value[i].votes == VoteCount(db.votes, r.value[i].post.id)
    ensures r.Ok? ==> forall k | k in OwnedPosts(db.posts, id) :: Listed(r.value, k)
    ensures r.Ok? ==> |r.value| == |OwnedPosts(db.posts, id)|
    ensures r.Ok? ==> forall i | 0 <= i < |r.value| :: Reports(db, OwnerIs(id), r.value[i])
  {
    ScopedListing(db, id)
  }

  /** `GET /posts/{id}`: the first row of the id query, or `NotFound`. */
  function GetPost(db: Db, caller: int, id: int): (r: Result<PostVote, Error>)
    requires Valid(db)
    ensures r.Ok? <==> id in db.posts
    ensures r.Err? ==> r.error == NotFound
    ensures r.Ok? ==> r.value.post == FromPost(db, db.posts[id]) && r.value.votes == VoteCount(db.votes, id)
  {
    assert id in db.posts ==> id in MatchingIds(db, IdIs(id));
    var rows := Execute(db, IdIs(id));
    if |rows| == 0 then Err(NotFound) else Ok(rows[0])
  }

  /**
   * `POST /posts/`: insert the body as a post owned by the caller. The database
   * chooses `newId` and `now`; a used id or a caller that is not a user is a
   * constraint violation.
   */
  function CreatePost(db: Db, caller: int, body: PostBase, newId: int, now: Timestamp): (r: Result<(PostResponse, Db), Error>)
    requires Valid(db)
    ensures r.Err? <==> newId in db.posts || caller !in db.users
    ensures r.Err? ==> r.error.Database?
    ensures r.Ok? ==>
      var after := r.value.1;
      && newId !in db.posts
      && after.posts.Keys == db.posts.Keys + {newId}
      && (forall k | k in db.posts :: after.posts[k] == db.posts[k])
      && after.users == db.users && after.votes == db.votes
      && after.posts[newId].id == newId && after.posts[newId].ownerId == caller
      && after.posts[newId].title == body.title && after.posts[newId].content == body.content
      && after.posts[newId].published == body.published && after.posts[newId].createdAt == now
    ensures r.Ok? ==>
      var resp := r.value.0;
      resp.id == newId && resp.owner.id == caller && resp.Base() == body && resp.createdAt == now
    ensures r.Ok? ==> r.value.0.owner == UserOut(caller, db.users[caller].email)
  {
    match InsertPost(db, newId, caller, body.title, body.content, Some(body.published), now)
    case Err(e) => Err(Database(e))
    case Ok(after) =>
      InsertPostPreservesValid(db, newId, caller, body.title, body.content, Some(body.published), now);
      Ok((FromPost(after, after.posts[newId]), after))
  }

  /**
   * `DELETE /posts/{id}`: a missing post is `NotFound` before ownership is looked
   * at; a post of someone else is `Forbidden`; the owner's delete removes the
   * post and, by cascade, its votes.
   */
  function DeletePost(db: Db, caller: int, id: int): (r: Result<Db, Error>)
    ensures r == Err(NotFound) <==> id !in db.posts
    ensures r == Err(Forbidden) <==> id in db.posts && db.posts[id].ownerId != caller
    ensures r.Ok? <==> id in db.posts && db.posts[id].ownerId == caller
    ensures r.Ok? ==> r.value.posts.Keys == db.posts.Keys - {id}
    ensures r.Ok? ==> forall k | k in r.value.posts :: r.value.posts[k] == db.posts[k]
    ensures r.Ok? ==> forall v :: v in r.value.votes <==> v in db.votes && v.postId != id
    ensures r.Ok? ==> r.value.users == db.users
  {
    if id !in db.posts then Err(NotFound)
    else if db.posts[id].ownerId != caller then Err(Forbidden)
    else Ok(DeletePostRow(db, id))
  }

  /**
   * `PUT /posts/{id}`: the same checks as delete, then title, content and
   * published are overwritten from the body and the re-read post is returned.
   */
  function UpdatePost(db: Db, caller: int, id: int, body: PostBase): (r: Result<(PostResponse, Db), Error>)
    requires Valid(db)
    ensures r == Err(NotFound) <==> id !in db.posts
    ensures r == Err(Forbidden) <==> id in db.posts && db.posts[id].ownerId != caller
    ensures r.Ok? <==> id in db.posts && db.posts[id].ownerId == caller
    ensures r.Ok? ==>
      var after := r.value.1;
      && after.posts.Keys == db.posts.Keys
      && (forall k | k in db.posts && k != id :: after.posts[k] == db.posts[k])
      && after.users == db.users && after.votes == db.votes
      && after.posts[id].title == body.title && after.posts[id].content == body.content
      && after.posts[id].published == body.published
      && after.posts[id].id == id && after.posts[id].ownerId == caller
      && after.posts[id].createdAt == db.posts[id].createdAt
    ensures r.Ok? ==>
      var resp := r.value.0;
      resp.id == id && resp.owner.id == caller && resp.Base() == body && resp.createdAt == db.posts[id].createdAt
    ensures r.Ok? ==> r.value.0.owner == UserOut(caller, db.users[caller].email)
  {
    if id !in db.posts then Err(NotFound)
    else if db.posts[id].ownerId != caller then Err(Forbidden)
    else
      var after := UpdatePostRow(db, id, body.title, body.content, body.published);
      UpdatePostRowPreservesValid(db, id, body.title, body.content, body.published);
      Ok((FromPost(after, after.posts[id]), after))
  }

  // ---------------------------------------------------------------------------
  // Properties relating several calls.

  /** Every post, published or not and whoever owns it, is in the listing with the default search. */
  lemma DefaultSearchListsEveryPost(db: Db, k: int)
    requires Valid(db) && k in db.posts
    ensures Listed(Execute(db, TitleContains(DefaultSearch)), k)
  {
  }

  /** A search only narrows the listing: each post it finds is also found with the default search. */
  lemma SearchNarrowsListing(db: Db, search: string)
    requires Valid(db)
    ensures var found := Execute(db, TitleContains(search));
      forall i | 0 <= i < |found| :: Listed(Execute(db, TitleContains(DefaultSearch)), found[i].post.id)
  {
  }

  /** A search no title contains yields an empty page, not `NotFound`. */
  lemma NoMatchIsEmptyPage(db: Db, caller: int, limit: nat, skip: nat, search: string)
    requires Valid(db)
    requires forall k | k in db.posts :: !Contains(db.posts[k].title, search)
    ensures GetPosts(db, caller, limit, skip, search) == Ok([])
  {
  }

  /** A page at least as large as the table, from offset 0, holds every matching post. */
  lemma FullPageListsEveryMatch(db: Db, caller: int, limit: int, search: string)
    requires Valid(db) && limit >= |db.posts|
    ensures GetPosts(db, caller, limit, 0, search).Ok?
    ensures forall k | k in db.posts && Contains(db.posts[k].title, search) ::
      Listed(GetPosts(db, caller, limit, 0, search).value, k)
  {
    var all := Execute(db, TitleContains(search));
    var page := GetPosts(db, caller, limit, 0, search).value;
    SubsetCard(MatchingIds(db, TitleContains(search)), db.posts.Keys);
    assert |page| == |all|;
    assert page == all;
    forall k | k in db.posts && Contains(db.posts[k].title, search)
      ensures Listed(page, k)
    {
      assert k in MatchingIds(db, TitleContains(search));
    }
  }

  /** `GET /posts/` with its default parameters returns the first 100 rows of the whole listing. */
  lemma DefaultListingIsFirstPage(db: Db, caller: int)
    requires Valid(db)
    ensures GetPosts(db, caller, DefaultLimit, DefaultSkip, DefaultSearch).Ok?
    ensures var page := GetPosts(db, caller, DefaultLimit, DefaultSkip, DefaultSearch).value;
      var all := Execute(db, TitleContains(DefaultSearch));
      page == all[..if |all| < DefaultLimit then |all| else DefaultLimit]
  {
  }

  /** A post just created is found by id with the caller as owner and no votes. */
  lemma CreateThenGetPost(db: Db, caller: int, body: PostBase, newId: int, now: Timestamp, reader: int)
    requires Valid(db)
    requires CreatePost(db, caller, body, newId, now).Ok?
    ensures var (resp, after) := CreatePost(db, caller, body, newId, now).value;
      Valid(after) && GetPost(after, reader, newId) == Ok(PostVote(resp, 0))
  {
  }

  /** One more vote on a post raises the count `GET /posts/{id}` reports by exactly one. */
  lemma VoteThenGetPost(db: Db, voter: int, id: int, reader: int)
    requires Valid(db)
    requires InsertVote(db, Vote(voter, id)).Ok?
    ensures var after := InsertVote(db, Vote(voter, id)).value;
      Valid(after)
      && GetPost(after, reader, id).Ok? && GetPost(db, reader, id).Ok?
      && GetPost(after, reader, id).value.votes == GetPost(db, reader, id).value.votes + 1
  {
    InsertVotePreservesValid(db, Vote(voter, id));
    InsertVoteCounts(db, Vote(voter, id), id);
  }

  /** After the owner deletes a post it is gone, no vote counts it, and other posts keep their counts. */
  lemma DeleteThenGetPost(db: Db, caller: int, id: int, other: int, reader: int)
    requires Valid(db)
    requires DeletePost(db, caller, id).Ok?
    ensures var after := DeletePost(db, caller, id).value;
      && Valid(after)
      && GetPost(after, reader, id) == Err(NotFound)
      && VoteCount(after.votes, id) == 0
      && (other != id && other in db.posts ==>
            GetPost(after, reader, other).Ok? && GetPost(after, reader, other).value.votes == VoteCount(db.votes, other))
  {
    DeletePostRowPreservesValid(db, id);
    DeletePostRowCounts(db, id, id);
    DeletePostRowCounts(db, id, other);
  }

  /** Updating with a body that omits `published` publishes the post, whatever it was before. */
  lemma UpdateWithoutPublishedPublishes(db: Db, caller: int, id: int, title: string, content: string)
    requires Valid(db)
    requires id in db.posts && db.posts[id].ownerId == caller
    ensures var body := ParsePostBase(PostBody(Some(title), Some(content), None));
      body.Ok? && UpdatePost(db, caller, id, body.value).Ok?
      && UpdatePost(db, caller, id, body.value).value.1.posts[id].published
  {
  }

  lemma CreatePostPreservesValid(db: Db, caller: int, body: PostBase, newId: int, now: Timestamp)
    requires Valid(db) && CreatePost(db, caller, body, newId, now).Ok?
    ensures Valid(CreatePost(db, caller, body, newId, now).value.1)
  {
  }

  lemma UpdatePostPreservesValid(db: Db, caller: int, id: int, body: PostBase)
    requires Valid(db) && UpdatePost(db, caller, id, body).Ok?
    ensures Valid(UpdatePost(db, caller, id, body).value.1)
  {
  }

  lemma DeletePostPreservesValid(db: Db, caller: int, id: int)
    requires Valid(db) && DeletePost(db, caller, id).Ok?
    ensures Valid(DeletePost(db, caller, id).value)
  {
  }

  // ---------------------------------------------------------------------------
  // The status code of a delete.

  /** The status FastAPI sends for a raised error. */
  function ErrorStatus(e: Error): int {
    match e
    case NotFound => 404
    case Forbidden => 403
    case Database(_) => 500
  }

  /** The status `delete_post` sends as written: its success path builds a 404 response. */
  function DeleteStatusAsWritten(r: Result<Db, Error>): (code: int)
    ensures code == 404 <==> r.Ok? || r == Err(NotFound)
    ensures code == 403 <==> r == Err(Forbidden)
  {
    match r
    case Ok(_) => 404
    case Err(e) => ErrorStatus(e)
  }

  /** As written, a successful delete and a delete of a missing post get the same status. */
  lemma DeleteSuccessLooksMissing()
    ensures var db := Db(map[1 := User(1, "a@example.com", "pw", Timestamp(0), None)],
                         map[1 := Post(1, "t", "c", true, Timestamp(0), 1)], {});
      && DeletePost(db, 1, 1).Ok?
      && DeletePost(db, 1, 2) == Err(NotFound)
      && DeleteStatusAsWritten(DeletePost(db, 1, 1)) == DeleteStatusAsWritten(DeletePost(db, 1, 2))
  {
  }

  /** As written, status 404 answers both the owner's successful delete and a delete of a missing post. */
  lemma DeleteStatusAsWrittenConflates(db: Db, caller: int, id: int)
    ensures DeleteStatusAsWritten(DeletePost(db, caller, id)) == 404 <==>
      id !in db.posts || db.posts[id].ownerId == caller
  {
  }

  /** The status the route declares: 204 No Content on success. */
  function DeleteStatus(r: Result<Db, Error>): (code: int)
    ensures code == 204 <==> r.Ok?
    ensures r.Err? ==> code == ErrorStatus(r.error)
  {
    match r
    case Ok(_) => 204
    case Err(e) => ErrorStatus(e)
  }

  /** With the declared status, a client can tell every outcome of a delete apart. */
  lemma DeleteStatusSeparatesOutcomes(db: Db, caller: int, id: int)
    ensures DeleteStatus(DeletePost(db, caller, id)) == 204 <==> id in db.posts && db.posts[id].ownerId == caller
    ensures DeleteStatus(DeletePost(db, caller, id)) == 404 <==> id !in db.posts
    ensures DeleteStatus(DeletePost(db, caller, id)) == 403 <==> id in db.posts && db.posts[id].ownerId != caller
  {
  }
}
