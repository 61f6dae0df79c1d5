/**
 * The three tables of the blog database (APP/models.py) as one immutable value,
 * the constraints the database enforces on them, and the row-level changes the
 * post handlers ask of it, with the `ON DELETE CASCADE` rules written out.
 */
module Models {
  import opened Wrappers

  /** A `TIMESTAMP WITH TIME ZONE`; the server's `NOW()` is supplied by the caller. */
  datatype Timestamp = Timestamp(micros: int)

  /** A row of `Users`. */
  datatype User = User(id: int, email: string, password: string, createdAt: Timestamp, phoneNumber: Option<string>)

  /** A row of `Posts`; `ownerId` is a non-null reference to `Users.id`. */
  datatype Post = Post(id: int, title: string, content: string, published: bool, createdAt: Timestamp, ownerId: int)

  /** A row of `Votes`. Both columns form the primary key, so the row is its own key. */
  datatype Vote = Vote(userId: int, postId: int)

  /** The whole database: users and posts keyed by their primary key, and the set of votes. */
  datatype Db = Db(users: map<int, User>, posts: map<int, Post>, votes: set<Vote>)

  /** The errors the database reports: constraint violations, and a negative OFFSET or LIMIT. */
  datatype DbError = UniqueViolation | ForeignKeyViolation | NegativeOffset | NegativeLimit

  /** `server_default = 'True'` on `Posts.published`. */
  const PublishedServerDefault := true

  /** The database with no rows. */
  const Empty := Db(map[], map[], {})

  /** Each row is stored under its own primary key. */
  predicate KeysMatch(db: Db) {
    && (forall id | id in db.users :: db.users[id].id == id)
    && (forall id | id in db.posts :: db.posts[id].id == id)
  }

  /** `Posts.owner_id` references an existing user. */
  predicate OwnersExist(db: Db) {
    forall id | id in db.posts :: db.posts[id].ownerId in db.users
  }

  /** Both columns of `Votes` reference existing rows. */
  predicate VotesReferenceRows(db: Db) {
    forall v | v in db.votes :: v.userId in db.users && v.postId in db.posts
  }

  /** `Users.email` is unique. */
  predicate EmailsUnique(db: Db) {
    forall a, b | a in db.users && b in db.users && a != b :: db.users[a].email != db.users[b].email
  }

  /** Every constraint the schema declares. */
  predicate Valid(db: Db) {
    KeysMatch(db) && OwnersExist(db) && VotesReferenceRows(db) && EmailsUnique(db)
  }

  /** The votes cast on a post. */
  function VotesOn(votes: set<Vote>, postId: int): set<Vote> {
    set v | v in votes && v.postId == postId
  }

  /** The vote count of a post: derived from `Votes`, never stored. */
  function VoteCount(votes: set<Vote>, postId: int): nat {
    |VotesOn(votes, postId)|
  }

  /** Some user already has this email. */
  predicate EmailTaken(users: map<int, User>, email: string) {
    exists id | id in users :: users[id].email == email
  }

  /** The ids of the posts a user owns. */
  function OwnedPosts(posts: map<int, Post>, userId: int): set<int> {
    set id | id in posts && posts[id].ownerId == userId
  }

  /** `INSERT INTO Users`; a used id or a used email violates a unique constraint. */
  function InsertUser(db: Db, id: int, email: string, password: string, phoneNumber: Option<string>, now: Timestamp): (r: Result<Db, DbError>)
    ensures r.Err? <==> id in db.users || EmailTaken(db.users, email)
    ensures r.Err? ==> r.error == UniqueViolation
    ensures r.Ok? ==> id in r.value.users && r.value.users[id].email == email && r.value.users[id].id == id
    ensures r.Ok? ==> r.value.users[id] == User(id, email, password, now, phoneNumber)
    ensures r.Ok? ==> r.value.users.Keys == db.users.Keys + {id}
    ensures r.Ok? ==> forall k | k in db.users :: r.value.users[k] == db.users[k]
    ensures r.Ok? ==> r.value.posts == db.posts && r.value.votes == db.votes
  {
    if id in db.users || EmailTaken(db.users, email) then Err(UniqueViolation)
    else Ok(db.(users := db.users[id := User(id, email, password, now, phoneNumber)]))
  }

  /**
   * `INSERT INTO Posts`. A used id violates the primary key, an owner that is
   * not a user violates the foreign key, and an omitted `published` takes the
   * server default.
   */
  function InsertPost(db: Db, id: int, ownerId: int, title: string, content: string, published: Option<bool>, now: Timestamp): (r: Result<Db, DbError>)
    ensures r == Err(UniqueViolation) <==> id in db.posts
    ensures r == Err(ForeignKeyViolation) <==> id !in db.posts && ownerId !in db.users
    ensures r.Ok? <==> id !in db.posts && ownerId in db.users
    ensures r.Ok? ==> r.value.posts.Keys == db.posts.Keys + {id} && id !in db.posts
    ensures r.Ok? ==> forall k | k in db.posts :: r.value.posts[k] == db.posts[k]
    ensures r.Ok? ==> var p := r.value.posts[id];
      && p.id == id && p.ownerId == ownerId && p.title == title && p.content == content && p.createdAt == now
      && (published.Some? ==> p.published == published.value)
      && (published.None? ==> p.published)
    ensures r.Ok? ==> r.value.users == db.users && r.value.votes == db.votes
  {
    if id in db.posts then Err(UniqueViolation)
    else if ownerId !in db.users then Err(ForeignKeyViolation)
    else
      var p := Post(id, title, content, published.GetOr(PublishedServerDefault), now, ownerId);
      Ok(db.(posts := db.posts[id := p]))
  }

  /** `UPDATE Posts SET title, content, published WHERE id = ...`; every other column stays. */
  function UpdatePostRow(db: Db, id: int, title: string, content: string, published: bool): (r: Db)
    requires id in db.posts
    ensures r.posts.Keys == db.posts.Keys
    ensures forall k | k in db.posts && k != id :: r.posts[k] == db.posts[k]
    ensures r.posts[id].title == title && r.posts[id].content == content && r.posts[id].published == published
    ensures r.posts[id].id == db.posts[id].id && r.posts[id].ownerId == db.posts[id].ownerId
    ensures r.posts[id].createdAt == db.posts[id].createdAt
    ensures r.users == db.users && r.votes == db.votes
  {
    db.(posts := db.posts[id := db.posts[id].(title := title, content := content, published := published)])
  }

  /** `DELETE FROM Posts WHERE id = ...`; the votes on the post go with it by cascade. */
  function DeletePostRow(db: Db, id: int): (r: Db)
    ensures r.posts.Keys == db.posts.Keys - {id}
    ensures forall k | k in r.posts :: r.posts[k] == db.posts[k]
    ensures forall v :: v in r.votes <==> v in db.votes && v.postId != id
    ensures r.users == db.users
  {
    Db(db.users, map k | k in db.posts && k != id :: db.posts[k], set v | v in db.votes && v.postId != id)
  }

  /**
   * `DELETE FROM Users WHERE id = ...`. The cascade removes the user's votes and
   * posts, and the removal of those posts removes every vote cast on them.
   */
  function DeleteUserRow(db: Db, userId: int): (r: Db)
    ensures r.users.Keys == db.users.Keys - {userId}
    ensures forall k | k in r.users :: r.users[k] == db.users[k]
    ensures forall k :: k in r.posts <==> k in db.posts && db.posts[k].ownerId != userId
    ensures forall k | k in r.posts :: r.posts[k] == db.posts[k]
    ensures forall v :: v in r.votes <==>
      v in db.votes && v.userId != userId && (v.postId in db.posts ==> db.posts[v.postId].ownerId != userId)
  {
    var owned := OwnedPosts(db.posts, userId);
    Db(db.users - {userId},
       map k | k in db.posts && k !in owned :: db.posts[k],
       set v | v in db.votes && v.userId != userId && v.postId !in owned)
  }

  /** `INSERT INTO Votes`; the composite primary key rejects a second vote by the same user on the same post. */
  function InsertVote(db: Db, v: Vote): (r: Result<Db, DbError>)
    ensures r == Err(UniqueViolation) <==> v in db.votes
    ensures r == Err(ForeignKeyViolation) <==> v !in db.votes && (v.userId !in db.users || v.postId !in db.posts)
    ensures r.Ok? <==> v !in db.votes && v.userId in db.users && v.postId in db.posts
    ensures r.Ok? ==> r.value.votes == db.votes + {v} && |r.value.votes| == |db.votes| + 1
    ensures r.Ok? ==> r.value.users == db.users && r.value.posts == db.posts
  {
    if v in db.votes then Err(UniqueViolation)
    else if v.userId !in db.users || v.postId !in db.posts then Err(ForeignKeyViolation)
    else Ok(db.(votes := db.votes + {v}))
  }

  /** The composite key admits at most one vote per user and post. */
  lemma AtMostOneVotePerKey(votes: set<Vote>, userId: int, postId: int)
    ensures |set v | v in votes && v.userId == userId && v.postId == postId| <= 1
  {
    var s := set v | v in votes && v.userId == userId && v.postId == postId;
    assert s <= {Vote(userId, postId)};
    assert |{Vote(userId, postId)}| == 1;
    SubsetCard(s, {Vote(userId, postId)});
  }

  lemma {:induction false} SubsetCard<T>(a: set<T>, b: set<T>)
    requires a <= b
    ensures |a| <= |b|
    decreases b
  {
    if a != {} {
      var x :| x in a;
      SubsetCard(a - {x}, b - {x});
    }
  }

  /** A vote the table accepts adds exactly one to the count of its post and leaves the others alone. */
  lemma InsertVoteCounts(db: Db, v: Vote, postId: int)
    requires InsertVote(db, v).Ok?
    ensures postId == v.postId ==> VoteCount(InsertVote(db, v).value.votes, postId) == VoteCount(db.votes, postId) + 1
    ensures postId != v.postId ==> VoteCount(InsertVote(db, v).value.votes, postId) == VoteCount(db.votes, postId)
  {
    var after := InsertVote(db, v).value.votes;
    if postId == v.postId {
      assert VotesOn(after, postId) == VotesOn(db.votes, postId) + {v};
    } else {
      assert VotesOn(after, postId) == VotesOn(db.votes, postId);
    }
  }

  /** Deleting a post leaves no vote that references it and keeps every other post's count. */
  lemma DeletePostRowCounts(db: Db, id: int, postId: int)
    ensures postId == id ==> VoteCount(DeletePostRow(db, id).votes, postId) == 0
    ensures postId != id ==> VoteCount(DeletePostRow(db, id).votes, postId) == VoteCount(db.votes, postId)
  {
    var after := DeletePostRow(db, id).votes;
    if postId == id {
      assert VotesOn(after, postId) == {};
    } else {
      assert VotesOn(after, postId) == VotesOn(db.votes, postId);
    }
  }

  /** The database with no rows satisfies every constraint. */
  lemma EmptyIsValid()
    ensures Valid(Empty)
  {
  }

  lemma InsertUserPreservesValid(db: Db, id: int, email: string, password: string, phoneNumber: Option<string>, now: Timestamp)
    requires Valid(db)
    requires InsertUser(db, id, email, password, phoneNumber, now).Ok?
    ensures Valid(InsertUser(db, id, email, password, phoneNumber, now).value)
  {
  }

  lemma InsertPostPreservesValid(db: Db, id: int, ownerId: int, title: string, content: string, published: Option<bool>, now: Timestamp)
    requires Valid(db)
    requires InsertPost(db, id, ownerId, title, content, published, now).Ok?
    ensures Valid(InsertPost(db, id, ownerId, title, content, published, now).value)
  {
  }

  lemma UpdatePostRowPreservesValid(db: Db, id: int, title: string, content: string, published: bool)
    requires Valid(db) && id in db.posts
    ensures Valid(UpdatePostRow(db, id, title, content, published))
  {
  }

  lemma DeletePostRowPreservesValid(db: Db, id: int)
    requires Valid(db)
    ensures Valid(DeletePostRow(db, id))
  {
  }

  lemma DeleteUserRowPreservesValid(db: Db, userId: int)
    requires Valid(db)
    ensures Valid(DeleteUserRow(db, userId))
    ensures OwnedPosts(DeleteUserRow(db, userId).posts, userId) == {}
    ensures forall v | v in DeleteUserRow(db, userId).votes :: v.userId != userId
  {
  }

  lemma InsertVotePreservesValid(db: Db, v: Vote)
    requires Valid(db) && InsertVote(db, v).Ok?
    ensures Valid(InsertVote(db, v).value)
  {
  }
}
