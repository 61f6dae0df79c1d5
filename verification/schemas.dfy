/**
 * The request and response shapes of APP/schemas.py: what a request body must
 * contain, which defaults fill it in, and how a stored post is reported back.
 */
module Schemas {
  import opened Wrappers
  import opened Models

  /** `published: bool = True` in `PostBase`. */
  const PublishedDefault := true

  /** `conint(le = 1)` on `Vote.dir`. */
  const DirUpperBound := 1

  /** Why a body was rejected: the fields that were missing, or a field above its bound. */
  datatype ValidationError = Missing(fields: seq<string>) | AboveBound(field: string, bound: int)

  /** A validated `PostBase`: what create and update write into the post. */
  datatype PostBase = PostBase(title: string, content: string, published: bool)

  /** A post body as received, before validation; any field may be absent. */
  datatype PostBody = PostBody(title: Option<string>, content: Option<string>, published: Option<bool>)

  /** The names of the required fields a body lacks, in declaration order. */
  function MissingFields(body: PostBody): seq<string> {
    (if body.title.None? then ["title"] else []) + (if body.content.None? then ["content"] else [])
  }

  /** Validation of a body against `PostBase`: title and content are required, published defaults to true. */
  function ParsePostBase(body: PostBody): (r: Result<PostBase, ValidationError>)
    ensures r.Ok? <==> body.title.Some? && body.content.Some?
    ensures r.Ok? ==> r.value.title == body.title.value && r.value.content == body.content.value
    ensures r.Ok? && body.published.Some? ==> r.value.published == body.published.value
    ensures r.Ok? && body.published.None? ==> r.value.published
    ensures r.Err? ==> r.error.Missing? && |r.error.fields| > 0
    ensures r.Err? ==> ("title" in r.error.fields <==> body.title.None?)
    ensures r.Err? ==> ("content" in r.error.fields <==> body.content.None?)
  {
    if body.title.None? || body.content.None? then Err(Missing(MissingFields(body)))
    else Ok(PostBase(body.title.value, body.content.value, body.published.GetOr(PublishedDefault)))
  }

  /** The body a client sends when it spells out every field of `b`. */
  function AsBody(b: PostBase): PostBody {
    PostBody(Some(b.title), Some(b.content), Some(b.published))
  }

  /** A fully spelled-out body validates back to the same `PostBase`. */
  lemma ParseAsBody(b: PostBase)
    ensures ParsePostBase(AsBody(b)) == Ok(b)
  {
  }

  /** Omitting `published` is the same as sending `published = true`. */
  lemma OmittedPublishedIsTrue(title: string, content: string)
    ensures ParsePostBase(PostBody(Some(title), Some(content), None)) == ParsePostBase(PostBody(Some(title), Some(content), Some(true)))
  {
  }

  /** Schema `User`: the owner as reported inside a post, id and email only. */
  datatype UserOut = UserOut(id: int, email: string)

  /** `PostResponse`: every `PostBase` field plus id, owner and creation time. */
  datatype PostResponse = PostResponse(title: string, content: string, published: bool, id: int, owner: UserOut, createdAt: Timestamp) {

    /** The `PostBase` part a `PostResponse` inherits. */
    function Base(): PostBase {
      PostBase(title, content, published)
    }
  }

  /** `PostVote`: one post and its vote count, the shape of every listing row. */
  datatype PostVote = PostVote(post: PostResponse, votes: int)

  /** Schema `Vote`: a vote request. */
  datatype VoteIn = VoteIn(postId: int, dir: int)

  /** A stored post read through `from_attributes`, following `Post.owner` to the owning user. */
  function FromPost(db: Db, p: Post): (r: PostResponse)
    requires p.ownerId in db.users
    ensures r.Base() == PostBase(p.title, p.content, p.published)
    ensures r.id == p.id && r.createdAt == p.createdAt
    ensures KeysMatch(db) ==> r.owner.id == p.ownerId
    ensures r.owner.email == db.users[p.ownerId].email
  {
    var u := db.users[p.ownerId];
    PostResponse(p.title, p.content, p.published, p.id, UserOut(u.id, u.email), p.createdAt)
  }

  /** Validation of a vote request: `dir` must be at most 1 and has no lower bound. */
  function ParseVote(postId: int, dir: int): (r: Result<VoteIn, ValidationError>)
    ensures r.Ok? <==> dir <= 1
    ensures r.Ok? ==> r.value.postId == postId && r.value.dir == dir
    ensures r.Err? ==> r.error == AboveBound("dir", 1)
  {
    if dir <= DirUpperBound then Ok(VoteIn(postId, dir)) else Err(AboveBound("dir", DirUpperBound))
  }

  /** Every vote payload within the bound, including 0 and negative directions, validates back to itself. */
  lemma ParseVoteRoundTrip(v: VoteIn)
    requires v.dir <= DirUpperBound
    ensures ParseVote(v.postId, v.dir) == Ok(v)
  {
  }
}
