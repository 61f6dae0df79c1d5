/**
 * The query every read handler of APP/routers/post.py builds:
 *
 *   SELECT Posts.*, count(Votes.post_id) AS votes
 *   FROM Posts LEFT OUTER JOIN Votes ON Votes.post_id = Posts.id
 *   WHERE <one condition on the post>
 *   GROUP BY Posts.id
 *   [LIMIT ... OFFSET ...]
 *
 * Each clause is a function over the rows it receives, and `Execute` is proved
 * to agree with the per-post meaning: one row per matching post, carrying the
 * number of votes that reference it.
 */
module PostQuery {
  import opened Wrappers
  import opened Models
  import opened Schemas
  import opened IdOrder

  // ---------------------------------------------------------------------------
  // Title search: `Posts.title.contains(search)`, read as plain substring
  // containment. LIKE's `%` and `_` wildcards and its backslash escape are not
  // modelled, so the source can match more titles or fewer than the model.

  predicate IsPrefix(prefix: string, s: string) {
    |prefix| <= |s| && s[..|prefix|] == prefix
  }

  /** `sub` occurs somewhere in `s`. */
  predicate Contains(s: string, sub: string)
    decreases |s|
  {
    IsPrefix(sub, s) || (|s| > 0 && Contains(s[1..], sub))
  }

  /** `sub` occurs in `s` starting at index `i`. */
  predicate OccursAt(s: string, sub: string, i: int) {
    0 <= i && i + |sub| <= |s| && s[i..i + |sub|] == sub
  }

  /** The recursive search finds `sub` exactly when it occurs at some index. */
  lemma {:induction false} ContainsIffOccurs(s: string, sub: string)
    ensures Contains(s, sub) <==> exists i :: OccursAt(s, sub, i)
    decreases |s|
  {
    if IsPrefix(sub, s) {
      assert OccursAt(s, sub, 0);
    }
    if |s| > 0 {
      ContainsIffOccurs(s[1..], sub);
      if Contains(s[1..], sub) {
        var i :| OccursAt(s[1..], sub, i);
        assert s[1..][i..i + |sub|] == s[i + 1..i + 1 + |sub|];
        assert OccursAt(s, sub, i + 1);
      }
      forall i | OccursAt(s, sub, i)
        ensures Contains(s, sub)
      {
        if i > 0 {
          assert s[1..][i - 1..i - 1 + |sub|] == s[i..i + |sub|];
          assert OccursAt(s[1..], sub, i - 1);
        }
      }
    }
  }

  /** The default search, the empty string, is contained in every title. */
  lemma EmptySearchMatches(title: string)
    ensures Contains(title, "")
  {
  }

  // ---------------------------------------------------------------------------
  // The WHERE conditions the handlers use.

  datatype Where =
    | TitleContains(search: string)   // GET /posts/
    | OwnerIs(ownerId: int)           // GET /posts/my, GET /posts/friends/{id}
    | IdIs(id: int)                   // GET /posts/{id}

  predicate Matches(w: Where, p: Post) {
    match w
    case TitleContains(search) => Contains(p.title, search)
    case OwnerIs(ownerId) => p.ownerId == ownerId
    case IdIs(id) => p.id == id
  }

  /** The ids of the posts a condition selects. */
  function MatchingIds(db: Db, w: Where): set<int> {
    set k | k in db.posts && Matches(w, db.posts[k])
  }

  // ---------------------------------------------------------------------------
  // FROM ... LEFT OUTER JOIN ..., WHERE, GROUP BY and count.

  /** A row of the join: a post and one of its votes, or NULL vote columns when it has none. */
  datatype JoinRow = JoinRow(post: Post, vote: Option<Vote>)

  /** `Posts LEFT OUTER JOIN Votes ON Votes.post_id = Posts.id`. */
  function OuterJoin(db: Db): set<JoinRow> {
    (set k, v | k in db.posts && v in db.votes && v.postId == k :: JoinRow(db.posts[k], Some(v)))
    + (set k | k in db.posts && VotesOn(db.votes, k) == {} :: JoinRow(db.posts[k], None))
  }

  /** The WHERE clause. */
  function Filter(rows: set<JoinRow>, w: Where): set<JoinRow> {
    set r | r in rows && Matches(w, r.post)
  }

  /** The groups of `GROUP BY Posts.id`. */
  function GroupKeys(rows: set<JoinRow>): set<int> {
    set r | r in rows :: r.post.id
  }

  /** `count(Votes.post_id)` over one group: the rows whose vote columns are not NULL. */
  function CountVotes(rows: set<JoinRow>, id: int): nat {
    |set r | r in rows && r.post.id == id && r.vote.Some?|
  }

  /** The rows came from the posts table of `db`, and each post's owner can be reported. */
  predicate FromTable(db: Db, rows: set<JoinRow>) {
    && KeysMatch(db)
    && forall r | r in rows :: r.post.id in db.posts && db.posts[r.post.id].ownerId in db.users
  }

  /** Some row of the listing reports post `id`. */
  predicate Listed(rows: seq<PostVote>, id: int) {
    exists i | 0 <= i < |rows| :: rows[i].post.id == id
  }

  lemma GroupKeysFromTable(db: Db, rows: set<JoinRow>)
    requires FromTable(db, rows)
    ensures forall k | k in GroupKeys(rows) :: k in db.posts && db.posts[k].ownerId in db.users
  {
  }

  /** One output row per id, reporting the stored post and the count of its group. */
  function RowsFor(db: Db, rows: set<JoinRow>, ids: seq<int>): seq<PostVote>
    requires forall i | 0 <= i < |ids| :: ids[i] in db.posts && db.posts[ids[i]].ownerId in db.users
  {
    seq(|ids|, i requires 0 <= i < |ids| => PostVote(FromPost(db, db.posts[ids[i]]), CountVotes(rows, ids[i])))
  }

  lemma RowsForIds(db: Db, rows: set<JoinRow>, ids: seq<int>)
    requires KeysMatch(db)
    requires forall i | 0 <= i < |ids| :: ids[i] in db.posts && db.posts[ids[i]].ownerId in db.users
    ensures |RowsFor(db, rows, ids)| == |ids|
    ensures forall i | 0 <= i < |ids| :: RowsFor(db, rows, ids)[i].post.id == ids[i]
  {
  }

  /**
   * One output row per group, in ascending id. Grouping by the primary key makes
   * every column of Posts a function of the id, so the row reports the stored post.
   */
  function GroupByPost(db: Db, rows: set<JoinRow>): (r: seq<PostVote>)
    requires FromTable(db, rows)
    ensures |r| == |GroupKeys(rows)|
    ensures forall i, j | 0 <= i < j < |r| :: r[i].post.id < r[j].post.id
    ensures forall i | 0 <= i < |r| ::
      && r[i].post.id in GroupKeys(rows)
      && r[i].post == FromPost(db, db.posts[r[i].post.id])
      && r[i].votes == CountVotes(rows, r[i].post.id)
    ensures forall k | k in GroupKeys(rows) :: Listed(r, k)
  {
    GroupKeysFromTable(db, rows);
    var ids := Ascending(GroupKeys(rows));
    RowsForIds(db, rows, ids);
    var r := RowsFor(db, rows, ids);
    assert forall k | k in GroupKeys(rows) :: Listed(r, k) by {
      forall k | k in GroupKeys(rows)
        ensures Listed(r, k)
      {
        var i :| 0 <= i < |ids| && ids[i] == k;
        assert r[i].post.id == k;
      }
    }
    r
  }

  // ---------------------------------------------------------------------------
  // What the join contributes.

  /** The join rows that carry a vote of the given post. */
  function Tagged(p: Post, votes: set<Vote>): set<JoinRow> {
    set v | v in votes :: JoinRow(p, Some(v))
  }

  /** Pairing each vote with the same post loses none of them. */
  lemma {:induction false} TaggedCount(p: Post, votes: set<Vote>)
    ensures |Tagged(p, votes)| == |votes|
    decreases votes
  {
    if v :| v in votes {
      var rest := votes - {v};
      TaggedCount(p, rest);
      assert Tagged(p, votes) == Tagged(p, rest) + {JoinRow(p, Some(v))};
      assert JoinRow(p, Some(v)) !in Tagged(p, rest);
    } else {
      assert votes == {};
      assert Tagged(p, votes) == {};
    }
  }

  /** Each join row holds a stored post and, when not NULL, one of that post's votes. */
  lemma JoinRowOrigin(db: Db, r: JoinRow)
    requires KeysMatch(db)
    requires r in OuterJoin(db)
    ensures r.post.id in db.posts && r.post == db.posts[r.post.id]
    ensures r.vote.Some? ==> r.vote.value in VotesOn(db.votes, r.post.id)
  {
  }

  /** The outer join keeps every post, including one nobody voted for. */
  lemma OuterJoinKeepsEveryPost(db: Db, k: int)
    requires k in db.posts
    ensures exists r :: r in OuterJoin(db) && r.post == db.posts[k]
  {
    if v :| v in VotesOn(db.votes, k) {
      assert JoinRow(db.posts[k], Some(v)) in OuterJoin(db);
    } else {
      assert VotesOn(db.votes, k) == {};
      assert JoinRow(db.posts[k], None) in OuterJoin(db);
    }
  }

  /** After the WHERE clause, the groups are exactly the posts the condition selects. */
  lemma GroupKeysOfSelect(db: Db, w: Where)
    requires KeysMatch(db)
    ensures GroupKeys(Filter(OuterJoin(db), w)) == MatchingIds(db, w)
  {
    var rows := Filter(OuterJoin(db), w);
    forall k | k in GroupKeys(rows)
      ensures k in MatchingIds(db, w)
    {
      var r :| r in rows && r.post.id == k;
      JoinRowOrigin(db, r);
    }
    forall k | k in MatchingIds(db, w)
      ensures k in GroupKeys(rows)
    {
      OuterJoinKeepsEveryPost(db, k);
      var r :| r in OuterJoin(db) && r.post == db.posts[k];
      assert r in rows;
    }
  }

  /** `count(Votes.post_id)` of a selected post's group is its number of votes. */
  lemma CountOfSelect(db: Db, w: Where, k: int)
    requires KeysMatch(db)
    requires k in MatchingIds(db, w)
    ensures CountVotes(Filter(OuterJoin(db), w), k) == VoteCount(db.votes, k)
  {
    var rows := Filter(OuterJoin(db), w);
    var counted := set r | r in rows && r.post.id == k && r.vote.Some?;
    var tagged := Tagged(db.posts[k], VotesOn(db.votes, k));
    forall r | r in counted
      ensures r in tagged
    {
      JoinRowOrigin(db, r);
    }
    forall r | r in tagged
      ensures r in counted
    {
      var v :| v in VotesOn(db.votes, k) && r == JoinRow(db.posts[k], Some(v));
      assert r in OuterJoin(db);
    }
    assert counted == tagged;
    TaggedCount(db.posts[k], VotesOn(db.votes, k));
  }

  lemma SelectFromTable(db: Db, w: Where)
    requires Valid(db)
    ensures FromTable(db, Filter(OuterJoin(db), w))
  {
  }

  // ---------------------------------------------------------------------------
  // The whole query, and what it means.

  /** `row` is post `row.post.id` as stored, selected by `w`, with its number of votes. */
  predicate Reports(db: Db, w: Where, row: PostVote) {
    var k := row.post.id;
    && k in db.posts
    && db.posts[k].ownerId in db.users
    && Matches(w, db.posts[k])
    && row.post == FromPost(db, db.posts[k])
    && row.votes == VoteCount(db.votes, k)
  }

  /** The grouped query without LIMIT and OFFSET. */
  function Execute(db: Db, w: Where): (r: seq<PostVote>)
    requires Valid(db)
    ensures |r| == |MatchingIds(db, w)|
    ensures forall i, j | 0 <= i < j < |r| :: r[i].post.id < r[j].post.id
    ensures forall i | 0 <= i < |r| :: Reports(db, w, r[i])
    ensures forall k | k in MatchingIds(db, w) :: Listed(r, k)
  {
    var rows := Filter(OuterJoin(db), w);
    SelectFromTable(db, w);
    GroupKeysOfSelect(db, w);
    forall k | k in MatchingIds(db, w)
      ensures CountVotes(rows, k) == VoteCount(db.votes, k)
    {
      CountOfSelect(db, w, k);
    }
    GroupByPost(db, rows)
  }

  /** `OFFSET skip LIMIT limit`: the rows from position `skip` on, at most `limit` of them. */
  function Paginate<T>(rows: seq<T>, limit: nat, skip: nat): (page: seq<T>)
    ensures |page| <= limit
    ensures |page| == limit || skip + |page| >= |rows|
    ensures forall i | 0 <= i < |page| :: skip + i < |rows| && page[i] == rows[skip + i]
  {
    var rest := if skip <= |rows| then rows[skip..] else [];
    if limit <= |rest| then rest[..limit] else rest
  }
}
