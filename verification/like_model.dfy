/** The Like document: an edge from the user who liked to a video, a comment
    or a tweet, and the partial unique index on (video, likedBy). */
module LikeModel {
  import opened Common
  import opened ObjectIds

  /** `likedBy` is required, so it is not optional here; the three targets
      are each optional and nothing demands exactly one of them. */
  datatype Like = Like(
    video: Option<ObjectId>,
    comment: Option<ObjectId>,
    tweet: Option<ObjectId>,
    likedBy: ObjectId,
    createdAt: Time)

  /** The like of video `v` by user `u`. */
  predicate IsVideoLike(l: Like, v: ObjectId, u: ObjectId)
  {
    l.video == Some(v) && l.likedBy == u
  }

  /** The unique index on (video, likedBy), restricted by its partial filter
      to likes that have a video. */
  predicate VideoLikesUnique(likes: set<Like>)
  {
    forall a, b | a in likes && b in likes && a.video.Some? && a.video == b.video && a.likedBy == b.likedBy
      :: a == b
  }

  /** The document `Like.create({ video, likedBy })` inserts. */
  function NewVideoLike(v: ObjectId, u: ObjectId, now: Time): (l: Like)
    ensures IsVideoLike(l, v, u) && l.comment.None? && l.tweet.None?
  {
    Like(Some(v), None, None, u, now)
  }

  /** Does user `u` like video `v`? */
  predicate Liked(likes: set<Like>, v: ObjectId, u: ObjectId)
  {
    exists l | l in likes :: IsVideoLike(l, v, u)
  }

  /** The likes of video `v`, by anyone. */
  function LikesOf(likes: set<Like>, v: ObjectId): (r: set<Like>)
    ensures r <= likes
    ensures forall l | l in likes :: l in r <==> l.video == Some(v)
  {
    set l | l in likes && l.video == Some(v)
  }

  /** The number of likes video `v` has. */
  function LikeCount(likes: set<Like>, v: ObjectId): (n: nat)
    ensures n <= |likes|
    ensures n == 0 <==> forall l | l in likes :: l.video != Some(v)
  {
    var s := LikesOf(likes, v);
    assert s == {} || exists l :: l in s;
    assert |s| <= |likes| by { SubsetCard(s, likes); }
    |s|
  }

  lemma SubsetCard<T>(a: set<T>, b: set<T>)
    requires a <= b
    ensures |a| <= |b|
  {
    assert b == a + (b - a);
  }

  /** Under the index, the like of `v` by `u`, if present, is the only one. */
  lemma {:induction false} LikeIsUnique(likes: set<Like>, v: ObjectId, u: ObjectId, l: Like)
    requires VideoLikesUnique(likes)
    requires l in likes && IsVideoLike(l, v, u)
    ensures (set m | m in likes && IsVideoLike(m, v, u)) == {l}
  {
  }

  /** The index does not constrain likes without a video: two likes of the same
      comment by the same user may coexist. */
  lemma CommentLikesUnconstrained(c: ObjectId, u: ObjectId, t1: Time, t2: Time)
    requires t1 != t2
    ensures var a := Like(None, Some(c), None, u, t1);
            var b := Like(None, Some(c), None, u, t2);
            a != b && VideoLikesUnique({a, b})
  {
  }
}
