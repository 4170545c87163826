/** `getVideoById`: the watch-history move, then the aggregation that joins
    the video with its owner's profile, its like count, and whether the viewer
    likes the video and subscribes to its owner. */
module VideoDetail {
  import opened Common
  import opened ObjectIds
  import opened VideoModel
  import opened LikeModel
  import opened SubscriptionModel
  import opened WatchHistory
  import opened Store
  import LikeController
  import SubscriptionController

  /** The owner as the `$lookup` projects it. */
  datatype OwnerProfile = OwnerProfile(id: ObjectId, username: string, avatar: string)

  datatype Detail = Detail(video: Video, owner: OwnerProfile, likeCount: nat, isLiked: bool, isSubscribed: bool)

  /** The `$match` stage: the video with identifier `id`, provided it is
      published and not deleted. */
  function MatchVisible(videos: seq<Video>, id: ObjectId): (r: Option<Video>)
    ensures r.Some? ==> r.value in videos && r.value.id == id && Visible(r.value)
    ensures r.None? ==> forall v | v in videos && v.id == id :: !Visible(v)
  {
    if videos == [] then None
    else if videos[0].id == id && Visible(videos[0]) then Some(videos[0])
    else MatchVisible(videos[1..], id)
  }

  /** The owner `$lookup` followed by `$unwind`: no profile when the owner's
      user document does not exist, which drops the video. */
  function ProfileOf(users: map<ObjectId, User>, owner: ObjectId): (r: Option<OwnerProfile>)
    ensures r.Some? <==> owner in users
    ensures r.Some? ==> r.value.id == owner
  {
    if owner in users then Some(OwnerProfile(owner, users[owner].username, users[owner].avatar)) else None
  }

  /** The aggregation pipeline: the `likes` sub-pipeline counts the likes of
      the video, `isLikedArray` holds the viewer's likes of it and
      `isSubscribedArray` the viewer's subscriptions to its owner. */
  function ComposeDetail(videos: seq<Video>, likes: set<Like>, subs: set<Subscription>,
                         users: map<ObjectId, User>, id: ObjectId, viewer: ObjectId): (r: Option<Detail>)
    ensures r.Some? <==> MatchVisible(videos, id).Some? && MatchVisible(videos, id).value.owner in users
    ensures r.Some? ==>
              && r.value.video.id == id && Visible(r.value.video) && r.value.video in videos
              && r.value.owner.id == r.value.video.owner
              && r.value.likeCount == LikeCount(likes, id)
              && (r.value.isLiked <==> Liked(likes, id, viewer))
              && (r.value.isSubscribed <==> Subscribed(subs, viewer, r.value.video.owner))
  {
    match MatchVisible(videos, id)
    case None => None
    case Some(v) =>
      match ProfileOf(users, v.owner)
      case None => None
      case Some(owner) =>
        var likesArray := set l | l in likes && l.video == Some(id);
        LikedArrayNonEmpty(likes, id, viewer);
        SubscribedArrayNonEmpty(subs, owner.id, viewer);
        Some(Detail(v, owner, |likesArray|, |LikedArray(likes, id, viewer)| > 0,
                    |SubscribedArray(subs, owner.id, viewer)| > 0))
  }

  /** The `isLikedArray` sub-pipeline: the viewer's likes of the video. */
  function LikedArray(likes: set<Like>, id: ObjectId, viewer: ObjectId): set<Like>
  {
    set l | l in likes && l.video == Some(id) && l.likedBy == viewer
  }

  /** The `isSubscribedArray` sub-pipeline: the viewer's subscriptions to the
      owner. */
  function SubscribedArray(subs: set<Subscription>, owner: ObjectId, viewer: ObjectId): set<Subscription>
  {
    set s | s in subs && s.channel == owner && s.subscriber == viewer
  }

  lemma LikedArrayNonEmpty(likes: set<Like>, id: ObjectId, viewer: ObjectId)
    ensures |LikedArray(likes, id, viewer)| > 0 <==> Liked(likes, id, viewer)
  {
    var a := LikedArray(likes, id, viewer);
    if Liked(likes, id, viewer) {
      var l :| l in likes && IsVideoLike(l, id, viewer);
      assert l in a;
    }
    if |a| > 0 {
      assert a != {};
      var l :| l in a;
      assert IsVideoLike(l, id, viewer);
    }
  }

  lemma SubscribedArrayNonEmpty(subs: set<Subscription>, owner: ObjectId, viewer: ObjectId)
    ensures |SubscribedArray(subs, owner, viewer)| > 0 <==> Subscribed(subs, viewer, owner)
  {
    var a := SubscribedArray(subs, owner, viewer);
    if Subscribed(subs, viewer, owner) {
      var s :| s in subs && IsEdge(s, viewer, owner);
      assert s in a;
    }
    if |a| > 0 {
      assert a != {};
      var s :| s in a;
      assert IsEdge(s, viewer, owner);
    }
  }

  /** Under unique identifiers, a detail exists exactly when some video with
      that identifier is published, not deleted, and owned by an existing
      user. */
  lemma {:induction false} DetailFound(videos: seq<Video>, likes: set<Like>, subs: set<Subscription>,
                                       users: map<ObjectId, User>, id: ObjectId, viewer: ObjectId)
    requires UniqueIds(videos)
    ensures ComposeDetail(videos, likes, subs, users, id, viewer).Some?
            <==> exists i | 0 <= i < |videos| :: videos[i].id == id && Visible(videos[i]) && videos[i].owner in users
  {
    var m := MatchVisible(videos, id);
    if m.Some? {
      var i :| 0 <= i < |videos| && videos[i] == m.value;
      forall j | 0 <= j < |videos| && videos[j].id == id
        ensures videos[j] == videos[i]
      {
      }
    } else {
      forall i | 0 <= i < |videos| && videos[i].id == id
        ensures !Visible(videos[i])
      {
        assert videos[i] in videos;
      }
    }
  }

  /** A watch event changes no profile, so moving the history before the
      aggregation does not change its result. */
  lemma DetailIgnoresHistories(videos: seq<Video>, likes: set<Like>, subs: set<Subscription>,
                               users: map<ObjectId, User>, id: ObjectId, viewer: ObjectId, u: ObjectId, v: ObjectId)
    ensures ComposeDetail(videos, likes, subs, MoveInHistory(users, u, v), id, viewer)
            == ComposeDetail(videos, likes, subs, users, id, viewer)
  {
    var moved := MoveInHistory(users, u, v);
    forall o | o in users
      ensures ProfileOf(moved, o) == ProfileOf(users, o)
    {
    }
  }

  lemma CardAddAbsent<T>(a: set<T>, x: T)
    requires x !in a
    ensures |a + {x}| == |a| + 1
  {
  }

  lemma CardRemovePresent<T>(a: set<T>, x: T)
    requires x in a
    ensures |a - {x}| == |a| - 1
  {
    assert a == (a - {x}) + {x};
  }

  /** The number of likes of `id` after a toggle of (w, u). */
  lemma LikeCountAfterToggle(likes: set<Like>, id: ObjectId, w: ObjectId, u: ObjectId, now: Time)
    requires VideoLikesUnique(likes)
    ensures LikeCount(LikeController.ToggledLikes(likes, w, u, now), id)
            == if w != id then LikeCount(likes, id)
               else if Liked(likes, w, u) then LikeCount(likes, id) - 1
               else LikeCount(likes, id) + 1
  {
    if w != id {
      OtherVideoLikesKept(likes, id, w, u, now);
    } else if l :| l in likes && IsVideoLike(l, w, u) {
      LikeRemoved(likes, w, u, now, l);
    } else {
      LikeAdded(likes, w, u, now);
    }
  }

  lemma OtherVideoLikesKept(likes: set<Like>, id: ObjectId, w: ObjectId, u: ObjectId, now: Time)
    requires w != id
    ensures LikesOf(LikeController.ToggledLikes(likes, w, u, now), id) == LikesOf(likes, id)
  {
    var t := LikeController.ToggledLikes(likes, w, u, now);
    forall l: Like | l.video == Some(id)
      ensures l in t <==> l in likes
    {
      LikeController.ToggleTouchesOnlyPair(likes, w, u, now, l);
    }
  }

  lemma LikeRemoved(likes: set<Like>, w: ObjectId, u: ObjectId, now: Time, l: Like)
    requires VideoLikesUnique(likes)
    requires l in likes && IsVideoLike(l, w, u)
    ensures LikeCount(LikeController.ToggledLikes(likes, w, u, now), w) == LikeCount(likes, w) - 1
  {
    LikeIsUnique(likes, w, u, l);
    var t := LikeController.ToggledLikes(likes, w, u, now);
    assert t == likes - {l};
    assert LikesOf(t, w) == LikesOf(likes, w) - {l};
    CardRemovePresent(LikesOf(likes, w), l);
  }

  lemma LikeAdded(likes: set<Like>, w: ObjectId, u: ObjectId, now: Time)
    requires !Liked(likes, w, u)
    ensures LikeCount(LikeController.ToggledLikes(likes, w, u, now), w) == LikeCount(likes, w) + 1
  {
    var n := NewVideoLike(w, u, now);
    var t := LikeController.ToggledLikes(likes, w, u, now);
    assert t == likes + {n};
    assert n !in likes;
    assert LikesOf(t, w) == LikesOf(likes, w) + {n};
    CardAddAbsent(LikesOf(likes, w), n);
  }

  /** Whether `x` likes `id` after a toggle of (w, u): flipped for the
      toggled pair, unchanged for every other. */
  lemma LikedAfterToggle(likes: set<Like>, id: ObjectId, x: ObjectId, w: ObjectId, u: ObjectId, now: Time)
    ensures Liked(LikeController.ToggledLikes(likes, w, u, now), id, x)
            == if w == id && u == x then !Liked(likes, id, x) else Liked(likes, id, x)
  {
    var t := LikeController.ToggledLikes(likes, w, u, now);
    if w == id && u == x {
      LikeController.ToggleFlipsLiked(likes, w, u, now);
    } else {
      if Liked(likes, id, x) {
        var l :| l in likes && IsVideoLike(l, id, x);
        LikeController.ToggleTouchesOnlyPair(likes, w, u, now, l);
      }
      if Liked(t, id, x) {
        var l :| l in t && IsVideoLike(l, id, x);
        LikeController.ToggleTouchesOnlyPair(likes, w, u, now, l);
      }
    }
  }

  /** A like toggle of video `w` by user `u`: the detail of `id` is found
      exactly when it was; when `w` is `id` its like count goes down by one
      if the like existed and up by one if not, and `isLiked` flips when `u`
      is the viewer; every other part stays the same. */
  lemma LikeToggleEffect(videos: seq<Video>, likes: set<Like>, subs: set<Subscription>,
                         users: map<ObjectId, User>, id: ObjectId, viewer: ObjectId,
                         w: ObjectId, u: ObjectId, now: Time)
    requires VideoLikesUnique(likes)
    ensures var d := ComposeDetail(videos, likes, subs, users, id, viewer);
            var e := ComposeDetail(videos, LikeController.ToggledLikes(likes, w, u, now), subs, users, id, viewer);
            && (d.Some? <==> e.Some?)
            && (d.Some? ==>
                  && e.value.video == d.value.video && e.value.owner == d.value.owner
                  && e.value.isSubscribed == d.value.isSubscribed
                  && e.value.likeCount == (if w != id then d.value.likeCount
                                           else if Liked(likes, w, u) then d.value.likeCount - 1
                                           else d.value.likeCount + 1)
                  && e.value.isLiked == (if w == id && u == viewer then !d.value.isLiked else d.value.isLiked))
  {
    LikeCountAfterToggle(likes, id, w, u, now);
    LikedAfterToggle(likes, id, viewer, w, u, now);
  }

  /** A subscription toggle of `channel` by `u` flips `isSubscribed` exactly
      when `u` is the viewer and `channel` owns the video, and changes
      nothing else in the detail. */
  lemma SubscriptionToggleEffect(videos: seq<Video>, likes: set<Like>, subs: set<Subscription>,
                                 users: map<ObjectId, User>, id: ObjectId, viewer: ObjectId,
                                 u: ObjectId, channel: ObjectId, now: Time)
    ensures var d := ComposeDetail(videos, likes, subs, users, id, viewer);
            var e := ComposeDetail(videos, likes, SubscriptionController.ToggledSubscriptions(subs, u, channel, now),
                                   users, id, viewer);
            && (d.Some? <==> e.Some?)
            && (d.Some? ==>
                  && e.value.video == d.value.video && e.value.owner == d.value.owner
                  && e.value.likeCount == d.value.likeCount && e.value.isLiked == d.value.isLiked
                  && e.value.isSubscribed == (if u == viewer && channel == d.value.video.owner
                                              then !d.value.isSubscribed else d.value.isSubscribed))
  {
    var t := SubscriptionController.ToggledSubscriptions(subs, u, channel, now);
    SubscriptionController.ToggleFlipsSubscribed(subs, u, channel, now);
    var d := ComposeDetail(videos, likes, subs, users, id, viewer);
    if d.Some? {
      var o := d.value.video.owner;
      if !(u == viewer && channel == o) {
        if Subscribed(subs, viewer, o) {
          var s :| s in subs && IsEdge(s, viewer, o);
          assert s in t;
        }
        if Subscribed(t, viewer, o) {
          var s :| s in t && IsEdge(s, viewer, o);
          assert s in subs;
        }
      }
    }
  }

  /** The request: `videoParam` is the raw route parameter, `viewer` the
      caller. A malformed identifier fails before anything is written; a
      well-formed one moves the video to the front of the viewer's history
      before the lookup, so a video that is not found is still recorded. */
  method GetVideoById(db: Store, viewer: ObjectId, videoParam: string) returns (r: Result<Detail>)
    requires db.Valid()
    modifies db
    ensures db.Valid()
    ensures !IsValid(videoParam) ==> r == Err(BadRequest) && db.users == old(db.users)
    ensures IsValid(videoParam) ==>
              var id := Cast(videoParam).value;
              && db.users == MoveInHistory(old(db.users), viewer, id)
              && r == match ComposeDetail(old(db.videos), old(db.likes), old(db.subscriptions), old(db.users), id, viewer)
                      case Some(d) => Ok(d)
                      case None => Err(NotFound)
    ensures db.videos == old(db.videos) && db.likes == old(db.likes)
    ensures db.subscriptions == old(db.subscriptions) && db.views == old(db.views)
  {
    var cast := Cast(videoParam);
    if cast.None? {
      return Err(BadRequest);
    }
    var id := cast.value;
    ghost var before := db.users;
    db.MoveToHistoryFront(viewer, id);
    DetailIgnoresHistories(db.videos, db.likes, db.subscriptions, before, id, viewer, viewer, id);
    var d := ComposeDetail(db.videos, db.likes, db.subscriptions, db.users, id, viewer);
    if d.None? {
      return Err(NotFound);
    }
    return Ok(d.value);
  }
}
