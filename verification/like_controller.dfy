/** `toggleLikeVideo`: the caller's like of a video is removed when it
    exists and created when it does not. */
module LikeController {
  import opened Common
  import opened ObjectIds
  import opened LikeModel
  import opened Store

  datatype LikeOutcome = VideoLiked | VideoUnliked

  /** The likes after the toggle of (v, u): every like of `v` by `u` is
      removed when there is one, otherwise a new one is added. */
  function ToggledLikes(likes: set<Like>, v: ObjectId, u: ObjectId, now: Time): set<Like>
  {
    if Liked(likes, v, u) then likes - (set l | l in likes && IsVideoLike(l, v, u))
    else likes + {NewVideoLike(v, u, now)}
  }

  /** The toggle flips whether `u` likes `v`. */
  lemma ToggleFlipsLiked(likes: set<Like>, v: ObjectId, u: ObjectId, now: Time)
    ensures Liked(ToggledLikes(likes, v, u, now), v, u) <==> !Liked(likes, v, u)
  {
    if !Liked(likes, v, u) {
      assert NewVideoLike(v, u, now) in ToggledLikes(likes, v, u, now);
    }
  }

  /** No like other than those of (v, u) is touched. */
  lemma ToggleTouchesOnlyPair(likes: set<Like>, v: ObjectId, u: ObjectId, now: Time, l: Like)
    requires !IsVideoLike(l, v, u)
    ensures l in ToggledLikes(likes, v, u, now) <==> l in likes
  {
  }

  /** Creating only on the branch where no like exists keeps the index on
      (video, likedBy) satisfied. */
  lemma ToggleKeepsUnique(likes: set<Like>, v: ObjectId, u: ObjectId, now: Time)
    requires VideoLikesUnique(likes)
    ensures VideoLikesUnique(ToggledLikes(likes, v, u, now))
  {
    if !Liked(likes, v, u) {
      var n := NewVideoLike(v, u, now);
      var r := likes + {n};
      forall a, b | a in r && b in r && a.video.Some? && a.video == b.video && a.likedBy == b.likedBy
        ensures a == b
      {
        if a == n && b != n {
          assert IsVideoLike(b, v, u);
        }
      }
    }
  }

  /** From the state without the like, toggling twice gives back the same
      likes. */
  lemma ToggleTwiceFromAbsent(likes: set<Like>, v: ObjectId, u: ObjectId, t1: Time, t2: Time)
    requires !Liked(likes, v, u)
    ensures ToggledLikes(ToggledLikes(likes, v, u, t1), v, u, t2) == likes
  {
    var n := NewVideoLike(v, u, t1);
    var once := likes + {n};
    assert Liked(once, v, u);
    assert (set l | l in once && IsVideoLike(l, v, u)) == {n};
  }

  /** From the state with the like, toggling twice removes it and creates a
      like of the same pair stamped with the second time. */
  lemma ToggleTwiceFromPresent(likes: set<Like>, v: ObjectId, u: ObjectId, t1: Time, t2: Time, l: Like)
    requires VideoLikesUnique(likes)
    requires l in likes && IsVideoLike(l, v, u)
    ensures ToggledLikes(ToggledLikes(likes, v, u, t1), v, u, t2) == likes - {l} + {NewVideoLike(v, u, t2)}
  {
    LikeIsUnique(likes, v, u, l);
    var once := ToggledLikes(likes, v, u, t1);
    assert once == likes - {l};
    assert !Liked(once, v, u);
  }

  /** The request: `videoParam` is the raw route parameter, `user` the caller. */
  method ToggleLikeVideo(db: Store, user: ObjectId, videoParam: string, now: Time)
    returns (r: Result<LikeOutcome>)
    requires db.Valid()
    modifies db
    ensures db.Valid()
    ensures videoParam == "" ==> r == Err(BadRequest)
    ensures videoParam != "" && !IsValid(videoParam) ==> r == Err(Internal)
    ensures r.Ok? <==> IsValid(videoParam)
    ensures r.Err? ==> db.likes == old(db.likes)
    ensures r.Ok? ==>
              var v := Cast(videoParam).value;
              && db.likes == ToggledLikes(old(db.likes), v, user, now)
              && (r.value == VideoUnliked <==> Liked(old(db.likes), v, user))
    ensures db.videos == old(db.videos) && db.subscriptions == old(db.subscriptions)
    ensures db.views == old(db.views) && db.users == old(db.users)
  {
    if videoParam == "" {
      return Err(BadRequest);
    }
    // `Like.findOne` casts the identifier and rejects a malformed one.
    var cast := Cast(videoParam);
    if cast.None? {
      return Err(Internal);
    }
    var v := cast.value;
    ToggleKeepsUnique(db.likes, v, user, now);
    if l :| l in db.likes && IsVideoLike(l, v, user) {
      LikeIsUnique(db.likes, v, user, l);
      db.likes := db.likes - {l};
      return Ok(VideoUnliked);
    }
    db.likes := db.likes + {NewVideoLike(v, user, now)};
    return Ok(VideoLiked);
  }
}
