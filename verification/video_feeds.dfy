/** The read-only lists: `getSubscribedChannelVideos` (the videos of the
    channels a user follows), `likedVideosController` (the videos a user
    liked) and `getWatchUserHistory` (a user's history with the videos
    filled in). The database's sort stages are inputs: a ranking of the
    collection that the model filters, proved to keep its order. */
module VideoFeeds {
  import opened Common
  import opened ObjectIds
  import opened VideoModel
  import opened LikeModel
  import opened SubscriptionModel
  import opened WatchHistory
  import opened Store
  import opened VideoDetail
  import Recommendation

  // getSubscribedChannelVideos

  /** The `$match` stage of the feed: published, not deleted, public, and
      owned by one of the channels. */
  predicate InFeed(v: Video, channels: set<ObjectId>)
  {
    Visible(v) && !v.isPrivate && v.owner in channels
  }

  /** The videos of `s` the feed admits, in the order of `s`. */
  function FeedOf(s: seq<Video>, channels: set<ObjectId>): (r: seq<Video>)
    ensures |r| <= |s|
    ensures forall x :: x in r <==> x in s && InFeed(x, channels)
  {
    if s == [] then []
    else if InFeed(s[0], channels) then [s[0]] + FeedOf(s[1..], channels)
    else FeedOf(s[1..], channels)
  }

  /** `s` is sorted by `createdAt`, newest first. */
  predicate NewestFirst(s: seq<Video>)
  {
    forall i, j | 0 <= i < j < |s| :: s[i].createdAt >= s[j].createdAt
  }

  /** NewestFirst is the order of the `createdAt: -1` ranking. */
  lemma NewestFirstIsRanking(s: seq<Video>, comments: map<ObjectId, nat>, likes: set<Like>)
    ensures NewestFirst(s) <==> Recommendation.SortedBy(s, Recommendation.Newest, comments, likes)
  {
  }

  /** The tail of a list sorted newest first is sorted, and no element of
      it is newer than the head. */
  lemma SortedTail(s: seq<Video>)
    requires NewestFirst(s) && s != []
    ensures NewestFirst(s[1..])
    ensures forall x | x in s[1..] :: x.createdAt <= s[0].createdAt
  {
    var t := s[1..];
    forall i, j | 0 <= i < j < |t|
      ensures t[i].createdAt >= t[j].createdAt
    {
      assert t[i] == s[i + 1] && t[j] == s[j + 1];
    }
    forall x | x in t
      ensures x.createdAt <= s[0].createdAt
    {
      var k :| 0 <= k < |t| && t[k] == x;
      assert s[k + 1] == x;
    }
  }

  /** A video no older than any of a sorted list goes in front of it. */
  lemma ConsNewestFirst(head: Video, rest: seq<Video>)
    requires NewestFirst(rest)
    requires forall x | x in rest :: x.createdAt <= head.createdAt
    ensures NewestFirst([head] + rest)
  {
    var r := [head] + rest;
    forall i, j | 0 <= i < j < |r|
      ensures r[i].createdAt >= r[j].createdAt
    {
      assert r[j] == rest[j - 1] && r[j] in rest;
      if i > 0 {
        assert r[i] == rest[i - 1];
      }
    }
  }

  /** Filtering a list sorted newest first leaves it sorted newest first. */
  lemma {:induction false} FeedKeepsOrder(s: seq<Video>, channels: set<ObjectId>)
    requires NewestFirst(s)
    ensures NewestFirst(FeedOf(s, channels))
  {
    if s != [] {
      SortedTail(s);
      FeedKeepsOrder(s[1..], channels);
      var rest := FeedOf(s[1..], channels);
      if InFeed(s[0], channels) {
        assert forall x | x in rest :: x in s[1..];
        ConsNewestFirst(s[0], rest);
        assert FeedOf(s, channels) == [s[0]] + rest;
      } else {
        assert FeedOf(s, channels) == rest;
      }
    }
  }

  /** No channel, no video. */
  lemma {:induction false} EmptyFeed(s: seq<Video>, channels: set<ObjectId>)
    requires channels == {}
    ensures FeedOf(s, channels) == []
  {
    if s != [] {
      EmptyFeed(s[1..], channels);
    }
  }

  /** The response: an empty list when the caller follows no channel, one
      page of the feed otherwise. */
  datatype FeedResponse = NoSubscribedChannels | FeedPage(videos: seq<Video>)

  /** The request for the caller `user`; `byNewest` is the videos collection
      in the order of the `$sort` stage. */
  function SubscribedFeed(byNewest: seq<Video>, subs: set<Subscription>, user: ObjectId): FeedResponse
  {
    var channels := ChannelsOf(subs, user);
    if channels == {} then NoSubscribedChannels else FeedPage(FeedOf(byNewest, channels))
  }

  /** The early return happens exactly when the caller follows nobody, and
      then the filter would have found nothing anyway; otherwise the page
      holds exactly the published, undeleted, public videos of followed
      channels, newest first. */
  lemma SubscribedFeedShape(videos: seq<Video>, byNewest: seq<Video>, subs: set<Subscription>, user: ObjectId)
    requires Recommendation.Ranks(byNewest, videos, Recommendation.Newest, map[], {})
    ensures var r := SubscribedFeed(byNewest, subs, user);
            && (r.NoSubscribedChannels? <==> forall c :: !Subscribed(subs, user, c))
            && (r.NoSubscribedChannels? ==> FeedOf(byNewest, ChannelsOf(subs, user)) == [])
            && (r.FeedPage? ==>
                  && (forall x :: x in r.videos <==>
                        x in videos && Visible(x) && !x.isPrivate && Subscribed(subs, user, x.owner))
                  && NewestFirst(r.videos))
  {
    var channels := ChannelsOf(subs, user);
    forall x
      ensures x in byNewest <==> x in videos
    {
      assert x in byNewest <==> x in multiset(byNewest);
      assert x in videos <==> x in multiset(videos);
    }
    if channels == {} {
      EmptyFeed(byNewest, channels);
    } else {
      NewestFirstIsRanking(byNewest, map[], {});
      FeedKeepsOrder(byNewest, channels);
    }
  }

  // likedVideosController

  /** One row of the liked list: when the like was made, the video, and its
      owner's profile. */
  datatype LikedEntry = LikedEntry(likedAt: Time, video: Video, owner: OwnerProfile)

  /** The row a like gives after the two `$lookup`/`$unwind` pairs: none
      when it has no video, or when the video or its owner no longer
      exists. */
  function RowOf(l: Like, videos: seq<Video>, users: map<ObjectId, User>): (r: Option<LikedEntry>)
    ensures r.Some? <==> l.video.Some? && FindIndex(videos, l.video.value).Some?
                         && videos[FindIndex(videos, l.video.value).value].owner in users
    ensures r.Some? ==> && r.value.likedAt == l.createdAt && l.video == Some(r.value.video.id)
                        && r.value.video in videos && r.value.owner.id == r.value.video.owner
                        && r.value.video.owner in users
  {
    if l.video.None? then None
    else
      match FindIndex(videos, l.video.value)
      case None => None
      case Some(i) =>
        match ProfileOf(users, videos[i].owner)
        case None => None
        case Some(p) => Some(LikedEntry(l.createdAt, videos[i], p))
  }

  /** The rows of the likes in the given order. */
  function LikedRows(order: seq<Like>, videos: seq<Video>, users: map<ObjectId, User>): (r: seq<LikedEntry>)
    ensures |r| <= |order|
  {
    if order == [] then []
    else
      match RowOf(order[0], videos, users)
      case None => LikedRows(order[1..], videos, users)
      case Some(e) => [e] + LikedRows(order[1..], videos, users)
  }

  /** Each row is the row of some like of the order. */
  lemma {:induction false} LikedRowsSound(order: seq<Like>, videos: seq<Video>, users: map<ObjectId, User>,
                                          e: LikedEntry)
    requires e in LikedRows(order, videos, users)
    ensures exists l | l in order :: RowOf(l, videos, users) == Some(e)
  {
    var rest := LikedRows(order[1..], videos, users);
    if RowOf(order[0], videos, users) != Some(e) {
      assert e in rest;
      LikedRowsSound(order[1..], videos, users, e);
      var l :| l in order[1..] && RowOf(l, videos, users) == Some(e);
      assert l in order;
    }
  }

  /** Every like of the order that has a row gives that row. */
  lemma {:induction false} LikedRowsComplete(order: seq<Like>, videos: seq<Video>, users: map<ObjectId, User>,
                                             l: Like)
    requires l in order && RowOf(l, videos, users).Some?
    ensures RowOf(l, videos, users).value in LikedRows(order, videos, users)
  {
    if order[0] != l {
      assert l in order[1..];
      LikedRowsComplete(order[1..], videos, users, l);
    }
  }

  /** Every row comes no later than `bound` when every like does. */
  lemma {:induction false} LikedRowsBounded(order: seq<Like>, videos: seq<Video>, users: map<ObjectId, User>,
                                            bound: Time)
    requires forall k | 0 <= k < |order| :: order[k].createdAt <= bound
    ensures forall e | e in LikedRows(order, videos, users) :: e.likedAt <= bound
  {
    if order != [] {
      var t := order[1..];
      assert forall k | 0 <= k < |t| :: t[k] == order[k + 1];
      LikedRowsBounded(t, videos, users, bound);
    }
  }

  /** The rows are sorted by `likedAt`, newest first. */
  predicate RowsNewestFirst(rows: seq<LikedEntry>)
  {
    forall i, j | 0 <= i < j < |rows| :: rows[i].likedAt >= rows[j].likedAt
  }

  /** The rows keep the order of the likes they come from. */
  lemma {:induction false} LikedRowsKeepOrder(order: seq<Like>, videos: seq<Video>, users: map<ObjectId, User>)
    requires forall i, j | 0 <= i < j < |order| :: order[i].createdAt >= order[j].createdAt
    ensures RowsNewestFirst(LikedRows(order, videos, users))
  {
    if order != [] {
      var t := order[1..];
      assert forall k | 0 <= k < |t| :: t[k] == order[k + 1];
      LikedRowsKeepOrder(t, videos, users);
      var rest := LikedRows(t, videos, users);
      var row := RowOf(order[0], videos, users);
      if row.Some? {
        LikedRowsBounded(t, videos, users, order[0].createdAt);
        var r := [row.value] + rest;
        assert LikedRows(order, videos, users) == r;
        forall i, j | 0 <= i < j < |r|
          ensures r[i].likedAt >= r[j].likedAt
        {
          assert r[j] == rest[j - 1] && r[j] in rest;
          if i > 0 {
            assert r[i] == rest[i - 1];
          } else {
            assert r[i].likedAt == order[0].createdAt;
            assert r[j].likedAt <= order[0].createdAt;
          }
        }
      } else {
        assert LikedRows(order, videos, users) == rest;
      }
    }
  }

  /** The likes of `order` that give a row. */
  ghost function LikesWithRows(order: seq<Like>, videos: seq<Video>, users: map<ObjectId, User>): set<Like>
  {
    set l | l in order && RowOf(l, videos, users).Some?
  }

  /** A repeat-free order gives one row per like that has a row. */
  lemma {:induction false} LikedRowsCount(order: seq<Like>, videos: seq<Video>, users: map<ObjectId, User>)
    requires forall i, j | 0 <= i < j < |order| :: order[i] != order[j]
    ensures |LikedRows(order, videos, users)| == |LikesWithRows(order, videos, users)|
  {
    if order != [] {
      var t := order[1..];
      assert forall i, j | 0 <= i < j < |t| :: t[i] == order[i + 1] && t[j] == order[j + 1];
      LikedRowsCount(t, videos, users);
      var rest := LikesWithRows(t, videos, users);
      assert order[0] !in t;
      if RowOf(order[0], videos, users).Some? {
        assert LikesWithRows(order, videos, users) == {order[0]} + rest;
      } else {
        assert LikesWithRows(order, videos, users) == rest;
      }
    }
  }

  /** The response body: the number of rows and the rows. */
  datatype LikedResponse = LikedResponse(totalLikedVideos: nat, videos: seq<LikedEntry>)

  /** The request for the caller `userParam`; `order` is the caller's likes
      in the order of the `$sort` stage. */
  function LikedVideos(order: seq<Like>, videos: seq<Video>, users: map<ObjectId, User>, userParam: string)
    : Result<LikedResponse>
  {
    if !IsValid(userParam) then Err(BadRequest)
    else
      var rows := LikedRows(order, videos, users);
      Ok(LikedResponse(|rows|, rows))
  }

  /** The caller's likes of videos, each once, listed newest first. */
  ghost predicate LikesInOrder(order: seq<Like>, likes: set<Like>, u: ObjectId)
  {
    && (forall l :: l in order <==> l in likes && l.likedBy == u && l.video.Some?)
    && (forall i, j | 0 <= i < j < |order| :: order[i] != order[j])
    && (forall i, j | 0 <= i < j < |order| :: order[i].createdAt >= order[j].createdAt)
  }

  /** For a valid caller, the total is the number of the caller's likes
      whose video and owner exist, one row each; the rows are exactly the
      rows of those likes, newest first. */
  lemma LikedVideosShape(order: seq<Like>, likes: set<Like>, videos: seq<Video>, users: map<ObjectId, User>,
                         userParam: string)
    requires IsValid(userParam) ==> LikesInOrder(order, likes, Cast(userParam).value)
    ensures var r := LikedVideos(order, videos, users, userParam);
            && (r.Err? <==> !IsValid(userParam))
            && (r.Ok? ==>
                  var u := Cast(userParam).value;
                  && r.value.totalLikedVideos == |r.value.videos|
                  && r.value.totalLikedVideos
                       == |set l | l in likes && l.likedBy == u && RowOf(l, videos, users).Some?|
                  && (forall e :: e in r.value.videos <==>
                        exists l | l in likes :: l.likedBy == u && RowOf(l, videos, users) == Some(e))
                  && RowsNewestFirst(r.value.videos))
  {
    if IsValid(userParam) {
      var u := Cast(userParam).value;
      var rows := LikedRows(order, videos, users);
      forall e
        ensures e in rows <==> exists l | l in likes :: l.likedBy == u && RowOf(l, videos, users) == Some(e)
      {
        if e in rows {
          LikedRowsSound(order, videos, users, e);
        }
        if l :| l in likes && l.likedBy == u && RowOf(l, videos, users) == Some(e) {
          LikedRowsComplete(order, videos, users, l);
        }
      }
      LikedRowsKeepOrder(order, videos, users);
      LikedRowsCount(order, videos, users);
      assert LikesWithRows(order, videos, users)
             == set l | l in likes && l.likedBy == u && RowOf(l, videos, users).Some?;
    }
  }

  // getWatchUserHistory

  /** `populate` of a history: each identifier replaced by its video, in the
      order of the history; an identifier whose video no longer exists is
      dropped. */
  function Populate(h: seq<ObjectId>, videos: seq<Video>): (r: seq<Video>)
    ensures |r| <= |h|
    ensures forall x | x in r :: x in videos && x.id in h
    ensures forall id | id in h && FindIndex(videos, id).Some? :: videos[FindIndex(videos, id).value] in r
  {
    if h == [] then []
    else
      var rest := Populate(h[1..], videos);
      assert forall id | id in h && id != h[0] :: id in h[1..];
      match FindIndex(videos, h[0])
      case None => rest
      case Some(i) => [videos[i]] + rest
  }

  /** The tail of a list without repeats has none, and lacks the head. */
  lemma NoDupsTail(h: seq<ObjectId>)
    requires NoDups(h) && h != []
    ensures NoDups(h[1..]) && h[0] !in h[1..]
  {
    var t := h[1..];
    forall i, j | 0 <= i < j < |t|
      ensures t[i] != t[j]
    {
      assert t[i] == h[i + 1] && t[j] == h[j + 1];
    }
    forall k | 0 <= k < |t|
      ensures t[k] != h[0]
    {
      assert t[k] == h[k + 1];
    }
  }

  /** A history without repeats populates to videos with distinct
      identifiers. */
  lemma {:induction false} PopulateUnique(h: seq<ObjectId>, videos: seq<Video>)
    requires NoDups(h)
    ensures UniqueIds(Populate(h, videos))
  {
    if h != [] {
      var t := h[1..];
      NoDupsTail(h);
      PopulateUnique(t, videos);
      var rest := Populate(t, videos);
      var found := FindIndex(videos, h[0]);
      if found.Some? {
        ConsUnique(videos[found.value], rest);
        assert Populate(h, videos) == [videos[found.value]] + rest;
      }
    }
  }

  /** Of any two videos of `r`, the first one's identifier comes earlier in
      the history `h`. */
  predicate InHistoryOrder(r: seq<Video>, h: seq<ObjectId>)
  {
    forall i, j | 0 <= i < j < |r| :: Before(h, r[i].id, r[j].id)
  }

  /** An order kept within the tail of a history is kept within the whole. */
  lemma TailHistoryOrder(r: seq<Video>, h: seq<ObjectId>)
    requires h != [] && InHistoryOrder(r, h[1..])
    ensures InHistoryOrder(r, h)
  {
    var t := h[1..];
    forall i, j | 0 <= i < j < |r|
      ensures Before(h, r[i].id, r[j].id)
    {
      assert Before(t, r[i].id, r[j].id);
      var a, b :| 0 <= a < b < |t| && t[a] == r[i].id && t[b] == r[j].id;
      assert h[a + 1] == r[i].id && h[b + 1] == r[j].id;
    }
  }

  /** The video of the history's head goes in front of videos from its tail. */
  lemma ConsHistoryOrder(v: Video, r: seq<Video>, h: seq<ObjectId>)
    requires h != [] && v.id == h[0]
    requires InHistoryOrder(r, h[1..])
    requires forall x | x in r :: x.id in h[1..]
    ensures InHistoryOrder([v] + r, h)
  {
    var t := h[1..];
    var c := [v] + r;
    TailHistoryOrder(r, h);
    forall i, j | 0 <= i < j < |c|
      ensures Before(h, c[i].id, c[j].id)
    {
      assert c[j] == r[j - 1];
      if i == 0 {
        assert r[j - 1] in r;
        var b :| 0 <= b < |t| && t[b] == r[j - 1].id;
        assert h[0] == c[i].id && h[b + 1] == c[j].id;
      } else {
        assert c[i] == r[i - 1];
      }
    }
  }

  /** Populating keeps the order of the history. */
  lemma {:induction false} PopulateKeepsOrder(h: seq<ObjectId>, videos: seq<Video>)
    ensures InHistoryOrder(Populate(h, videos), h)
  {
    if h != [] {
      var t := h[1..];
      PopulateKeepsOrder(t, videos);
      var rest := Populate(t, videos);
      match FindIndex(videos, h[0])
      case None =>
        TailHistoryOrder(rest, h);
      case Some(k) =>
        ConsHistoryOrder(videos[k], rest, h);
    }
  }

  /** The request for the caller `user`. */
  function WatchHistoryVideos(users: map<ObjectId, User>, videos: seq<Video>, user: ObjectId): Result<seq<Video>>
  {
    if user !in users then Err(NotFound) else Ok(Populate(users[user].watchHistory, videos))
  }

  /** 404 exactly when the caller's user record is missing; otherwise the
      videos of the history that still exist, each once, in the order of the
      history (most recently watched first). */
  lemma WatchHistoryShape(users: map<ObjectId, User>, videos: seq<Video>, user: ObjectId)
    requires HistoriesDistinct(users)
    ensures var r := WatchHistoryVideos(users, videos, user);
            && (r == Err(NotFound) <==> user !in users)
            && (r.Ok? ==>
                  && UniqueIds(r.value)
                  && (forall x | x in r.value :: x in videos && x.id in users[user].watchHistory)
                  && (forall id | id in users[user].watchHistory && FindIndex(videos, id).Some?
                        :: videos[FindIndex(videos, id).value] in r.value)
                  && InHistoryOrder(r.value, users[user].watchHistory))
  {
    if user in users {
      PopulateUnique(users[user].watchHistory, videos);
      PopulateKeepsOrder(users[user].watchHistory, videos);
    }
  }
}
