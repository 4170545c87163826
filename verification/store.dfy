/** The database the controllers work on: the videos collection (its order
    is the one the handlers that write it leave; queries that do not sort
    take their own order as an input), the Like, Subscription and VideoView collections with their unique
    indexes, and the users with their watch histories. */
module Store {
  import opened Common
  import opened ObjectIds
  import opened VideoModel
  import opened LikeModel
  import opened SubscriptionModel
  import opened VideoViewModel
  import opened WatchHistory

  /** `Video.findById`: the position of the video with identifier `id`. */
  function FindIndex(videos: seq<Video>, id: ObjectId): (r: Option<nat>)
    ensures r.Some? ==> r.value < |videos| && videos[r.value].id == id
    ensures r.Some? ==> forall j | 0 <= j < r.value :: videos[j].id != id
    ensures r.None? ==> forall j | 0 <= j < |videos| :: videos[j].id != id
  {
    if videos == [] then None
    else if videos[0].id == id then Some(0)
    else
      match FindIndex(videos[1..], id)
      case Some(k) => Some(k + 1)
      case None => None
  }

  /** Under unique identifiers, the position FindIndex gives is the only one. */
  lemma FindIndexUnique(videos: seq<Video>, id: ObjectId, i: nat)
    requires UniqueIds(videos)
    requires i < |videos| && videos[i].id == id
    ensures FindIndex(videos, id) == Some(i)
  {
  }

  /** `$pull`: the history with every occurrence of `v` removed, in the
      order of the rest. */
  method PullAll(h: seq<ObjectId>, v: ObjectId) returns (kept: seq<ObjectId>)
    ensures kept == Without(h, v)
  {
    kept := [];
    var i := 0;
    while i < |h|
      invariant 0 <= i <= |h|
      invariant kept == Without(h[..i], v)
    {
      assert h[..i + 1][..i] == h[..i];
      if h[i] != v {
        kept := kept + [h[i]];
      }
      i := i + 1;
    }
    assert h[..|h|] == h;
  }

  class Store {
    var videos: seq<Video>
    var likes: set<Like>
    var subscriptions: set<Subscription>
    var views: set<VideoView>
    var users: map<ObjectId, User>

    /** Identifiers are unique, the three unique indexes hold, and no watch
        history repeats a video. */
    ghost predicate Valid()
      reads this
    {
      && UniqueIds(videos)
      && VideoLikesUnique(likes)
      && SubscriptionsUnique(subscriptions)
      && ViewsUnique(views)
      && HistoriesDistinct(users)
    }

    /** An empty database over the registered users. */
    constructor (registered: map<ObjectId, User>)
      requires HistoriesDistinct(registered)
      ensures Valid()
      ensures videos == [] && likes == {} && subscriptions == {} && views == {}
      ensures users == registered
    {
      videos := [];
      likes := {};
      subscriptions := {};
      views := {};
      users := registered;
    }

    /** `$pull: { watchHistory: v }` followed by `$push` of `v` at position 0,
        both on user `u`; an unknown user is left as it is. */
    method MoveToHistoryFront(u: ObjectId, v: ObjectId)
      requires Valid()
      modifies this
      ensures Valid()
      ensures users == MoveInHistory(old(users), u, v)
      ensures videos == old(videos) && likes == old(likes)
      ensures subscriptions == old(subscriptions) && views == old(views)
    {
      MoveKeepsDistinct(users, u, v);
      if u in users {
        var kept := PullAll(users[u].watchHistory, v);
        users := users[u := users[u].(watchHistory := kept)];
        users := users[u := users[u].(watchHistory := [v] + users[u].watchHistory)];
        assert users == MoveInHistory(old(users), u, v);
      }
    }
  }
}
