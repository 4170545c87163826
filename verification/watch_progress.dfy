/** `updateWatchProgress` and `getAllVideoProgressForUser`: recording how far
    a user has watched a video, and reading back all of a user's progress as
    a map keyed by video. */
module WatchProgress {
  import opened Common
  import opened ObjectIds
  import opened VideoViewModel
  import opened WatchHistory
  import opened Store

  /** Some record exists for (u, v). */
  predicate HasView(views: set<VideoView>, u: ObjectId, v: ObjectId)
  {
    exists vv | vv in views :: IsViewOf(vv, u, v)
  }

  /** The records after the progress update of (u, v): the record of the
      pair takes the new time and percentage, every other record stays. */
  function ProgressUpdated(views: set<VideoView>, u: ObjectId, v: ObjectId, watched: real): set<VideoView>
  {
    (set vv | vv in views && !IsViewOf(vv, u, v))
    + (set vv | vv in views && IsViewOf(vv, u, v) :: WithProgress(vv, watched))
  }

  /** The update keeps the unique index, touches only the records of (u, v),
      keeps a record for the pair exactly when there was one, and leaves each
      record of the pair holding the given time and a percentage of at most
      100. */
  lemma ProgressUpdateShape(views: set<VideoView>, u: ObjectId, v: ObjectId, watched: real)
    requires ViewsUnique(views)
    ensures var r := ProgressUpdated(views, u, v, watched);
            && ViewsUnique(r)
            && (forall vv | !IsViewOf(vv, u, v) :: vv in r <==> vv in views)
            && (HasView(r, u, v) <==> HasView(views, u, v))
            && (forall vv | vv in r && IsViewOf(vv, u, v) ::
                  vv.watchedTime == watched && vv.watchPercentage == Percentage(watched, vv.videoDuration)
                  && vv.watchPercentage <= 100.0)
  {
    var r := ProgressUpdated(views, u, v, watched);
    if HasView(views, u, v) {
      var vv :| vv in views && IsViewOf(vv, u, v);
      ProgressUpdateOfRecord(views, vv, watched);
      ReplaceKeepsUnique(views, vv, WithProgress(vv, watched));
      assert WithProgress(vv, watched) in r;
    } else {
      assert r == views;
    }
  }

  /** Under the index, the update replaces the one record of the pair. */
  lemma ProgressUpdateOfRecord(views: set<VideoView>, vv: VideoView, watched: real)
    requires ViewsUnique(views) && vv in views
    ensures ProgressUpdated(views, vv.user, vv.video, watched) == views - {vv} + {WithProgress(vv, watched)}
  {
    var u, v := vv.user, vv.video;
    assert (set x | x in views && IsViewOf(x, u, v) :: WithProgress(x, watched)) == {WithProgress(vv, watched)};
    assert (set x | x in views && !IsViewOf(x, u, v)) == views - {vv};
  }

  /** The request: `videoParam` is the `videoId` of the body, `watched` its
      `watchedTime`, `viewer` the caller. */
  method UpdateWatchProgress(db: Store, viewer: ObjectId, videoParam: string, watched: real)
    returns (r: Result<VideoView>)
    requires db.Valid()
    modifies db
    ensures db.Valid()
    ensures Cast(videoParam).None? ==> r == Err(Internal)
    ensures r.Err? ==> db.views == old(db.views) && db.users == old(db.users)
    ensures Cast(videoParam).Some? ==>
              var v := Cast(videoParam).value;
              && (r == Err(NotFound) <==> !HasView(old(db.views), viewer, v))
              && (HasView(old(db.views), viewer, v) ==> r.Ok?)
              && (r.Ok? ==>
                    && db.views == ProgressUpdated(old(db.views), viewer, v, watched)
                    && r.value in db.views && IsViewOf(r.value, viewer, v)
                    && r.value.watchedTime == watched
                    && r.value.watchPercentage == Percentage(watched, r.value.videoDuration)
                    && db.users == MoveInHistory(old(db.users), viewer, v))
    ensures db.videos == old(db.videos) && db.likes == old(db.likes)
    ensures db.subscriptions == old(db.subscriptions)
  {
    // `VideoView.findOne` casts the identifier and rejects a malformed one.
    var cast := Cast(videoParam);
    if cast.None? {
      return Err(Internal);
    }
    var v := cast.value;
    if vv :| vv in db.views && IsViewOf(vv, viewer, v) {
      var updated := WithProgress(vv, watched);
      ProgressUpdateOfRecord(db.views, vv, watched);
      ReplaceKeepsUnique(db.views, vv, updated);
      db.views := db.views - {vv} + {updated};
      db.MoveToHistoryFront(viewer, v);
      return Ok(updated);
    }
    return Err(NotFound);
  }

  /** One entry of the progress map. */
  datatype Progress = Progress(watchedTime: real, videoDuration: real, watchPercentage: real)

  function ProgressOf(vv: VideoView): Progress
  {
    Progress(vv.watchedTime, vv.videoDuration, vv.watchPercentage)
  }

  /** The `reduce` over the records found: each record sets the entry of its
      video. */
  function ProgressMap(list: seq<VideoView>): (m: map<ObjectId, Progress>)
    ensures m.Keys == set vv | vv in list :: vv.video
  {
    if list == [] then map[]
    else
      var last := list[|list| - 1];
      assert list == list[..|list| - 1] + [last];
      ProgressMap(list[..|list| - 1])[last.video := ProgressOf(last)]
  }

  /** When a video occurs several times, the last record wins. */
  lemma {:induction false} ProgressMapLastWins(list: seq<VideoView>, i: nat)
    requires i < |list|
    requires forall j | i < j < |list| :: list[j].video != list[i].video
    ensures ProgressMap(list)[list[i].video] == ProgressOf(list[i])
  {
    var n := |list| - 1;
    if i < n {
      var init := list[..n];
      assert init[i] == list[i];
      forall j | i < j < |init|
        ensures init[j].video != init[i].video
      {
        assert init[j] == list[j];
      }
      ProgressMapLastWins(init, i);
    }
  }

  /** When records for the same video carry the same progress, each record's
      entry is its own progress, whatever the order of the list. */
  lemma ProgressMapOf(list: seq<VideoView>)
    requires forall a, b | a in list && b in list && a.video == b.video :: ProgressOf(a) == ProgressOf(b)
    ensures forall vv | vv in list :: ProgressMap(list)[vv.video] == ProgressOf(vv)
  {
    forall vv | vv in list
      ensures ProgressMap(list)[vv.video] == ProgressOf(vv)
    {
      var k :| 0 <= k < |list| && list[k].video == vv.video;
      while k + 1 < |list| && exists j | k < j < |list| :: list[j].video == vv.video
        invariant 0 <= k < |list| && list[k].video == vv.video
        decreases |list| - k
      {
        var next :| k < next < |list| && list[next].video == vv.video;
        k := next;
      }
      ProgressMapLastWins(list, k);
    }
  }

  /** The request for the caller `user`: the records of the user, collected
      one at a time in whatever order the collection yields them, folded into
      a map from each watched video to its progress. */
  method AllProgress(db: Store, user: ObjectId) returns (m: map<ObjectId, Progress>)
    requires db.Valid()
    ensures m.Keys == set vv | vv in db.views && vv.user == user :: vv.video
    ensures forall vv | vv in db.views && vv.user == user :: m[vv.video] == ProgressOf(vv)
  {
    var rest := db.views;
    var found: seq<VideoView> := [];
    while rest != {}
      invariant rest <= db.views
      invariant forall vv | vv in found :: vv in db.views && vv.user == user && vv !in rest
      invariant forall vv | vv in db.views && vv.user == user :: vv in found || vv in rest
      decreases rest
    {
      var vv :| vv in rest;
      rest := rest - {vv};
      if vv.user == user {
        found := found + [vv];
      }
    }
    m := ProgressMap(found);
    ProgressMapOf(found);
  }
}
