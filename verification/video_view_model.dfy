/** The VideoView document: one user's watch progress on one video. */
module VideoViewModel {
  import opened Common
  import opened ObjectIds

  datatype VideoView = VideoView(
    user: ObjectId,
    video: ObjectId,
    viewedAt: Time,
    watchedTime: real,
    videoDuration: real,
    watchPercentage: real)

  /** A record created with only its required fields: every number takes its
      default of 0 and `viewedAt` the time of creation. */
  function NewVideoView(u: ObjectId, v: ObjectId, now: Time): (r: VideoView)
    ensures r.user == u && r.video == v && r.viewedAt == now
    ensures r.watchedTime == 0.0 && r.videoDuration == 0.0 && r.watchPercentage == 0.0
  {
    VideoView(u, v, now, 0.0, 0.0, 0.0)
  }

  predicate IsViewOf(vv: VideoView, u: ObjectId, v: ObjectId)
  {
    vv.user == u && vv.video == v
  }

  /** The unique index on (user, video). */
  predicate ViewsUnique(views: set<VideoView>)
  {
    forall a, b | a in views && b in views && a.user == b.user && a.video == b.video :: a == b
  }

  /** `videoDuration || 1`: a zero duration divides by 1 instead. */
  function Divisor(duration: real): (d: real)
    ensures d != 0.0
    ensures duration != 0.0 ==> d == duration
  {
    if duration == 0.0 then 1.0 else duration
  }

  /** `Math.min(100, (watchedTime / totalDuration) * 100)`: the share watched,
      in percent, capped at 100 and not bounded below. */
  function Percentage(watched: real, duration: real): (p: real)
    ensures p <= 100.0
    ensures p <= (watched / Divisor(duration)) * 100.0
    ensures p == 100.0 || p == (watched / Divisor(duration)) * 100.0
  {
    var raw := (watched / Divisor(duration)) * 100.0;
    if raw < 100.0 then raw else 100.0
  }

  /** For a positive duration, a non-negative time gives a non-negative
      percentage, and watching at least nine tenths reaches 90. */
  lemma PercentageBounds(watched: real, duration: real)
    requires duration > 0.0
    ensures watched >= 0.0 ==> 0.0 <= Percentage(watched, duration)
    ensures watched >= 0.9 * duration ==> Percentage(watched, duration) >= 90.0
    ensures watched < 0.9 * duration ==> Percentage(watched, duration) < 90.0
  {
    DivMonotone(watched, 0.9 * duration, duration);
    DivMonotone(0.9 * duration, watched, duration);
    assert (0.9 * duration) / duration == 0.9;
    if watched >= 0.0 {
      DivMonotone(0.0, watched, duration);
    }
  }

  lemma DivMonotone(a: real, b: real, d: real)
    requires d > 0.0
    ensures a < b ==> a / d < b / d
    ensures a <= b ==> a / d <= b / d
  {
    assert b / d - a / d == (b - a) / d;
  }

  /** A defaulted record has duration 0, so the time is divided by 1. */
  lemma DefaultedRecordPercentage(u: ObjectId, v: ObjectId, now: Time, watched: real)
    ensures var vv := NewVideoView(u, v, now);
            Percentage(watched, vv.videoDuration) == if watched * 100.0 < 100.0 then watched * 100.0 else 100.0
  {
  }

  /** The record after `updateWatchProgress` sets the time watched and the
      recomputed percentage; the user, video, duration and `viewedAt` stay. */
  function WithProgress(vv: VideoView, watched: real): (r: VideoView)
    ensures IsViewOf(r, vv.user, vv.video)
    ensures r.watchedTime == watched && r.watchPercentage <= 100.0
    ensures r.videoDuration == vv.videoDuration && r.viewedAt == vv.viewedAt
  {
    vv.(watchedTime := watched, watchPercentage := Percentage(watched, vv.videoDuration))
  }

  /** Replacing one record by another for the same (user, video) keeps the
      index satisfied. */
  lemma {:induction false} ReplaceKeepsUnique(views: set<VideoView>, old_: VideoView, new_: VideoView)
    requires ViewsUnique(views) && old_ in views
    requires new_.user == old_.user && new_.video == old_.video
    ensures ViewsUnique(views - {old_} + {new_})
  {
    var w := views - {old_} + {new_};
    forall a, b | a in w && b in w && a.user == b.user && a.video == b.video
      ensures a == b
    {
      if a != new_ && b != new_ {
        assert a in views && b in views;
      }
    }
  }

  /** The videos user `u` has watched to at least 90 percent. */
  function WatchedThrough(views: set<VideoView>, u: ObjectId): (r: set<ObjectId>)
    ensures forall v :: v in r <==> exists vv | vv in views :: IsViewOf(vv, u, v) && vv.watchPercentage >= 90.0
  {
    set vv | vv in views && vv.user == u && vv.watchPercentage >= 90.0 :: vv.video
  }
}
