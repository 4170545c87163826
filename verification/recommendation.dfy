/** `getRecommandationVideos`: four source queries (newest of the same
    channel, most commented, most liked, sharing a tag), each limited to five
    eligible videos, merged keeping the first video seen for each
    identifier, with the current video dropped and at most fifteen kept.

    The database's sort orders are inputs: a ranking is a reordering of the
    collection sorted by its key. The comment counts come from a collection
    outside this model and are an input as well. */
module Recommendation {
  import opened Common
  import opened ObjectIds
  import opened VideoModel
  import opened LikeModel
  import opened VideoViewModel
  import opened Store

  const SourceLimit: nat := 5
  const ResultLimit: nat := 15

  datatype Source = SameChannel | MostCommented | MostLiked | TagMatched

  /** `tags: { $in: current.tags }`: some tag of `v` is a tag of `current`. */
  predicate SharesTag(v: Video, current: Video)
  {
    exists t | t in v.tags :: t in current.tags
  }

  /** The filter of a source query: published, not deleted, not excluded,
      and the source's own condition. */
  predicate Admits(src: Source, current: Video, excluded: set<ObjectId>, v: Video)
  {
    && Visible(v) && v.id !in excluded
    && (src == SameChannel ==> v.owner == current.owner)
    && (src == TagMatched ==> SharesTag(v, current))
  }

  /** A query with a limit: the first `k` videos of `s` the filter admits, in
      the order of `s`. */
  function FirstMatching(s: seq<Video>, src: Source, current: Video, excluded: set<ObjectId>, k: nat)
    : (r: seq<Video>)
    ensures |r| <= k
    ensures forall x | x in r :: x in s && Admits(src, current, excluded, x)
  {
    if s == [] || k == 0 then []
    else if Admits(src, current, excluded, s[0]) then [s[0]] + FirstMatching(s[1..], src, current, excluded, k - 1)
    else FirstMatching(s[1..], src, current, excluded, k)
  }

  /** A query that returns fewer than `k` videos returns every video the
      filter admits. */
  lemma {:induction false} FirstMatchingComplete(s: seq<Video>, src: Source, current: Video,
                                                 excluded: set<ObjectId>, k: nat)
    requires |FirstMatching(s, src, current, excluded, k)| < k
    ensures forall x | x in s && Admits(src, current, excluded, x) :: x in FirstMatching(s, src, current, excluded, k)
  {
    if s != [] {
      FirstMatchingComplete(s[1..], src, current, excluded, if Admits(src, current, excluded, s[0]) then k - 1 else k);
    }
  }

  /** `x` occurs before `y` in `s`. */
  predicate OccursBefore(s: seq<Video>, x: Video, y: Video)
  {
    exists a, b | 0 <= a < b < |s| :: s[a] == x && s[b] == y
  }

  /** Any two elements of `r` occur in the same order in `s`. */
  predicate InOrderOf(r: seq<Video>, s: seq<Video>)
  {
    forall i, j | 0 <= i < j < |r| :: OccursBefore(s, r[i], r[j])
  }

  /** An order kept within the tail of `s` is kept within `s`. */
  lemma TailOrder(r: seq<Video>, s: seq<Video>)
    requires s != [] && InOrderOf(r, s[1..])
    ensures InOrderOf(r, s)
  {
    var t := s[1..];
    forall i, j | 0 <= i < j < |r|
      ensures OccursBefore(s, r[i], r[j])
    {
      assert OccursBefore(t, r[i], r[j]);
      var a, b :| 0 <= a < b < |t| && t[a] == r[i] && t[b] == r[j];
      assert s[a + 1] == r[i] && s[b + 1] == r[j];
    }
  }

  /** The head of `s` goes in front of elements taken from its tail. */
  lemma ConsOrder(r: seq<Video>, s: seq<Video>)
    requires s != [] && InOrderOf(r, s[1..])
    requires forall x | x in r :: x in s[1..]
    ensures InOrderOf([s[0]] + r, s)
  {
    var t := s[1..];
    var c := [s[0]] + r;
    TailOrder(r, s);
    forall i, j | 0 <= i < j < |c|
      ensures OccursBefore(s, c[i], c[j])
    {
      assert c[j] == r[j - 1];
      if i == 0 {
        assert r[j - 1] in r;
        var b :| 0 <= b < |t| && t[b] == r[j - 1];
        assert s[0] == c[i] && s[b + 1] == c[j];
      } else {
        assert c[i] == r[i - 1];
      }
    }
  }

  /** A limited query keeps the order of the sequence it reads. */
  lemma {:induction false} FirstMatchingKeepsOrder(s: seq<Video>, src: Source, current: Video,
                                                   excluded: set<ObjectId>, k: nat)
    ensures InOrderOf(FirstMatching(s, src, current, excluded, k), s)
  {
    if s != [] && k != 0 {
      var t := s[1..];
      if Admits(src, current, excluded, s[0]) {
        FirstMatchingKeepsOrder(t, src, current, excluded, k - 1);
        ConsOrder(FirstMatching(t, src, current, excluded, k - 1), s);
      } else {
        FirstMatchingKeepsOrder(t, src, current, excluded, k);
        TailOrder(FirstMatching(t, src, current, excluded, k), s);
      }
    }
  }

  datatype Ranking = Newest | ByComments | ByLikes

  /** The sort key of a ranking: `createdAt`, the number of comments, the
      number of likes. */
  function Key(rank: Ranking, v: Video, comments: map<ObjectId, nat>, likes: set<Like>): int
  {
    match rank
    case Newest => v.createdAt
    case ByComments => if v.id in comments then comments[v.id] else 0
    case ByLikes => LikeCount(likes, v.id)
  }

  /** `s` is sorted by the key of `rank`, largest first. */
  predicate SortedBy(s: seq<Video>, rank: Ranking, comments: map<ObjectId, nat>, likes: set<Like>)
  {
    forall i, j | 0 <= i < j < |s| :: Key(rank, s[i], comments, likes) >= Key(rank, s[j], comments, likes)
  }

  /** `order` is the collection `videos` sorted by the key of `rank`. */
  predicate Ranks(order: seq<Video>, videos: seq<Video>, rank: Ranking, comments: map<ObjectId, nat>, likes: set<Like>)
  {
    multiset(order) == multiset(videos) && SortedBy(order, rank, comments, likes)
  }

  /** `order` is the collection `videos` in some order, as an unsorted query
      returns it: the server may return the documents in any order. */
  predicate Reorders(order: seq<Video>, videos: seq<Video>)
  {
    multiset(order) == multiset(videos)
  }

  /** Over a sorted input, a limited query returns the top of the ranking:
      every admitted video it leaves out ranks no higher than any it returns. */
  lemma {:induction false} FirstMatchingTop(s: seq<Video>, src: Source, current: Video, excluded: set<ObjectId>,
                                            k: nat, rank: Ranking, comments: map<ObjectId, nat>, likes: set<Like>)
    requires SortedBy(s, rank, comments, likes)
    ensures var r := FirstMatching(s, src, current, excluded, k);
            forall i, x | 0 <= i < |s| && Admits(src, current, excluded, s[i]) && s[i] !in r && x in r
              :: Key(rank, x, comments, likes) >= Key(rank, s[i], comments, likes)
  {
    if s != [] && k != 0 {
      var t := s[1..];
      assert SortedBy(t, rank, comments, likes) by {
        forall i, j | 0 <= i < j < |t|
          ensures Key(rank, t[i], comments, likes) >= Key(rank, t[j], comments, likes)
        {
          assert t[i] == s[i + 1] && t[j] == s[j + 1];
        }
      }
      var a := Admits(src, current, excluded, s[0]);
      var k' := if a then k - 1 else k;
      FirstMatchingTop(t, src, current, excluded, k', rank, comments, likes);
      var r := FirstMatching(s, src, current, excluded, k);
      var r' := FirstMatching(t, src, current, excluded, k');
      forall i, x | 0 <= i < |s| && Admits(src, current, excluded, s[i]) && s[i] !in r && x in r
        ensures Key(rank, x, comments, likes) >= Key(rank, s[i], comments, likes)
      {
        assert i > 0;
        assert s[i] == t[i - 1];
        if a && x == s[0] {
        } else {
          assert x in r';
        }
      }
    }
  }

  /** Over a sorted input, a limited query returns its videos sorted too. */
  lemma FirstMatchingSorted(s: seq<Video>, src: Source, current: Video, excluded: set<ObjectId>,
                            k: nat, rank: Ranking, comments: map<ObjectId, nat>, likes: set<Like>)
    requires SortedBy(s, rank, comments, likes)
    ensures SortedBy(FirstMatching(s, src, current, excluded, k), rank, comments, likes)
  {
    var r := FirstMatching(s, src, current, excluded, k);
    FirstMatchingKeepsOrder(s, src, current, excluded, k);
    forall i, j | 0 <= i < j < |r|
      ensures Key(rank, r[i], comments, likes) >= Key(rank, r[j], comments, likes)
    {
      assert OccursBefore(s, r[i], r[j]);
      var a, b :| 0 <= a < b < |s| && s[a] == r[i] && s[b] == r[j];
    }
  }

  /** The identifiers of a sequence of videos. */
  function Ids(s: seq<Video>): set<ObjectId>
  {
    set x | x in s :: x.id
  }

  lemma IdsCons(x: Video, s: seq<Video>)
    ensures Ids([x] + s) == {x.id} + Ids(s)
  {
    var xs := [x] + s;
    forall y | y in xs
      ensures y == x || y in s
    {
    }
  }

  /** Keeping, for each identifier not in `seen`, the first video that
      carries it, in the order of `s`. */
  function DedupFrom(s: seq<Video>, seen: set<ObjectId>): (r: seq<Video>)
    ensures |r| <= |s|
    ensures forall x | x in r :: x in s && x.id !in seen
    ensures UniqueIds(r)
    ensures Ids(r) == Ids(s) - seen
  {
    if s == [] then []
    else if s[0].id in seen then
      IdsCons(s[0], s[1..]);
      assert s == [s[0]] + s[1..];
      DedupFrom(s[1..], seen)
    else
      var rest := DedupFrom(s[1..], seen + {s[0].id});
      IdsCons(s[0], s[1..]);
      IdsCons(s[0], rest);
      assert s == [s[0]] + s[1..];
      ConsUnique(s[0], rest);
      [s[0]] + rest
  }

  function DedupById(s: seq<Video>): seq<Video>
  {
    DedupFrom(s, {})
  }

  /** Reference definition of the merge, built from the end: a video is
      kept exactly when no earlier video carries its identifier. */
  function FirstOccurrences(s: seq<Video>): seq<Video>
  {
    if s == [] then []
    else
      var init, last := s[..|s| - 1], s[|s| - 1];
      FirstOccurrences(init) + (if last.id in Ids(init) then [] else [last])
  }

  lemma {:induction false} DedupSnoc(a: seq<Video>, x: Video, seen: set<ObjectId>)
    ensures DedupFrom(a + [x], seen)
            == DedupFrom(a, seen) + (if x.id in seen || x.id in Ids(a) then [] else [x])
  {
    if a == [] {
      assert [x][1..] == [];
    } else {
      var h, t := a[0], a[1..];
      assert (a + [x])[0] == h && (a + [x])[1..] == t + [x];
      assert a == [h] + t;
      assert Ids(a) == {h.id} + Ids(t);
      if h.id in seen {
        DedupSnoc(t, x, seen);
      } else {
        DedupSnoc(t, x, seen + {h.id});
      }
    }
  }

  /** The loop's merge from the front and the reference from the end agree:
      the result is the first video for each identifier, in the order of
      first occurrence. */
  lemma {:induction false} DedupIsFirstOccurrences(s: seq<Video>)
    ensures DedupById(s) == FirstOccurrences(s)
  {
    if s != [] {
      var init, last := s[..|s| - 1], s[|s| - 1];
      assert s == init + [last];
      DedupIsFirstOccurrences(init);
      DedupSnoc(init, last, {});
    }
  }

  /** The recommended-map loop: each video is inserted under its identifier
      unless the identifier is already present; the map's values, in
      insertion order, are the result. */
  method MergeFirstSeen(s: seq<Video>) returns (r: seq<Video>)
    ensures r == DedupById(s)
  {
    var seen: set<ObjectId> := {};
    r := [];
    var i := 0;
    while i < |s|
      invariant 0 <= i <= |s|
      invariant r + DedupFrom(s[i..], seen) == DedupById(s)
    {
      assert s[i..][1..] == s[i + 1..];
      if s[i].id !in seen {
        r := r + [s[i]];
        seen := seen + {s[i].id};
      }
      i := i + 1;
    }
  }

  /** The final filter: drop the videos with identifier `id`. */
  function WithoutId(s: seq<Video>, id: ObjectId): (r: seq<Video>)
    ensures |r| <= |s|
    ensures forall x | x in r :: x in s && x.id != id
    ensures forall x | x in s && x.id != id :: x in r
    ensures id !in Ids(s) ==> r == s
  {
    if s == [] then []
    else
      assert id !in Ids(s) ==> id !in Ids(s[1..]) by {
        forall x | x in s[1..]
          ensures x in s
        {
        }
      }
      (if s[0].id == id then [] else [s[0]]) + WithoutId(s[1..], id)
  }

  /** `slice(0, n)`. */
  function Take(s: seq<Video>, n: nat): (r: seq<Video>)
    ensures |r| == if |s| <= n then |s| else n
    ensures r == s[..|r|]
    ensures |s| <= n ==> r == s
  {
    if |s| <= n then s else s[..n]
  }

  /** The videos excluded from every source: those the viewer has watched
      to at least 90 percent, and the current one. */
  function Excluded(views: set<VideoView>, viewer: ObjectId, current: Video): (e: set<ObjectId>)
    ensures current.id in e
    ensures forall v | v != current.id :: v in e <==> v in WatchedThrough(views, viewer)
  {
    WatchedThrough(views, viewer) + {current.id}
  }

  /** The four source lists, concatenated. The tag-matched source reads
      `tagScan`, the order in which its unsorted query meets the videos. */
  function Sources(tagScan: seq<Video>, byNewest: seq<Video>, byComments: seq<Video>, byLikes: seq<Video>,
                   current: Video, excluded: set<ObjectId>): seq<Video>
  {
    FirstMatching(byNewest, SameChannel, current, excluded, SourceLimit)
    + FirstMatching(byComments, MostCommented, current, excluded, SourceLimit)
    + FirstMatching(byLikes, MostLiked, current, excluded, SourceLimit)
    + FirstMatching(tagScan, TagMatched, current, excluded, SourceLimit)
  }

  function Recommended(tagScan: seq<Video>, views: set<VideoView>, viewer: ObjectId, current: Video,
                       byNewest: seq<Video>, byComments: seq<Video>, byLikes: seq<Video>): seq<Video>
  {
    var merged := DedupById(Sources(tagScan, byNewest, byComments, byLikes, current, Excluded(views, viewer, current)));
    Take(WithoutId(merged, current.id), ResultLimit)
  }

  /** Each source is at most five long, so the merge holds at most twenty. */
  lemma SourcesBound(tagScan: seq<Video>, byNewest: seq<Video>, byComments: seq<Video>, byLikes: seq<Video>,
                     current: Video, excluded: set<ObjectId>)
    ensures |Sources(tagScan, byNewest, byComments, byLikes, current, excluded)| <= 4 * SourceLimit
    ensures forall x | x in Sources(tagScan, byNewest, byComments, byLikes, current, excluded)
              :: Visible(x) && x.id !in excluded
  {
  }

  /** Every source video comes from the collection, since each ranking and
      the tag scan are reorderings of it. */
  lemma SourcesFromCollection(videos: seq<Video>, tagScan: seq<Video>,
                              byNewest: seq<Video>, byComments: seq<Video>, byLikes: seq<Video>,
                              comments: map<ObjectId, nat>, likes: set<Like>, current: Video, excluded: set<ObjectId>)
    requires Ranks(byNewest, videos, Newest, comments, likes)
    requires Ranks(byComments, videos, ByComments, comments, likes)
    requires Ranks(byLikes, videos, ByLikes, comments, likes)
    requires Reorders(tagScan, videos)
    ensures forall x | x in Sources(tagScan, byNewest, byComments, byLikes, current, excluded) :: x in videos
  {
    forall x | x in Sources(tagScan, byNewest, byComments, byLikes, current, excluded)
      ensures x in videos
    {
      assert multiset(tagScan)[x] == multiset(videos)[x];
      assert multiset(byNewest)[x] == multiset(videos)[x];
      assert multiset(byComments)[x] == multiset(videos)[x];
      assert multiset(byLikes)[x] == multiset(videos)[x];
    }
  }

  /** A prefix of a list with unique identifiers has unique identifiers. */
  lemma TakeKeepsUnique(s: seq<Video>, n: nat)
    requires UniqueIds(s)
    ensures UniqueIds(Take(s, n))
  {
    var r := Take(s, n);
    forall i, j | 0 <= i < j < |r|
      ensures r[i].id != r[j].id
    {
      assert r[i] == s[i] && r[j] == s[j];
    }
  }

  /** The current video is excluded from every source already, so the final
      filter never removes anything. */
  lemma CurrentAlreadyExcluded(tagScan: seq<Video>, views: set<VideoView>, viewer: ObjectId, current: Video,
                               byNewest: seq<Video>, byComments: seq<Video>, byLikes: seq<Video>)
    ensures var merged := DedupById(Sources(tagScan, byNewest, byComments, byLikes, current,
                                            Excluded(views, viewer, current)));
            WithoutId(merged, current.id) == merged
  {
    var s := Sources(tagScan, byNewest, byComments, byLikes, current, Excluded(views, viewer, current));
    SourcesBound(tagScan, byNewest, byComments, byLikes, current, Excluded(views, viewer, current));
    assert current.id !in Ids(s);
  }

  /** The result holds no identifier twice and never the current one, is at
      most fifteen long, and is the start of the first-occurrence merge of the
      four sources; every video in it is published, not deleted, not watched
      through by the viewer, and from the collection. */
  lemma RecommendedShape(videos: seq<Video>, tagScan: seq<Video>, views: set<VideoView>, likes: set<Like>, comments: map<ObjectId, nat>,
                         viewer: ObjectId, current: Video,
                         byNewest: seq<Video>, byComments: seq<Video>, byLikes: seq<Video>)
    requires Ranks(byNewest, videos, Newest, comments, likes)
    requires Ranks(byComments, videos, ByComments, comments, likes)
    requires Ranks(byLikes, videos, ByLikes, comments, likes)
    requires Reorders(tagScan, videos)
    ensures var r := Recommended(tagScan, views, viewer, current, byNewest, byComments, byLikes);
            var merged := DedupById(Sources(tagScan, byNewest, byComments, byLikes, current,
                                            Excluded(views, viewer, current)));
            && UniqueIds(r)
            && |r| == (if |merged| <= ResultLimit then |merged| else ResultLimit)
            && r == merged[..|r|]
            && (|merged| <= ResultLimit ==> r == merged)
            && (forall x | x in r ::
                  && x.id != current.id && Visible(x)
                  && x.id !in WatchedThrough(views, viewer)
                  && x in videos)
  {
    var excluded := Excluded(views, viewer, current);
    var s := Sources(tagScan, byNewest, byComments, byLikes, current, excluded);
    var merged := DedupById(s);
    CurrentAlreadyExcluded(tagScan, views, viewer, current, byNewest, byComments, byLikes);
    SourcesBound(tagScan, byNewest, byComments, byLikes, current, excluded);
    SourcesFromCollection(videos, tagScan, byNewest, byComments, byLikes, comments, likes, current, excluded);
    TakeKeepsUnique(merged, ResultLimit);
  }

  /** The request: `currentParam` is the `currentVideoId` query parameter,
      `viewer` the caller. The current video is looked up without regard to
      its flags. The three rankings are the orders of the sorted queries, and
      `tagScan` the order in which the unsorted tag query meets the videos,
      which the server does not fix. */
  method Recommend(db: Store, viewer: ObjectId, currentParam: string,
                   byNewest: seq<Video>, byComments: seq<Video>, byLikes: seq<Video>, tagScan: seq<Video>,
                   comments: map<ObjectId, nat>)
    returns (r: Result<seq<Video>>)
    requires Ranks(byNewest, db.videos, Newest, comments, db.likes)
    requires Ranks(byComments, db.videos, ByComments, comments, db.likes)
    requires Ranks(byLikes, db.videos, ByLikes, comments, db.likes)
    requires Reorders(tagScan, db.videos)
    ensures !IsValid(currentParam) ==> r == Err(BadRequest)
    ensures IsValid(currentParam) ==>
              match FindIndex(db.videos, Cast(currentParam).value)
              case None => r == Err(NotFound)
              case Some(i) =>
                r == Ok(Recommended(tagScan, db.views, viewer, db.videos[i], byNewest, byComments, byLikes))
    ensures r.Ok? ==>
              && UniqueIds(r.value) && |r.value| <= ResultLimit
              && (forall x | x in r.value ::
                    && x.id != Cast(currentParam).value && Visible(x)
                    && x.id !in WatchedThrough(db.views, viewer) && x in db.videos)
  {
    var cast := Cast(currentParam);
    if cast.None? {
      return Err(BadRequest);
    }
    var id := cast.value;
    var found := FindIndex(db.videos, id);
    if found.None? {
      return Err(NotFound);
    }
    var current := db.videos[found.value];
    var excluded := Excluded(db.views, viewer, current);
    var candidates := Sources(tagScan, byNewest, byComments, byLikes, current, excluded);
    var merged := MergeFirstSeen(candidates);
    var result := Take(WithoutId(merged, id), ResultLimit);
    RecommendedShape(db.videos, tagScan, db.views, db.likes, comments, viewer, current, byNewest, byComments, byLikes);
    return Ok(result);
  }
}
