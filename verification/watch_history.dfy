/** A user's watch history: the videos watched, most recent first. Each
    watch event runs `$pull` (remove every occurrence of the video) and then
    `$push` at position 0, which moves the video to the front. */
module WatchHistory {
  import opened ObjectIds

  /** The part of a User document the core reads: the public profile that
      `$lookup` projects, and the watch history. */
  datatype User = User(username: string, avatar: string, watchHistory: seq<ObjectId>)

  predicate NoDups(s: seq<ObjectId>)
  {
    forall i, j | 0 <= i < j < |s| :: s[i] != s[j]
  }

  /** Every history is free of repeats. */
  predicate HistoriesDistinct(users: map<ObjectId, User>)
  {
    forall u | u in users :: NoDups(users[u].watchHistory)
  }

  /** `x` occurs before `y` in `s`. */
  predicate Before(s: seq<ObjectId>, x: ObjectId, y: ObjectId)
  {
    exists i, j | 0 <= i < j < |s| :: s[i] == x && s[j] == y
  }

  /** `$pull: { watchHistory: v }`: every occurrence of `v` removed. */
  function Without(h: seq<ObjectId>, v: ObjectId): (r: seq<ObjectId>)
    ensures |r| <= |h|
  {
    if h == [] then []
    else
      var last := h[|h| - 1];
      Without(h[..|h| - 1], v) + (if last == v then [] else [last])
  }

  /** Without removes `v` and keeps every other element. */
  lemma {:induction false} WithoutMembers(h: seq<ObjectId>, v: ObjectId)
    ensures v !in Without(h, v)
    ensures forall x | x != v :: x in Without(h, v) <==> x in h
  {
    if h != [] {
      var init, last := h[..|h| - 1], h[|h| - 1];
      assert h == init + [last];
      WithoutMembers(init, v);
    }
  }

  /** The history after a watch event for `v`. */
  function MovedToFront(h: seq<ObjectId>, v: ObjectId): seq<ObjectId>
  {
    [v] + Without(h, v)
  }

  /** The users after a watch event by `u` for `v`; `findByIdAndUpdate` on an
      unknown user changes nothing. */
  function MoveInHistory(users: map<ObjectId, User>, u: ObjectId, v: ObjectId): (r: map<ObjectId, User>)
    ensures r.Keys == users.Keys
    ensures forall w | w in users && w != u :: r[w] == users[w]
    ensures u in users ==> r[u] == users[u].(watchHistory := MovedToFront(users[u].watchHistory, v))
  {
    if u in users then users[u := users[u].(watchHistory := MovedToFront(users[u].watchHistory, v))]
    else users
  }

  lemma {:induction false} WithoutKeepsNoDups(h: seq<ObjectId>, v: ObjectId)
    requires NoDups(h)
    ensures NoDups(Without(h, v))
  {
    if h != [] {
      var init, last := h[..|h| - 1], h[|h| - 1];
      WithoutKeepsNoDups(init, v);
      WithoutMembers(init, v);
      assert last !in init;
      assert last !in Without(init, v);
    }
  }

  /** After a watch event the history starts with `v`, holds it exactly once,
      holds every other video it held before and nothing else, and stays free
      of repeats. */
  lemma MovedToFrontShape(h: seq<ObjectId>, v: ObjectId)
    ensures var r := MovedToFront(h, v);
            && r[0] == v
            && (forall i | 0 < i < |r| :: r[i] != v)
            && (forall x | x != v :: x in r <==> x in h)
            && (NoDups(h) ==> NoDups(r))
  {
    WithoutMembers(h, v);
    if NoDups(h) {
      WithoutKeepsNoDups(h, v);
    }
  }

  lemma BeforeSnoc(a: seq<ObjectId>, z: ObjectId, x: ObjectId, y: ObjectId)
    ensures Before(a + [z], x, y) <==> Before(a, x, y) || (y == z && x in a)
  {
    var s := a + [z];
    if Before(s, x, y) {
      var i, j :| 0 <= i < j < |s| && s[i] == x && s[j] == y;
      if j < |a| {
        assert a[i] == x && a[j] == y;
      } else {
        assert a[i] == x;
      }
    }
    if Before(a, x, y) {
      var i, j :| 0 <= i < j < |a| && a[i] == x && a[j] == y;
      assert s[i] == x && s[j] == y;
    }
    if y == z && x in a {
      var i :| 0 <= i < |a| && a[i] == x;
      assert s[i] == x && s[|a|] == y;
    }
  }

  /** Removing `v` keeps the relative order of every other pair of videos. */
  lemma {:induction false} WithoutKeepsOrder(h: seq<ObjectId>, v: ObjectId, x: ObjectId, y: ObjectId)
    requires x != v && y != v
    ensures Before(Without(h, v), x, y) <==> Before(h, x, y)
  {
    if h == [] {
    } else {
      var init, last := h[..|h| - 1], h[|h| - 1];
      assert h == init + [last];
      WithoutKeepsOrder(init, v, x, y);
      BeforeSnoc(init, last, x, y);
      if last == v {
        assert Without(h, v) == Without(init, v);
      } else {
        WithoutMembers(init, v);
        BeforeSnoc(Without(init, v), last, x, y);
      }
    }
  }

  /** A watch event keeps the relative order of the other videos. */
  lemma MovedToFrontKeepsOrder(h: seq<ObjectId>, v: ObjectId, x: ObjectId, y: ObjectId)
    requires x != v && y != v
    ensures Before(MovedToFront(h, v), x, y) <==> Before(h, x, y)
  {
    var w := Without(h, v);
    var r := MovedToFront(h, v);
    WithoutKeepsOrder(h, v, x, y);
    if Before(r, x, y) {
      var i, j :| 0 <= i < j < |r| && r[i] == x && r[j] == y;
      assert i > 0;
      assert w[i - 1] == x && w[j - 1] == y;
    }
    if Before(w, x, y) {
      var i, j :| 0 <= i < j < |w| && w[i] == x && w[j] == y;
      assert r[i + 1] == x && r[j + 1] == y;
    }
  }

  /** Without, one element at the end. */
  lemma WithoutSnoc(s: seq<ObjectId>, x: ObjectId, v: ObjectId)
    ensures Without(s + [x], v) == Without(s, v) + (if x == v then [] else [x])
  {
    var sx := s + [x];
    assert sx[..|sx| - 1] == s && sx[|sx| - 1] == x;
  }

  /** Without distributes over concatenation. */
  lemma {:induction false} WithoutAppend(a: seq<ObjectId>, b: seq<ObjectId>, v: ObjectId)
    ensures Without(a + b, v) == Without(a, v) + Without(b, v)
  {
    if b == [] {
      assert a + b == a;
    } else {
      var init, last := b[..|b| - 1], b[|b| - 1];
      var ai := a + init;
      var tail := if last == v then [] else [last];
      assert b == init + [last];
      assert a + b == ai + [last];
      WithoutSnoc(ai, last, v);
      WithoutSnoc(init, last, v);
      WithoutAppend(a, init, v);
      assert Without(a + b, v) == (Without(a, v) + Without(init, v)) + tail;
    }
  }

  lemma {:induction false} WithoutAbsent(h: seq<ObjectId>, v: ObjectId)
    requires v !in h
    ensures Without(h, v) == h
  {
    if h != [] {
      var init := h[..|h| - 1];
      WithoutAbsent(init, v);
      assert h == init + [h[|h| - 1]];
    }
  }

  /** Watching the video at the front again changes nothing. */
  lemma MoveIdempotent(h: seq<ObjectId>, v: ObjectId)
    ensures MovedToFront(MovedToFront(h, v), v) == MovedToFront(h, v)
  {
    var w := Without(h, v);
    WithoutMembers(h, v);
    WithoutAppend([v], w, v);
    assert Without([v], v) == [] by {
      WithoutSnoc([], v, v);
    }
    WithoutAbsent(w, v);
    assert Without([v] + w, v) == w;
  }

  /** Watching v1, then v2, then v1 again leaves v1 first and v2 second. */
  lemma WatchSequence(h: seq<ObjectId>, v1: ObjectId, v2: ObjectId)
    requires v1 != v2
    ensures var r := MovedToFront(MovedToFront(MovedToFront(h, v1), v2), v1);
            |r| >= 2 && r[0] == v1 && r[1] == v2
  {
    var h1 := MovedToFront(h, v1);
    var h2 := MovedToFront(h1, v2);
    assert h2 == [v2] + Without(h1, v2);
    WithoutAppend([v2], Without(h1, v2), v1);
    assert Without([v2], v1) == [v2] by {
      WithoutSnoc([], v2, v1);
    }
    assert Without(h2, v1) == [v2] + Without(Without(h1, v2), v1);
  }

  /** A watch event keeps every history free of repeats and changes no other
      user's history. */
  lemma MoveKeepsDistinct(users: map<ObjectId, User>, u: ObjectId, v: ObjectId)
    requires HistoriesDistinct(users)
    ensures HistoriesDistinct(MoveInHistory(users, u, v))
  {
    if u in users {
      MovedToFrontShape(users[u].watchHistory, v);
    }
  }
}
