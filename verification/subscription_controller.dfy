/** `toggleSubscribeChannel`: the caller's subscription to a channel is
    removed when it exists and created when it does not. */
module SubscriptionController {
  import opened Common
  import opened ObjectIds
  import opened SubscriptionModel
  import opened Store

  datatype SubscriptionOutcome = ChannelSubscribed | ChannelUnsubscribed

  /** The subscriptions after the toggle of (subscriber, channel). */
  function ToggledSubscriptions(subs: set<Subscription>, subscriber: ObjectId, channel: ObjectId, now: Time)
    : set<Subscription>
  {
    if Subscribed(subs, subscriber, channel) then subs - (set s | s in subs && IsEdge(s, subscriber, channel))
    else subs + {NewSubscription(subscriber, channel, now)}
  }

  lemma EdgeIsUnique(subs: set<Subscription>, subscriber: ObjectId, channel: ObjectId, s: Subscription)
    requires SubscriptionsUnique(subs)
    requires s in subs && IsEdge(s, subscriber, channel)
    ensures (set t | t in subs && IsEdge(t, subscriber, channel)) == {s}
  {
  }

  /** The toggle flips whether `subscriber` follows `channel`, and leaves
      every other edge as it was. */
  lemma ToggleFlipsSubscribed(subs: set<Subscription>, subscriber: ObjectId, channel: ObjectId, now: Time)
    ensures Subscribed(ToggledSubscriptions(subs, subscriber, channel, now), subscriber, channel)
            <==> !Subscribed(subs, subscriber, channel)
    ensures forall s | !IsEdge(s, subscriber, channel)
              :: s in ToggledSubscriptions(subs, subscriber, channel, now) <==> s in subs
  {
    if !Subscribed(subs, subscriber, channel) {
      assert NewSubscription(subscriber, channel, now) in ToggledSubscriptions(subs, subscriber, channel, now);
    }
  }

  /** The toggle keeps the index on (subscriber, channel) satisfied. */
  lemma ToggleKeepsUnique(subs: set<Subscription>, subscriber: ObjectId, channel: ObjectId, now: Time)
    requires SubscriptionsUnique(subs)
    ensures SubscriptionsUnique(ToggledSubscriptions(subs, subscriber, channel, now))
  {
    if !Subscribed(subs, subscriber, channel) {
      var n := NewSubscription(subscriber, channel, now);
      var r := subs + {n};
      forall a, b | a in r && b in r && a.subscriber == b.subscriber && a.channel == b.channel
        ensures a == b
      {
        if a == n && b != n {
          assert IsEdge(b, subscriber, channel);
        }
      }
    }
  }

  /** From the state without the edge, toggling twice is the identity. */
  lemma ToggleTwiceFromAbsent(subs: set<Subscription>, subscriber: ObjectId, channel: ObjectId, t1: Time, t2: Time)
    requires !Subscribed(subs, subscriber, channel)
    ensures ToggledSubscriptions(ToggledSubscriptions(subs, subscriber, channel, t1), subscriber, channel, t2) == subs
  {
    var n := NewSubscription(subscriber, channel, t1);
    var once := subs + {n};
    assert Subscribed(once, subscriber, channel);
    assert (set s | s in once && IsEdge(s, subscriber, channel)) == {n};
  }

  /** From the state with the edge, toggling twice gives back the edge with
      the second time as its `subscribedAt`. */
  lemma ToggleTwiceFromPresent(subs: set<Subscription>, subscriber: ObjectId, channel: ObjectId,
                               t1: Time, t2: Time, s: Subscription)
    requires SubscriptionsUnique(subs)
    requires s in subs && IsEdge(s, subscriber, channel)
    ensures ToggledSubscriptions(ToggledSubscriptions(subs, subscriber, channel, t1), subscriber, channel, t2)
            == subs - {s} + {NewSubscription(subscriber, channel, t2)}
  {
    EdgeIsUnique(subs, subscriber, channel, s);
    var once := ToggledSubscriptions(subs, subscriber, channel, t1);
    assert once == subs - {s};
    assert !Subscribed(once, subscriber, channel);
  }

  /** The request: `channelParam` is the raw route parameter, `user` the
      caller. The lookups of the channel and of the caller fetch documents
      the rest of the handler never reads; only the cast of the channel
      identifier, which rejects a malformed one, affects the outcome. A
      channel equal to the caller is accepted like any other. */
  method ToggleSubscribeChannel(db: Store, user: ObjectId, channelParam: string, now: Time)
    returns (r: Result<SubscriptionOutcome>)
    requires db.Valid()
    modifies db
    ensures db.Valid()
    ensures channelParam == "" ==> r == Err(BadRequest)
    ensures channelParam != "" && !IsValid(channelParam) ==> r == Err(Internal)
    ensures r.Ok? <==> IsValid(channelParam)
    ensures r.Err? ==> db.subscriptions == old(db.subscriptions)
    ensures r.Ok? ==>
              var c := Cast(channelParam).value;
              && db.subscriptions == ToggledSubscriptions(old(db.subscriptions), user, c, now)
              && (r.value == ChannelUnsubscribed <==> Subscribed(old(db.subscriptions), user, c))
    ensures db.videos == old(db.videos) && db.likes == old(db.likes)
    ensures db.views == old(db.views) && db.users == old(db.users)
  {
    if channelParam == "" {
      return Err(BadRequest);
    }
    var cast := Cast(channelParam);
    if cast.None? {
      return Err(Internal);
    }
    var c := cast.value;
    ToggleKeepsUnique(db.subscriptions, user, c, now);
    if s :| s in db.subscriptions && IsEdge(s, user, c) {
      EdgeIsUnique(db.subscriptions, user, c, s);
      db.subscriptions := db.subscriptions - {s};
      return Ok(ChannelUnsubscribed);
    }
    db.subscriptions := db.subscriptions + {NewSubscription(user, c, now)};
    return Ok(ChannelSubscribed);
  }
}
