/** The Subscription document: an edge from a subscriber to a channel (both
    users), unique per pair. */
module SubscriptionModel {
  import opened Common
  import opened ObjectIds

  datatype Subscription = Subscription(subscriber: ObjectId, channel: ObjectId, subscribedAt: Time)

  predicate IsEdge(s: Subscription, subscriber: ObjectId, channel: ObjectId)
  {
    s.subscriber == subscriber && s.channel == channel
  }

  /** The unique index on (subscriber, channel). */
  predicate SubscriptionsUnique(subs: set<Subscription>)
  {
    forall a, b | a in subs && b in subs && a.subscriber == b.subscriber && a.channel == b.channel
      :: a == b
  }

  /** The document `Subscription.create({ channel, subscriber })` inserts:
      `subscribedAt` takes its default, the time of creation. No rule forbids
      a user subscribing to their own channel. */
  function NewSubscription(subscriber: ObjectId, channel: ObjectId, now: Time): (s: Subscription)
    ensures IsEdge(s, subscriber, channel) && s.subscribedAt == now
  {
    Subscription(subscriber, channel, now)
  }

  predicate Subscribed(subs: set<Subscription>, subscriber: ObjectId, channel: ObjectId)
  {
    exists s | s in subs :: IsEdge(s, subscriber, channel)
  }

  /** The channels user `u` subscribes to. */
  function ChannelsOf(subs: set<Subscription>, u: ObjectId): (r: set<ObjectId>)
    ensures forall c :: c in r <==> Subscribed(subs, u, c)
  {
    set s | s in subs && s.subscriber == u :: s.channel
  }

  /** A self-subscription is a well-formed edge and satisfies the index. */
  lemma SelfSubscriptionAllowed(u: ObjectId, now: Time)
    ensures var s := NewSubscription(u, u, now);
            s.subscriber == s.channel && SubscriptionsUnique({s})
  {
  }
}
