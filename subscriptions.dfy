/** The subscription controller: the toggle on a channel and the two lists
    read from the Subscription collection, a `RelationStore` whose scope is
    the (subscriber, channel) pair. */
module SubscriptionController {
  import opened Common
  import opened Models
  import opened Toggles

  type Subscription = Record<SubscriptionKey>

  /** The subscribers of `channel`. */
  function SubscribersOf(rs: set<Subscription>, channel: Id): set<Id> {
    set s | s in rs && s.key.channel == channel :: s.key.subscriber
  }

  /** The channels `subscriber` follows. */
  function ChannelsOf(rs: set<Subscription>, subscriber: Id): set<Id> {
    set s | s in rs && s.key.subscriber == subscriber :: s.key.channel
  }

  /** Toggling the pair (a, c) adds a to or removes a from the subscribers
      of c, and c to or from the channels of a; every other channel's
      subscribers and every other user's channels stay as they were. */
  lemma SubscriptionListsAfterToggle(rs: set<Subscription>, a: Id, c: Id, newId: Id, channel: Id, user: Id)
    ensures var t := Toggled(rs, SubscriptionKey(a, c), newId);
            SubscribersOf(t, channel) ==
              if channel != c then SubscribersOf(rs, channel)
              else if a in SubscribersOf(rs, c) then SubscribersOf(rs, c) - {a}
              else SubscribersOf(rs, c) + {a}
    ensures var t := Toggled(rs, SubscriptionKey(a, c), newId);
            ChannelsOf(t, user) ==
              if user != a then ChannelsOf(rs, user)
              else if c in ChannelsOf(rs, a) then ChannelsOf(rs, a) - {c}
              else ChannelsOf(rs, a) + {c}
  {
    var k := SubscriptionKey(a, c);
    assert k in Keys(rs) <==> a in SubscribersOf(rs, c) by {
      if a in SubscribersOf(rs, c) {
        var s :| s in rs && s.key.channel == c && s.key.subscriber == a;
        assert s.key == k;
      }
    }
    assert k in Keys(rs) <==> c in ChannelsOf(rs, a) by {
      if c in ChannelsOf(rs, a) {
        var s :| s in rs && s.key.subscriber == a && s.key.channel == c;
        assert s.key == k;
      }
    }
    var t := Toggled(rs, k, newId);
    if k !in Keys(rs) {
      assert Record(newId, k) in t;
    }
  }

  method ToggleSubscription(subs: RelationStore<SubscriptionKey>, channelId: Id, actor: Id, users: set<Id>,
                            isValidId: Id -> bool, newId: Id) returns (r: Result<Outcome>)
    requires subs.Valid() && newId !in Ids(subs.records)
    modifies subs
    ensures subs.Valid()
    ensures !isValidId(channelId) ==>
              r == Fail(ApiError(BAD_REQUEST, "Invalid channel ID")) && subs.records == old(subs.records)
    ensures isValidId(channelId) && channelId !in users ==>
              r == Fail(ApiError(NOT_FOUND, "Channel not found")) && subs.records == old(subs.records)
    ensures isValidId(channelId) && channelId in users ==>
              var k := SubscriptionKey(actor, channelId);
              r == Ok(if k in Keys(old(subs.records)) then Removed else Added) &&
              subs.records == Toggled(old(subs.records), k, newId)
  {
    if !isValidId(channelId) {
      return Fail(ApiError(BAD_REQUEST, "Invalid channel ID"));
    }
    if channelId !in users {
      return Fail(ApiError(NOT_FOUND, "Channel not found"));
    }
    var o := subs.Toggle(SubscriptionKey(actor, channelId), newId);
    r := Ok(o);
  }

  /** `getUserChannelSubscribers`: the subscription records of the channel. */
  method GetUserChannelSubscribers(subs: RelationStore<SubscriptionKey>, channelId: Id, users: set<Id>,
                                   isValidId: Id -> bool) returns (r: Result<set<Subscription>>)
    ensures !isValidId(channelId) ==> r == Fail(ApiError(BAD_REQUEST, "Invalid channel ID"))
    ensures isValidId(channelId) && channelId !in users ==> r == Fail(ApiError(NOT_FOUND, "Channel not found"))
    ensures isValidId(channelId) && channelId in users ==>
              r.Ok? && forall s :: s in r.value <==> s in subs.records && s.key.channel == channelId
  {
    if !isValidId(channelId) {
      return Fail(ApiError(BAD_REQUEST, "Invalid channel ID"));
    }
    if channelId !in users {
      return Fail(ApiError(NOT_FOUND, "Channel not found"));
    }
    r := Ok(set s | s in subs.records && s.key.channel == channelId);
  }

  /** `getSubscribedChannels`: the subscription records of the subscriber. */
  method GetSubscribedChannels(subs: RelationStore<SubscriptionKey>, subscriberId: Id, users: set<Id>,
                               isValidId: Id -> bool) returns (r: Result<set<Subscription>>)
    ensures !isValidId(subscriberId) ==> r == Fail(ApiError(BAD_REQUEST, "Invalid subscriber ID"))
    ensures isValidId(subscriberId) && subscriberId !in users ==> r == Fail(ApiError(NOT_FOUND, "Subscriber not found"))
    ensures isValidId(subscriberId) && subscriberId in users ==>
              r.Ok? && forall s :: s in r.value <==> s in subs.records && s.key.subscriber == subscriberId
  {
    if !isValidId(subscriberId) {
      return Fail(ApiError(BAD_REQUEST, "Invalid subscriber ID"));
    }
    if subscriberId !in users {
      return Fail(ApiError(NOT_FOUND, "Subscriber not found"));
    }
    r := Ok(set s | s in subs.records && s.key.subscriber == subscriberId);
  }
}
