/** The tweet controller over the Tweet collection, a map from id to tweet.
    Every mutation of an existing tweet is guarded by the identifier check,
    the existence of the tweet and the ownership guard, in that order; a
    failed guard changes nothing. */
module TweetController {
  import opened Common
  import opened Models

  /** The tweets owned by `user`. */
  function TweetsOf(m: map<Id, Tweet>, user: Id): set<Tweet> {
    set t | t in m.Values && t.owner == user
  }

  /** A created tweet joins the tweets of its owner only. */
  lemma TweetsOfAfterCreate(m: map<Id, Tweet>, t: Tweet, user: Id)
    requires t.id !in m
    ensures TweetsOf(m[t.id := t], user) == if t.owner == user then TweetsOf(m, user) + {t} else TweetsOf(m, user)
  {
    assert m[t.id := t].Values == m.Values + {t} by {
      forall x | x in m.Values ensures x in m[t.id := t].Values {
        var k :| k in m && m[k] == x;
        assert m[t.id := t][k] == x;
      }
      forall x | x in m[t.id := t].Values ensures x == t || x in m.Values {
        var k :| k in m[t.id := t] && m[t.id := t][k] == x;
        if k != t.id {
          assert m[k] == x;
        }
      }
      assert m[t.id := t][t.id] == t;
    }
  }

  /** A deleted tweet leaves the tweets of its owner and no other tweet. */
  lemma TweetsOfAfterDelete(m: map<Id, Tweet>, id: Id, user: Id)
    requires KeyedBy(m, (t: Tweet) => t.id) && id in m
    ensures TweetsOf(m - {id}, user) == TweetsOf(m, user) - {m[id]}
  {
    forall x | x in TweetsOf(m, user) && x != m[id] ensures x in TweetsOf(m - {id}, user) {
      var k :| k in m && m[k] == x;
      assert (m - {id})[k] == x;
    }
    forall x | x in TweetsOf(m - {id}, user) ensures x != m[id] {
      var k :| k in m - {id} && (m - {id})[k] == x;
    }
  }

  class TweetStore {
    var tweets: map<Id, Tweet>

    predicate Valid()
      reads this
    {
      KeyedBy(tweets, (t: Tweet) => t.id)
    }

    constructor ()
      ensures Valid() && tweets == map[]
    {
      tweets := map[];
    }

    /** `createTweet`: missing or empty content is refused; otherwise one
        tweet owned by the caller is created under `newId`. */
    method CreateTweet(content: Option<string>, actor: Id, newId: Id) returns (r: Result<Tweet>)
      requires Valid() && newId !in tweets
      modifies this
      ensures Valid()
      ensures !Truthy(content) ==> r == Fail(ApiError(BAD_REQUEST, "Content is required")) && tweets == old(tweets)
      ensures Truthy(content) ==> r == Ok(Tweet(newId, content, actor)) && tweets == old(tweets)[newId := r.value]
    {
      if !Truthy(content) {
        return Fail(ApiError(BAD_REQUEST, "Content is required"));
      }
      var t := Tweet(newId, content, actor);
      tweets := tweets[newId := t];
      r := Ok(t);
    }

    /** `getUserTweets`: exactly the tweets the user owns. */
    method GetUserTweets(userId: Id, users: set<Id>, isValidId: Id -> bool) returns (r: Result<set<Tweet>>)
      ensures !isValidId(userId) ==> r == Fail(ApiError(BAD_REQUEST, "Invalid user ID"))
      ensures isValidId(userId) && userId !in users ==> r == Fail(ApiError(NOT_FOUND, "User not found"))
      ensures isValidId(userId) && userId in users ==>
                r.Ok? && forall t :: t in r.value <==> t in tweets.Values && t.owner == userId
    {
      if !isValidId(userId) {
        return Fail(ApiError(BAD_REQUEST, "Invalid user ID"));
      }
      if userId !in users {
        return Fail(ApiError(NOT_FOUND, "User not found"));
      }
      r := Ok(TweetsOf(tweets, userId));
    }

    /** `updateTweet`: the owner's call stores the given content, absent or
        not, and keeps the id and the owner. */
    method UpdateTweet(tweetId: Id, content: Option<string>, actor: Id, isValidId: Id -> bool) returns (r: Result<Tweet>)
      requires Valid()
      modifies this
      ensures Valid()
      ensures !isValidId(tweetId) ==> r == Fail(ApiError(BAD_REQUEST, "Invalid tweet ID")) && tweets == old(tweets)
      ensures isValidId(tweetId) && tweetId !in old(tweets) ==>
                r == Fail(ApiError(NOT_FOUND, "Tweet not found")) && tweets == old(tweets)
      ensures isValidId(tweetId) && tweetId in old(tweets) && old(tweets)[tweetId].owner != actor ==>
                r == Fail(ApiError(FORBIDDEN, "Unauthorized to update this tweet")) && tweets == old(tweets)
      ensures isValidId(tweetId) && tweetId in old(tweets) && old(tweets)[tweetId].owner == actor ==>
                r.Ok? && r.value.id == tweetId && r.value.owner == actor && r.value.content == content &&
                tweets == old(tweets)[tweetId := r.value]
    {
      if !isValidId(tweetId) {
        return Fail(ApiError(BAD_REQUEST, "Invalid tweet ID"));
      }
      if tweetId !in tweets {
        return Fail(ApiError(NOT_FOUND, "Tweet not found"));
      }
      var t := tweets[tweetId];
      if t.owner != actor {
        return Fail(ApiError(FORBIDDEN, "Unauthorized to update this tweet"));
      }
      t := t.(content := content);
      tweets := tweets[tweetId := t];
      r := Ok(t);
    }

    /** `deleteTweet`: the owner's call leaves no tweet with that id. */
    method DeleteTweet(tweetId: Id, actor: Id, isValidId: Id -> bool) returns (r: Result<()>)
      requires Valid()
      modifies this
      ensures Valid()
      ensures !isValidId(tweetId) ==> r == Fail(ApiError(BAD_REQUEST, "Invalid tweet ID")) && tweets == old(tweets)
      ensures isValidId(tweetId) && tweetId !in old(tweets) ==>
                r == Fail(ApiError(NOT_FOUND, "Tweet not found")) && tweets == old(tweets)
      ensures isValidId(tweetId) && tweetId in old(tweets) && old(tweets)[tweetId].owner != actor ==>
                r == Fail(ApiError(FORBIDDEN, "Unauthorized to delete this tweet")) && tweets == old(tweets)
      ensures isValidId(tweetId) && tweetId in old(tweets) && old(tweets)[tweetId].owner == actor ==>
                r == Ok(()) && tweets == old(tweets) - {tweetId}
    {
      if !isValidId(tweetId) {
        return Fail(ApiError(BAD_REQUEST, "Invalid tweet ID"));
      }
      if tweetId !in tweets {
        return Fail(ApiError(NOT_FOUND, "Tweet not found"));
      }
      if tweets[tweetId].owner != actor {
        return Fail(ApiError(FORBIDDEN, "Unauthorized to delete this tweet"));
      }
      tweets := tweets - {tweetId};
      r := Ok(());
    }
  }
}
