/** The like controller: one toggle per kind of target, each guarded by the
    identifier check and the existence of the target, and the list of the
    caller's likes. The Like collection is a `RelationStore` whose scope is
    the target together with the liking user. */
module LikeController {
  import opened Common
  import opened Models
  import opened Toggles

  type Like = Record<LikeKey>

  /** The likes `user` has given, whatever their target. */
  function LikedBy(rs: set<Like>, user: Id): set<Like> {
    set l | l in rs && l.key.likedBy == user
  }

  /** A like toggle by `user` flips that one like among the user's likes;
      a toggle by someone else leaves the user's likes alone. */
  lemma LikedByAfterToggle(rs: set<Like>, k: LikeKey, newId: Id, user: Id)
    ensures k.likedBy != user ==> LikedBy(Toggled(rs, k, newId), user) == LikedBy(rs, user)
    ensures k.likedBy == user ==>
              Keys(LikedBy(Toggled(rs, k, newId), user)) ==
              if k in Keys(LikedBy(rs, user)) then Keys(LikedBy(rs, user)) - {k}
              else Keys(LikedBy(rs, user)) + {k}
  {
    var mine := LikedBy(rs, user);
    if k.likedBy == user {
      assert LikedBy(Toggled(rs, k, newId), user) == Toggled(mine, k, newId) by {
        assert k in Keys(rs) <==> k in Keys(mine) by {
          if k in Keys(rs) {
            var l :| l in rs && l.key == k;
            assert l in mine;
          }
        }
      }
      ToggleFlipsScope(mine, k, newId);
    }
  }

  method ToggleVideoLike(likes: RelationStore<LikeKey>, videoId: Id, actor: Id, videos: set<Id>,
                         isValidId: Id -> bool, newId: Id) returns (r: Result<Outcome>)
    requires likes.Valid() && newId !in Ids(likes.records)
    modifies likes
    ensures likes.Valid()
    ensures !isValidId(videoId) ==>
              r == Fail(ApiError(BAD_REQUEST, "Invalid video ID")) && likes.records == old(likes.records)
    ensures isValidId(videoId) && videoId !in videos ==>
              r == Fail(ApiError(NOT_FOUND, "Video not found")) && likes.records == old(likes.records)
    ensures isValidId(videoId) && videoId in videos ==>
              var k := LikeKey(VideoTarget(videoId), actor);
              r == Ok(if k in Keys(old(likes.records)) then Removed else Added) &&
              likes.records == Toggled(old(likes.records), k, newId)
  {
    if !isValidId(videoId) {
      return Fail(ApiError(BAD_REQUEST, "Invalid video ID"));
    }
    if videoId !in videos {
      return Fail(ApiError(NOT_FOUND, "Video not found"));
    }
    var o := likes.Toggle(LikeKey(VideoTarget(videoId), actor), newId);
    r := Ok(o);
  }

  method ToggleCommentLike(likes: RelationStore<LikeKey>, commentId: Id, actor: Id, comments: set<Id>,
                           isValidId: Id -> bool, newId: Id) returns (r: Result<Outcome>)
    requires likes.Valid() && newId !in Ids(likes.records)
    modifies likes
    ensures likes.Valid()
    ensures !isValidId(commentId) ==>
              r == Fail(ApiError(BAD_REQUEST, "Invalid comment ID")) && likes.records == old(likes.records)
    ensures isValidId(commentId) && commentId !in comments ==>
              r == Fail(ApiError(NOT_FOUND, "Comment not found")) && likes.records == old(likes.records)
    ensures isValidId(commentId) && commentId in comments ==>
              var k := LikeKey(CommentTarget(commentId), actor);
              r == Ok(if k in Keys(old(likes.records)) then Removed else Added) &&
              likes.records == Toggled(old(likes.records), k, newId)
  {
    if !isValidId(commentId) {
      return Fail(ApiError(BAD_REQUEST, "Invalid comment ID"));
    }
    if commentId !in comments {
      return Fail(ApiError(NOT_FOUND, "Comment not found"));
    }
    var o := likes.Toggle(LikeKey(CommentTarget(commentId), actor), newId);
    r := Ok(o);
  }

  method ToggleTweetLike(likes: RelationStore<LikeKey>, tweetId: Id, actor: Id, tweets: set<Id>,
                         isValidId: Id -> bool, newId: Id) returns (r: Result<Outcome>)
    requires likes.Valid() && newId !in Ids(likes.records)
    modifies likes
    ensures likes.Valid()
    ensures !isValidId(tweetId) ==>
              r == Fail(ApiError(BAD_REQUEST, "Invalid tweet ID")) && likes.records == old(likes.records)
    ensures isValidId(tweetId) && tweetId !in tweets ==>
              r == Fail(ApiError(NOT_FOUND, "Tweet not found")) && likes.records == old(likes.records)
    ensures isValidId(tweetId) && tweetId in tweets ==>
              var k := LikeKey(TweetTarget(tweetId), actor);
              r == Ok(if k in Keys(old(likes.records)) then Removed else Added) &&
              likes.records == Toggled(old(likes.records), k, newId)
  {
    if !isValidId(tweetId) {
      return Fail(ApiError(BAD_REQUEST, "Invalid tweet ID"));
    }
    if tweetId !in tweets {
      return Fail(ApiError(NOT_FOUND, "Tweet not found"));
    }
    var o := likes.Toggle(LikeKey(TweetTarget(tweetId), actor), newId);
    r := Ok(o);
  }

  /** `getLikedVideos`: every like of the caller, on videos, comments and
      tweets alike. */
  method GetLikedVideos(likes: RelationStore<LikeKey>, actor: Id) returns (r: set<Like>)
    ensures forall l :: l in r <==> l in likes.records && l.key.likedBy == actor
  {
    r := LikedBy(likes.records, actor);
  }
}
