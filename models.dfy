/** The documents of the five collections the controllers work on. Each is a
    value; the collections holding them are the store classes of the
    controller modules. */
module Models {
  import opened Common

  /** A published video. `videoFile` and `thumbnail` are the delivery URLs
      the media host returned; `duration` is in whole seconds. */
  datatype Video = Video(
    id: Id,
    title: string,
    description: string,
    videoFile: string,
    thumbnail: string,
    duration: int,
    views: nat,
    isPublished: bool,
    owner: Id,
    createdAt: int)

  /** A playlist: its video references in order. `name` and `description`
      are optional because `updatePlaylist` stores whatever the request
      body carries, absent values included. */
  datatype Playlist = Playlist(
    id: Id,
    name: Option<string>,
    description: Option<string>,
    owner: Id,
    videos: seq<Id>)

  /** A tweet; `content` is whatever the last create or update stored. */
  datatype Tweet = Tweet(id: Id, content: Option<string>, owner: Id)

  /** What a like points at: exactly one of a video, a comment or a tweet. */
  datatype Target = VideoTarget(video: Id) | CommentTarget(comment: Id) | TweetTarget(tweet: Id)

  /** The scope a like is looked up by: its target and the liking user. */
  datatype LikeKey = LikeKey(target: Target, likedBy: Id)

  /** The scope a subscription is looked up by. */
  datatype SubscriptionKey = SubscriptionKey(subscriber: Id, channel: Id)

  /** Every document of the collection is stored under its own id. */
  predicate KeyedBy<T>(m: map<Id, T>, idOf: T -> Id) {
    forall k :: k in m ==> idOf(m[k]) == k
  }
}
