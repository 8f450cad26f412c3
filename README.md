# Vidtube controllers in Dafny

This project models the request handlers of a video-sharing backend in
Dafny and proves properties of them. The backend has videos, playlists,
likes, subscriptions and tweets. Its documents live in a database, and its
media files live on a remote host (Cloudinary). Each handler follows the
same shape:

1. validate an identifier;
2. fetch a document;
3. check that the caller owns it;
4. change the collection;
5. answer.

Every `ApiError` the handlers throw is modelled as
`Fail(ApiError(status, message))`, with the code's status and message.
Request fields are typed as optional strings, so the 500 that Express gives
when a non-string `query`, `title` or `description` reaches `trim` is outside
the model.

The model is organised as follows.

- **Identifiers.** Ids are strings. Whether an id is well formed (Mongoose's
  `isValidObjectId`) is a predicate `isValidId` that each handler receives.
  The existence of documents in collections that a handler only reads is
  given as a `set<Id>`: users, videos, comments and tweets. The id that a
  created document gets is a `newId` parameter, which must be fresh.
- **Public ids (`PublicId`).** The extraction of a media host's public id
  from a delivery URL (`extractPublicId`) is a pure function over the URL's
  '/'-separated segments. These are the string steps it uses:
  - `split` / `join`;
  - `indexOf` of the first "upload" segment;
  - the `^v\d+$` version test;
  - the removal of the last extension (`\.[^/.]+$`).
- **Listing (`VideoListing`).** `getAllVideos` is modelled as the pipeline it
  builds, which runs as a function over a sequence of videos. The stages
  are:
  - an owner match;
  - a published match;
  - a case-insensitive text match;
  - the sort on the allowed field in the requested direction.

  A reference predicate `Selected` describes which videos a listing keeps.
  The listing returns exactly those, with their multiplicities, sorted.
- **Stores.** Each collection the handlers change is a class:
  - `VideoStore`, which also holds the set of public ids the media host
    stores;
  - `PlaylistStore`;
  - `TweetStore`;
  - the generic `RelationStore`, used for the Like and Subscription
    collections.

  The handlers are methods on these classes. Each method states its whole
  new state and every error case, in the order the code checks them.
- **Toggles (`Toggles`).** Likes and subscriptions share one toggle: find
  the record by its scope, then delete the record found or create one. The
  scope is (target, user) for a like and (subscriber, channel) for a
  subscription. "At most one record per scope" is an invariant of the
  collection. A toggle keeps it and flips only its own scope. Applied twice,
  it restores which scopes are present; it restores the collection itself
  only when the scope was absent, since a re-created record gets a fresh id.

Where the documented behaviour and the code differ, the model follows the
code.

- **URL without "upload".** `indexOf` gives -1 and every segment is kept.
  The id is therefore not missing: "folder/clip.mp4" gives "folder/clip".
- **Own channel.** An unpublished video is listed only when the query's
  `userId` is the caller's own id. Listing without a `userId` never shows
  unpublished videos, not even the caller's own.
- **View count.** `getVideoById` increments and saves the view count before
  it checks visibility. A request refused with 403 still counts a view.
- **Failed thumbnail replacement.** In `updateVideo`, the old thumbnail is
  deleted from the media host before the new one is uploaded. If the upload
  fails, the handler throws before saving. The stored video then keeps its
  reference to the deleted thumbnail, and the title and description edits
  of the same request are lost.
- **Empty public id.** A media delete happens only when the recovered
  public id is non-empty, both in the handlers' guard and in
  `deleteFromCloudinary`.

## Model

| member | source | states |
|---|---|---|
| `Common.Truthy` | src/controllers/tweet.controller.js:13 | JavaScript truthiness of an optional string: present and non-empty |
| `Common.IsOwner` | src/controllers/video.controller.js:205-207 | the ownership guard: a caller is present and is the owner |
| `Models.KeyedBy` | src/controllers/tweet.controller.js:48 | the collection invariant: every document is stored under its own id |
| `Text.Trim` | src/controllers/video.controller.js:132 | `String.prototype.trim`: both whitespace cuts in turn |
| `Text.Join` | src/controllers/video.controller.js:29 | `Array.prototype.join(sep)`: the segments with one separator between neighbours |
| `Text.ContainsIgnoreCase` | src/controllers/video.controller.js:74-75 | the `$options: "i"` match: the lower-cased query occurs in the lower-cased field |
| `Text.LexLe` | src/controllers/video.controller.js:102 | the string order `$sort` uses on titles: character by character, a prefix first |
| `PublicId.AfterMarker` | src/controllers/video.controller.js:20-21 | the segments after the first "upload", or every segment when there is none |
| `PublicId.DropVersion` | src/controllers/video.controller.js:23-25 | the segments without a leading version segment |
| `PublicId.FinishId` | src/controllers/video.controller.js:27-29 | null for no segments; otherwise the segments joined with '/' after the last one loses its extension |
| `PublicId.ExtractPublicId` | src/controllers/video.controller.js:15-33 | `extractPublicId`: null for a falsy URL, otherwise the three steps above on the URL's '/'-segments |
| `VideoListing.ResolveSortField` | src/controllers/video.controller.js:100-101 | the field `$sort` uses: the requested allowed one, else the creation time |
| `VideoListing.ResolveOrder` | src/controllers/video.controller.js:99 | ascending exactly for "asc", descending otherwise and by default |
| `VideoListing.Run` | src/controllers/video.controller.js:115-118 | `Video.aggregate(pipeline)`: the stages applied in order to the collection |
| `VideoListing.BuildPipeline` | src/controllers/video.controller.js:50-102 | the pipeline `getAllVideos` pushes: 400 for a malformed `userId`, else the owner, visibility and text matches and the sort |
| `VideoListing.ListVideos` | src/controllers/video.controller.js:40-118 | `getAllVideos` before pagination: the built pipeline run over the collection |
| `VideoListing.Selected` | src/controllers/video.controller.js:52-79 | reference predicate, independent of the pipeline: owned by the requested user if any, published or in the caller's own channel, and matching a non-blank query |
| `Toggles.Unique` | src/controllers/like.controller.js:20-25 | the collection invariant the toggles keep: at most one record per scope |
| `Toggles.Toggled` | src/controllers/like.controller.js:20-25 | find-then-delete-or-create: every record of the scope removed when there is one (under `Unique`, exactly the one `findOne` returns), else one new record with the fresh id added |
| `LikeController.LikedBy` | src/controllers/like.controller.js:70 | `Like.find({likedBy})`: the likes a user has given |
| `SubscriptionController.SubscribersOf` | src/controllers/subscription.controller.js:39 | the subscribers of a channel |
| `SubscriptionController.ChannelsOf` | src/controllers/subscription.controller.js:53 | the channels a user subscribes to |
| `TweetController.TweetsOf` | src/controllers/tweet.controller.js:36 | `Tweet.find({owner})`: the tweets a user owns |
| `PlaylistController.PlaylistsOf` | src/controllers/playlist.controller.js:36 | `Playlist.find({owner})`: the playlists a user owns |
| `PlaylistController.WellFormed` | src/controllers/playlist.controller.js:71-74 | the collection invariant: keyed by id, no video listed twice |
| `PlaylistController.Without` | src/controllers/playlist.controller.js:92 | `filter(video => video.toString() !== videoId.toString())`: the video list without every reference equal to that id (ids are compared as strings) |
| `VideoController.NonBlank` | src/controllers/video.controller.js:237-238 | the `title?.trim()` test: present and not whitespace only |
| `VideoController.PublishUploads` | src/controllers/video.controller.js:147-161 | the media host and the answer after each pair of upload outcomes, with the compensation for a failed thumbnail |
| `Text.TrimStart` | src/controllers/video.controller.js:132 | the leading-whitespace cut of `trim`: a suffix of the input, what was dropped is whitespace, and the result does not start with whitespace |
| `Text.TrimEnd` | src/controllers/video.controller.js:132 | the trailing-whitespace cut of `trim`: a prefix of the input, what was dropped is whitespace, and the result does not end with whitespace |
| `Text.TrimEmptyIffBlank` | src/controllers/video.controller.js:132 | `x.trim()` is empty exactly when `x` is whitespace only, so `!title?.trim()` rejects blank titles |
| `Text.TrimIdempotent` | src/controllers/video.controller.js:237-238 | trimming an already trimmed value changes nothing |
| `Text.Contains` | src/controllers/video.controller.js:74-75 | the text match holds exactly when the query occurs at some position of the field |
| `Text.Split` | src/controllers/video.controller.js:18 | `url.split("/")` gives at least one segment and no segment contains '/' |
| `Text.JoinSplit` | src/controllers/video.controller.js:18-29 | joining the segments of a split with the same separator gives the string back |
| `Text.SplitJoin` | src/controllers/video.controller.js:18-29 | splitting the join of '/'-free segments gives the segments back |
| `Text.LexLeTotal` | src/controllers/video.controller.js:102 | any two titles are ordered one way or the other |
| `Text.LexLeTransitive` | src/controllers/video.controller.js:102 | the title order is transitive |
| `Seqs.Filter` | src/controllers/playlist.controller.js:92 | the filtered sequence keeps exactly the elements satisfying the test, each as often as in the input |
| `Seqs.FilterConcat` | src/controllers/playlist.controller.js:92 | filtering keeps the relative order of the survivors: it distributes over concatenation |
| `Seqs.FilterKeepsAll` | src/controllers/playlist.controller.js:92 | a filter that every element passes returns the input unchanged |
| `Seqs.FilterNoDuplicates` | src/controllers/playlist.controller.js:92 | filtering a duplicate-free list leaves it duplicate-free |
| `Seqs.AppendNoDuplicates` | src/controllers/playlist.controller.js:71-74 | appending an absent element to a duplicate-free list keeps it duplicate-free |
| `PublicId.IndexOf` | src/controllers/video.controller.js:20 | `indexOf`: -1 exactly when the segment is absent, otherwise the first position holding it |
| `PublicId.StripExtension` | src/controllers/video.controller.js:28 | the last-extension removal returns a prefix, and changes the segment exactly when it ends in '.' followed by a non-empty run without '.' or '/' |
| `PublicId.ExtensionUnique` | src/controllers/video.controller.js:28 | a segment has at most one position where its final extension starts |
| `PublicId.StripFileExtension` | src/controllers/video.controller.js:28 | "name.ext" loses exactly ".ext" |
| `PublicId.ExtractAfterFirstMarker` | src/controllers/video.controller.js:15-33 | for a URL whose first "upload" segment splits it, the id is null exactly when nothing but possibly one version segment follows, and otherwise is the rest without the version and the last extension |
| `PublicId.ExtractWithoutMarker` | src/controllers/video.controller.js:20-29 | without any "upload" segment every segment is kept, and the id is null only for a URL that is a single version segment |
| `PublicId.DeliveryPathSeparatorFree` | src/controllers/video.controller.js:18 | the segments of a delivery path contain no '/' |
| `PublicId.DeliveryUrlSegments` | src/controllers/video.controller.js:18 | a delivery URL splits back into its prefix, the marker and its path |
| `PublicId.DeliveryUrlSplit` | src/controllers/video.controller.js:18 | a delivery URL built from folders and a file splits into exactly those pieces |
| `PublicId.DropVersionOfDeliveryPath` | src/controllers/video.controller.js:23-25 | a leading version segment is dropped, and a path without one is kept |
| `PublicId.FinishIdOfFile` | src/controllers/video.controller.js:27-29 | the final segment loses its extension and the segments are joined with '/' |
| `PublicId.ExtractFromDeliveryUrl` | src/controllers/video.controller.js:15-33 | the id of any delivery URL is its folders and file name without the extension, with or without a version segment |
| `PublicId.ExtractDocExample` | src/controllers/video.controller.js:12-13 | the documented example `.../upload/v123/myfolder/myvideo.mp4` gives "myfolder/myvideo" |
| `PublicId.DocUrlIsDeliveryUrl` | src/controllers/video.controller.js:12 | the documented example URL is a delivery URL with version v123 |
| `PublicId.ExtractVersionedExample` | src/controllers/video.controller.js:20-29 | whatever precedes it, `upload/v123/myfolder/myvideo.mp4` gives "myfolder/myvideo" |
| `PublicId.ExtractClipExamples` | src/controllers/video.controller.js:20-29 | `.../upload/v123/folder/clip.mp4` and `.../upload/folder/clip.mp4` both give "folder/clip" |
| `PublicId.ExtractWithoutMarkerExample` | src/controllers/video.controller.js:20-21 | "folder/clip.mp4", which has no "upload" segment, still gives "folder/clip" |
| `PublicId.ExtractNullCases` | src/controllers/video.controller.js:16-31 | an absent or empty URL gives null, and so does a URL ending at the marker or at the marker plus a version segment |
| `VideoListing.FieldNamesCorrespond` | src/controllers/video.controller.js:100 | the four allowed names and the four sort fields correspond one to one |
| `VideoListing.SafeSortBy` | src/controllers/video.controller.js:45-101 | the sort key is the requested one when allowed, and "createdAt" when it is absent or not allowed |
| `VideoListing.SortResolution` | src/controllers/video.controller.js:99-101 | the resolved field is the allowed requested one or the creation time; the order is ascending exactly for "asc" |
| `VideoListing.PrecedesTotal` | src/controllers/video.controller.js:102 | any two videos are comparable on every sort field, in both directions |
| `VideoListing.PrecedesTransitive` | src/controllers/video.controller.js:102 | the sort order is transitive |
| `VideoListing.ConsSorted` | src/controllers/video.controller.js:102 | a video that may precede all of a sorted sequence can head it |
| `VideoListing.PrecedesSortedTail` | src/controllers/video.controller.js:102 | what may precede the head of a sorted sequence may precede all of it |
| `VideoListing.SortedHead` | src/controllers/video.controller.js:102 | the head of a sorted sequence may precede its sorted tail |
| `VideoListing.PrecedesAllWith` | src/controllers/video.controller.js:102 | precedence over all elements survives a rearrangement that adds one more |
| `VideoListing.Insert` | src/controllers/video.controller.js:102 | insertion into a sorted sequence keeps it sorted and adds exactly that video |
| `VideoListing.SortBy` | src/controllers/video.controller.js:102 | the `$sort` stage returns a sorted rearrangement of its input |
| `VideoListing.Apply` | src/controllers/video.controller.js:53-102 | a stage keeps each video it lets through as often as it occurs, drops the others, and a sort stage returns them sorted |
| `VideoListing.RunMultiplicity` | src/controllers/video.controller.js:50-102 | a pipeline keeps a video, with its multiplicity, exactly when every stage lets it through |
| `VideoListing.AllKeepCons` | src/controllers/video.controller.js:50-102 | a pipeline lets a video through exactly when its first stage and the rest do |
| `VideoListing.RunSnoc` | src/controllers/video.controller.js:102 | the sort, pushed last, runs on what the matches left |
| `VideoListing.AllKeepConcat` | src/controllers/video.controller.js:50-102 | pushed stage groups let a video through exactly when each group does |
| `VideoListing.AllKeepSingle` | src/controllers/video.controller.js:50-102 | a one-stage group lets a video through exactly when the stage does |
| `VideoListing.OwnerStagesKeep` | src/controllers/video.controller.js:53-60 | with a `userId` only that user's videos pass; without one, all pass |
| `VideoListing.VisibilityStagesKeep` | src/controllers/video.controller.js:63-67 | a video passes exactly when it is published or the caller lists their own channel |
| `VideoListing.TextStagesKeep` | src/controllers/video.controller.js:70-79 | under a non-blank query a video passes exactly when its title or description matches; otherwise all pass |
| `VideoListing.PipelineSelects` | src/controllers/video.controller.js:52-102 | the built pipeline lets a video through exactly when the reference predicate `Selected` holds |
| `VideoListing.ListVideosContents` | src/controllers/video.controller.js:40-102 | the listing fails with 400 exactly for a present but malformed `userId`; otherwise it holds every selected video as often as in the collection, nothing else, sorted on the resolved field in the resolved order |
| `VideoListing.ListedOwnerMatches` | src/controllers/video.controller.js:53-60 | with a `userId`, every listed video is in the collection and belongs to that user |
| `VideoListing.ListedUnpublishedIsOwn` | src/controllers/video.controller.js:63-67 | a listed unpublished video is the caller's own and was asked for by its owner's id |
| `VideoListing.ListedMatchesText` | src/controllers/video.controller.js:70-79 | under a non-blank query every listed video matches it in title or description |
| `VideoListing.UnpublishedVisibility` | src/controllers/video.controller.js:63-67 | an unpublished video is never shown to another user, and is shown to its owner listing their own channel |
| `VideoListing.UnknownSortFieldFallsBack` | src/controllers/video.controller.js:101 | an unknown sort field sorts on the creation time |
| `VideoListing.ListingOfPublished` | src/controllers/video.controller.js:63-102 | without owner and text filters, published videos are listed whole, sorted |
| `VideoListing.DurationDescendingExample` | src/controllers/video.controller.js:99-102 | listing three published videos by "duration", "desc" orders them 30, 20, 10 |
| `Toggles.ToggleFlipsScope` | src/controllers/like.controller.js:20-26 | a toggle removes its scope when present and adds it when absent, and no other scope appears or disappears |
| `Toggles.ToggleKeepsOtherScopes` | src/controllers/like.controller.js:20-25 | records of every other scope are neither created nor deleted |
| `Toggles.ToggleChangesOneRecord` | src/controllers/like.controller.js:20-25 | the toggle deletes exactly the one record found, or creates exactly one new record |
| `Toggles.TogglePreservesUnique` | src/controllers/like.controller.js:20-25 | at most one record per scope before implies at most one after |
| `Toggles.ToggleTwice` | src/controllers/like.controller.js:20-26 | toggling a scope twice restores which scopes are present, and restores the collection itself when the scope was absent |
| `Toggles.RelationStore.Toggle` | src/controllers/like.controller.js:20-25 | `findOne` then `findByIdAndDelete` or `create`: the new collection is the toggled one, the outcome says which, and uniqueness is kept |
| `LikeController.LikedByAfterToggle` | src/controllers/like.controller.js:20-26 | a user's own toggle flips that one like among their likes; another user's toggle leaves their likes alone |
| `LikeController.ToggleVideoLike` | src/controllers/like.controller.js:10-27 | 400 for a malformed id and 404 for a missing video, both with the likes unchanged; otherwise the (video, user) like is toggled |
| `LikeController.ToggleCommentLike` | src/controllers/like.controller.js:29-46 | the same for comments: 400, then 404 "Comment not found", then the toggle |
| `LikeController.ToggleTweetLike` | src/controllers/like.controller.js:48-65 | the same for tweets: 400, then 404 "Tweet not found", then the toggle |
| `LikeController.GetLikedVideos` | src/controllers/like.controller.js:67-72 | exactly the caller's likes, of every target kind |
| `SubscriptionController.SubscriptionListsAfterToggle` | src/controllers/subscription.controller.js:20-25 | toggling (a, c) flips a among c's subscribers and c among a's channels, and leaves every other channel's subscribers and user's channels alone |
| `SubscriptionController.ToggleSubscription` | src/controllers/subscription.controller.js:9-27 | 400 for a malformed channel id and 404 for a missing channel, with the set unchanged; otherwise the (caller, channel) pair is toggled |
| `SubscriptionController.GetUserChannelSubscribers` | src/controllers/subscription.controller.js:30-41 | after the 400/404 checks, exactly the subscriptions to the channel |
| `SubscriptionController.GetSubscribedChannels` | src/controllers/subscription.controller.js:44-55 | after the 400/404 checks, exactly the subscriptions of the subscriber |
| `TweetController.TweetsOfAfterCreate` | src/controllers/tweet.controller.js:17-20 | creating a tweet adds it to its owner's tweets and to no one else's |
| `TweetController.TweetsOfAfterDelete` | src/controllers/tweet.controller.js:74 | deleting a tweet removes it from its owner's tweets and changes no one else's |
| `TweetController.TweetStore.CreateTweet` | src/controllers/tweet.controller.js:8-24 | missing or empty content gives 400 and creates nothing; otherwise one tweet owned by the caller is added |
| `TweetController.TweetStore.GetUserTweets` | src/controllers/tweet.controller.js:26-38 | 400 for a malformed id, 404 for a missing user, otherwise exactly the tweets the user owns |
| `TweetController.TweetStore.UpdateTweet` | src/controllers/tweet.controller.js:40-58 | 400, 404, then 403 for a non-owner with the tweet unchanged; the owner's call replaces only the content |
| `TweetController.TweetStore.DeleteTweet` | src/controllers/tweet.controller.js:60-76 | 400, 404, then 403 for a non-owner with the tweet kept; the owner's call leaves no tweet with that id |
| `PlaylistController.WithoutRemovesAll` | src/controllers/playlist.controller.js:92 | removal drops every occurrence of the video, keeps every other reference with its multiplicity and in order, and changes nothing when the video is absent |
| `PlaylistController.RemoveUndoesAdd` | src/controllers/playlist.controller.js:74-92 | appending an absent video and then removing it gives the list back |
| `PlaylistController.PlaylistStore.CreatePlaylist` | src/controllers/playlist.controller.js:10-24 | a missing or empty name gives 400; otherwise an empty playlist owned by the caller is created |
| `PlaylistController.PlaylistStore.GetUserPlaylists` | src/controllers/playlist.controller.js:26-38 | 400 for a malformed id, 404 for a missing user, otherwise exactly the playlists the user owns |
| `PlaylistController.PlaylistStore.GetPlaylistById` | src/controllers/playlist.controller.js:40-52 | 400 for a malformed id, 404 for a missing playlist, otherwise that playlist |
| `PlaylistController.PlaylistStore.AddVideoToPlaylist` | src/controllers/playlist.controller.js:54-77 | checks ids (400), playlist (404), owner (403), video (404) and duplicate (400) in that order, changing nothing on failure; otherwise appends the video once, keeping the list duplicate-free |
| `PlaylistController.PlaylistStore.RemoveVideoFromPlaylist` | src/controllers/playlist.controller.js:79-95 | checks ids, playlist and owner (403) but not the video's existence; otherwise filters every occurrence of the video out |
| `PlaylistController.PlaylistStore.DeletePlaylist` | src/controllers/playlist.controller.js:97-113 | 400, 404, then 403 for a non-owner with the playlist kept; the owner's call leaves no playlist with that id |
| `PlaylistController.PlaylistStore.UpdatePlaylist` | src/controllers/playlist.controller.js:115-133 | 400, 404, then 403 for a non-owner with nothing changed; the owner's call overwrites name and description, even with absent values, and keeps the rest |
| `VideoController.Destroy` | src/controllers/video.controller.js:243-246 | a delete by a falsy id removes nothing; otherwise exactly that id is removed from the media host |
| `VideoController.DestroyByDeliveryUrl` | src/controllers/video.controller.js:295-308 | deleting by a stored delivery URL removes exactly the object that URL names (its folders and file name) |
| `VideoController.JoinNonEmpty` | src/controllers/video.controller.js:29 | the id of a named file is never empty, so its delete is never skipped |
| `VideoController.PartialUpdate` | src/controllers/video.controller.js:237-238 | title and description are replaced by their trimmed new values exactly when those are non-blank; no other field changes |
| `VideoController.PartialUpdateIdempotent` | src/controllers/video.controller.js:237-238 | applying the same edit twice equals applying it once |
| `VideoController.PartialUpdateStoresTrimmed` | src/controllers/video.controller.js:237 | a replaced title is trimmed and non-empty |
| `VideoController.Flipped` | src/controllers/video.controller.js:340 | the publish flag is negated and nothing else changes |
| `VideoController.FlipTwice` | src/controllers/video.controller.js:340 | toggling publish status twice restores the video |
| `VideoController.PublishRefusal` | src/controllers/video.controller.js:132-145 | blank title or description, then missing video file, then missing thumbnail (400), then unknown user (404); the request proceeds exactly when none applies |
| `VideoController.CompensatedUpload` | src/controllers/video.controller.js:157-161 | the compensating delete of the just uploaded video leaves the media host as it was before the upload minus that id, which is exactly the old set when the id was new; an empty id is never deleted, so it stays stored |
| `VideoController.VideoStore.PublishAVideo` | src/controllers/video.controller.js:128-180 | a refused request changes nothing; a failed video upload stores nothing; a failed thumbnail upload deletes the video again and creates no record; otherwise one video with the trimmed texts, both URLs, the schema's default view count and publish flag, and the caller as owner is created |
| `VideoController.VideoStore.UploadAndCreate` | src/controllers/video.controller.js:147-175 | the upload phase: the media host gains both objects and the record is created, or the compensations above apply |
| `VideoController.VideoStore.GetVideoById` | src/controllers/video.controller.js:186-212 | 400, 404; an existing video's views go up by exactly one and are saved, then 403 if it is unpublished and the caller is not its owner |
| `VideoController.VideoStore.UpdateVideo` | src/controllers/video.controller.js:218-261 | 400, 404, then 403 for a non-owner with nothing changed; the owner's call applies the partial edit and, with a new file, replaces the thumbnail after deleting the old one |
| `VideoController.VideoStore.ReplaceThumbnail` | src/controllers/video.controller.js:241-256 | the old thumbnail is deleted first; a failed upload gives 500 with the video unsaved and the old object gone; otherwise the new URL is saved |
| `VideoController.VideoStore.DeleteVideo` | src/controllers/video.controller.js:267-317 | 400, 404, then 403 for a non-owner with nothing changed; the owner's call deletes the video file and the thumbnail from the media host and removes the record |
| `VideoController.VideoStore.TogglePublishStatus` | src/controllers/video.controller.js:323-350 | 400, 404, then 403 for a non-owner with nothing changed; the owner's call negates the flag and answers with its new value |

## Left out

- Pagination: `aggregatePaginate`, page, limit and labels. The listing model stops after the sort.
- The `$lookup` owner join and `populate`. The `$addFields` stage replaces each listed video's `owner` with the owner's user document; the model keeps the owner id instead. A video whose owner document is missing, which would make `video.owner._id` throw in `getVideoById`, is not modelled.
- `VideoListing.ListedMatchesText`: the query is read as a plain substring, compared case-insensitively on ASCII letters, not as a regular expression with Unicode case folding.
- `VideoListing.ListVideosContents`: the order of videos with equal sort keys is left open, as MongoDB's `$sort` promises nothing about it. The reference sort happens to keep input order, but no contract states that.
- `VideoController.VideoStore.PublishAVideo`: the host's duration is taken as an already rounded integer or as absent. `Math.round` on floats and the NaN test are not modelled.
- `VideoController.VideoStore.PublishAVideo`: whether new videos start published, and the view count they start with, are the schema's defaults, since `Video.create` passes neither. The model holds them as the constants `publishedByDefault` and `viewsByDefault`, because the schema is not part of this model.
- Database schema validation on save, ObjectId casting and string normalisation of ids. Ids are compared as strings.
- Uploads and deletes happen on the remote media host. An upload's outcome is an input. A delete is assumed to succeed: the code catches and ignores delete failures. The resource kind ("image" or "video") is not modelled.
- Temporary local files and their removal after each upload.
- Concurrency: two toggles or two updates interleaving between their read and their write.
- The caller of the playlist handlers is always present (an `Id`), because src/routes/playlist.routes.js:15 applies the JWT middleware to all of them. Without a caller, `req.user?._id.toString()` would be `undefined` and the four ownership guards would answer 403.
- The caller of the like, subscription and tweet handlers is assumed present (an `Id`). Their routes are not part of this model, so nothing shows the JWT middleware in front of them.
- The video controller's caller is optional, as the code reads `req.user?._id`.
- Response formatting (`ApiResponse`, status 200/201, success messages), `asyncHandler` and console logging.
- Route wiring (src/routes/playlist.routes.js) and the media host wrapper (src/utils/cloudinary.js) beyond the empty-id guard of its delete.
