/** The mutating handlers of the video controller: publishing with its
    compensating delete, reading with the view increment, the partial update,
    deletion together with the stored media, and the publish flag. The Video
    collection is a map from id to video; the media host is the set of
    public ids it currently stores, and each upload's outcome is an input. */
module VideoController {
  import opened Common
  import opened Text
  import opened Models
  import opened PublicId

  /** What `uploadOnCloudinary` answered: nothing (the upload failed), or
      the stored object's public id, its delivery URL and, for a video, its
      length when the host reported a number (already rounded). */
  datatype Upload = UploadFailed | Uploaded(publicId: string, secureUrl: string, duration: Option<int>)

  /** `x?.trim()` is truthy: present and not whitespace only. */
  predicate NonBlank(s: Option<string>) {
    s.Some? && Trim(s.value) != ""
  }

  /** `deleteFromCloudinary(publicId)`: a falsy id deletes nothing. */
  function Destroy(media: set<string>, publicId: Option<string>): (m: set<string>)
    ensures m <= media
    ensures forall x :: x in media - m <==> Truthy(publicId) && x == publicId.value && x in media
  {
    if Truthy(publicId) then media - {publicId.value} else media
  }

  /** The object a stored delivery URL refers to is what deleting by that
      URL removes from the media host, with or without a version segment. */
  lemma DestroyByDeliveryUrl(media: set<string>, prefix: seq<string>, version: Option<string>,
                             folders: seq<string>, name: string, ext: string)
    requires SeparatorFree(prefix, '/') && SeparatorFree(folders, '/')
    requires '/' !in name
    requires UPLOAD_MARKER !in prefix
    requires version.Some? ==> IsVersionSegment(version.value)
    requires version.None? && folders != [] ==> !IsVersionSegment(folders[0])
    requires IsExtension("." + ext)
    requires name != ""
    ensures Destroy(media, ExtractPublicId(Some(DeliveryUrl(prefix, version, folders, name, ext)))) ==
            media - {Join(folders + [name], '/')}
  {
    ExtractFromDeliveryUrl(prefix, version, folders, name, ext);
    JoinNonEmpty(folders, name);
  }

  /** A join ending in a non-empty piece is non-empty. */
  lemma {:induction false} JoinNonEmpty(folders: seq<string>, name: string)
    requires name != ""
    ensures Join(folders + [name], '/') != ""
  {
    if folders == [] {
      assert folders + [name] == [name];
    } else {
      JoinSnoc(folders, name, '/');
    }
  }

  /** `updateVideo`'s text edits: a field is replaced by the trimmed new
      value exactly when that is non-blank, and kept otherwise; no other
      field changes. */
  function PartialUpdate(v: Video, title: Option<string>, description: Option<string>): (w: Video)
    ensures w.(title := v.title, description := v.description) == v
    ensures w.title == if NonBlank(title) then Trim(title.value) else v.title
    ensures w.description == if NonBlank(description) then Trim(description.value) else v.description
  {
    var v1 := if NonBlank(title) then v.(title := Trim(title.value)) else v;
    if NonBlank(description) then v1.(description := Trim(description.value)) else v1
  }

  /** Repeating the same update changes nothing more. */
  lemma PartialUpdateIdempotent(v: Video, title: Option<string>, description: Option<string>)
    ensures PartialUpdate(PartialUpdate(v, title, description), title, description) == PartialUpdate(v, title, description)
  {
  }

  /** A non-blank field stored by an update is trimmed and stays non-blank. */
  lemma PartialUpdateStoresTrimmed(v: Video, title: Option<string>, description: Option<string>)
    requires NonBlank(title)
    ensures var w := PartialUpdate(v, title, description);
            Trim(w.title) == w.title && w.title != ""
  {
    TrimIdempotent(title.value);
  }

  /** The publish flag flipped; nothing else changes. */
  function Flipped(v: Video): (w: Video)
    ensures w.isPublished == !v.isPublished
    ensures w.(isPublished := v.isPublished) == v
  {
    v.(isPublished := !v.isPublished)
  }

  /** Flipping twice restores the video. */
  lemma FlipTwice(v: Video)
    ensures Flipped(Flipped(v)) == v
  {
    var w := Flipped(v);
    assert w.(isPublished := v.isPublished) == v;
  }

  /** The checks `publishAVideo` makes before any upload, in order: the
      error thrown, or None when the request may proceed. */
  function PublishRefusal(title: Option<string>, description: Option<string>, hasVideoFile: bool,
                          hasThumbnail: bool, actor: Option<Id>, users: set<Id>): (e: Option<ApiError>)
    ensures e.None? <==> NonBlank(title) && NonBlank(description) && hasVideoFile && hasThumbnail &&
                         actor.Some? && actor.value in users
    ensures !NonBlank(title) || !NonBlank(description) ==>
              e == Some(ApiError(BAD_REQUEST, "Title and description are required"))
    ensures NonBlank(title) && NonBlank(description) && !hasVideoFile ==>
              e == Some(ApiError(BAD_REQUEST, "Video file is required"))
    ensures NonBlank(title) && NonBlank(description) && hasVideoFile && !hasThumbnail ==>
              e == Some(ApiError(BAD_REQUEST, "Thumbnail is required"))
    ensures NonBlank(title) && NonBlank(description) && hasVideoFile && hasThumbnail &&
            (actor.None? || actor.value !in users) ==>
              e == Some(ApiError(NOT_FOUND, "User not found"))
  {
    if !NonBlank(title) || !NonBlank(description) then Some(ApiError(BAD_REQUEST, "Title and description are required"))
    else if !hasVideoFile then Some(ApiError(BAD_REQUEST, "Video file is required"))
    else if !hasThumbnail then Some(ApiError(BAD_REQUEST, "Thumbnail is required"))
    else if actor.None? || actor.value !in users then Some(ApiError(NOT_FOUND, "User not found"))
    else None
  }

  /** Deleting an object right after uploading it leaves the host as it
      was, save that the host keeps an object whose id is empty. */
  lemma CompensatedUpload(before: set<string>, publicId: string)
    ensures Destroy(before + {publicId}, Some(publicId)) ==
            if publicId != "" then before - {publicId} else before + {""}
  {
  }

  /** The upload phase of `publishAVideo` as seen on the media host: a
      failed video upload stores nothing; a failed thumbnail upload leaves
      the host as it was, the video being deleted again; two successful
      uploads store both objects and create the record. */
  predicate PublishUploads(r: Result<Video>, videoUpload: Upload, thumbnailUpload: Upload,
                           before: set<string>, after: set<string>) {
    (videoUpload.UploadFailed? ==>
       r == Fail(ApiError(INTERNAL_ERROR, "Failed to upload video to Cloudinary")) && after == before) &&
    (videoUpload.Uploaded? && thumbnailUpload.UploadFailed? ==>
       r == Fail(ApiError(INTERNAL_ERROR, "Failed to upload thumbnail to Cloudinary")) &&
       after == if videoUpload.publicId != "" then before - {videoUpload.publicId} else before + {""}) &&
    (videoUpload.Uploaded? && thumbnailUpload.Uploaded? ==>
       r.Ok? && after == before + {videoUpload.publicId, thumbnailUpload.publicId})
  }

  class VideoStore {
    var videos: map<Id, Video>
    /** The public ids the media host stores. */
    var media: set<string>
    /** The schema's default for `isPublished` on creation. */
    const publishedByDefault: bool
    /** The schema's default for `views` on creation. */
    const viewsByDefault: nat

    predicate Valid()
      reads this
    {
      KeyedBy(videos, (v: Video) => v.id)
    }

    constructor (publishedByDefault: bool, viewsByDefault: nat)
      ensures Valid() && videos == map[] && media == {}
      ensures this.publishedByDefault == publishedByDefault && this.viewsByDefault == viewsByDefault
    {
      this.publishedByDefault := publishedByDefault;
      this.viewsByDefault := viewsByDefault;
      videos := map[];
      media := {};
    }

    /** `publishAVideo`: the request checks come first and touch nothing;
        then the video and the thumbnail are uploaded. A failed thumbnail
        upload deletes the uploaded video again and creates no record. */
    method PublishAVideo(title: Option<string>, description: Option<string>, hasVideoFile: bool,
                         hasThumbnail: bool, actor: Option<Id>, users: set<Id>,
                         videoUpload: Upload, thumbnailUpload: Upload, newId: Id, now: int)
      returns (r: Result<Video>)
      requires Valid() && newId !in videos
      modifies this
      ensures Valid()
      ensures r.Fail? ==> videos == old(videos)
      ensures var refused := PublishRefusal(title, description, hasVideoFile, hasThumbnail, actor, users);
              refused.Some? ==> r == Fail(refused.value) && media == old(media)
      ensures PublishRefusal(title, description, hasVideoFile, hasThumbnail, actor, users).None? ==>
                PublishUploads(r, videoUpload, thumbnailUpload, old(media), media) &&
                (r.Ok? ==>
                   r.value == Video(newId, Trim(title.value), Trim(description.value),
                                    videoUpload.secureUrl, thumbnailUpload.secureUrl,
                                    if videoUpload.duration.Some? then videoUpload.duration.value else 0,
                                    viewsByDefault, publishedByDefault, actor.value, now) &&
                   videos == old(videos)[newId := r.value])
    {
      var refused := PublishRefusal(title, description, hasVideoFile, hasThumbnail, actor, users);
      if refused.Some? {
        return Fail(refused.value);
      }
      r := UploadAndCreate(Trim(title.value), Trim(description.value), actor.value, videoUpload, thumbnailUpload, newId, now);
    }

    /** The upload phase of `publishAVideo`, once the request has passed its
        checks; `title` and `description` arrive trimmed. */
    method UploadAndCreate(title: string, description: string, owner: Id, videoUpload: Upload,
                           thumbnailUpload: Upload, newId: Id, now: int) returns (r: Result<Video>)
      requires Valid() && newId !in videos
      modifies this
      ensures Valid()
      ensures PublishUploads(r, videoUpload, thumbnailUpload, old(media), media)
      ensures r.Fail? ==> videos == old(videos)
      ensures r.Ok? ==>
                r.value == Video(newId, title, description, videoUpload.secureUrl,
                                 thumbnailUpload.secureUrl,
                                 if videoUpload.duration.Some? then videoUpload.duration.value else 0,
                                 viewsByDefault, publishedByDefault, owner, now) &&
                videos == old(videos)[newId := r.value]
    {
      if videoUpload.UploadFailed? {
        return Fail(ApiError(INTERNAL_ERROR, "Failed to upload video to Cloudinary"));
      }
      media := media + {videoUpload.publicId};
      if thumbnailUpload.UploadFailed? {
        media := Destroy(media, Some(videoUpload.publicId));
        CompensatedUpload(old(media), videoUpload.publicId);
        r := Fail(ApiError(INTERNAL_ERROR, "Failed to upload thumbnail to Cloudinary"));
        return;
      }
      media := media + {thumbnailUpload.publicId};
      assert media == old(media) + {videoUpload.publicId, thumbnailUpload.publicId};
      var duration := if videoUpload.duration.Some? then videoUpload.duration.value else 0;
      var v := Video(newId, title, description, videoUpload.secureUrl,
                     thumbnailUpload.secureUrl, duration, viewsByDefault, publishedByDefault, owner, now);
      videos := videos[newId := v];
      r := Ok(v);
    }

    /** `getVideoById`: an existing video's view count goes up by one and is
        saved before the visibility check, so a refused read still counts. */
    method GetVideoById(videoId: Id, actor: Option<Id>, isValidId: Id -> bool) returns (r: Result<Video>)
      requires Valid()
      modifies this
      ensures Valid() && media == old(media)
      ensures !isValidId(videoId) ==>
                r == Fail(ApiError(BAD_REQUEST, "Invalid video ID")) && videos == old(videos)
      ensures isValidId(videoId) && videoId !in old(videos) ==>
                r == Fail(ApiError(NOT_FOUND, "Video not found")) && videos == old(videos)
      ensures isValidId(videoId) && videoId in old(videos) ==>
                var v := old(videos)[videoId];
                var seen := v.(views := v.views + 1);
                videos == old(videos)[videoId := seen] &&
                (!v.isPublished && !IsOwner(v.owner, actor) ==>
                   r == Fail(ApiError(FORBIDDEN, "This video is not published"))) &&
                (v.isPublished || IsOwner(v.owner, actor) ==> r == Ok(seen))
    {
      if !isValidId(videoId) {
        return Fail(ApiError(BAD_REQUEST, "Invalid video ID"));
      }
      if videoId !in videos {
        return Fail(ApiError(NOT_FOUND, "Video not found"));
      }
      var v := videos[videoId];
      v := v.(views := v.views + 1);
      videos := videos[videoId := v];
      if !v.isPublished && !IsOwner(v.owner, actor) {
        return Fail(ApiError(FORBIDDEN, "This video is not published"));
      }
      r := Ok(v);
    }

    /** `updateVideo`: the owner's text edits are partial. With a new
        thumbnail file, the old thumbnail is deleted from the media host
        before the new one is uploaded; when that upload fails the handler
        throws before saving, so the stored video is unchanged (still
        pointing at the deleted thumbnail) and the text edits are lost. */
    method UpdateVideo(videoId: Id, title: Option<string>, description: Option<string>, hasNewThumbnail: bool,
                       thumbnailUpload: Upload, actor: Option<Id>, isValidId: Id -> bool)
      returns (r: Result<Video>)
      requires Valid()
      modifies this
      ensures Valid()
      ensures r.Fail? ==> videos == old(videos)
      ensures !isValidId(videoId) ==>
                r == Fail(ApiError(BAD_REQUEST, "Invalid video ID")) && media == old(media)
      ensures isValidId(videoId) && videoId !in old(videos) ==>
                r == Fail(ApiError(NOT_FOUND, "Video not found")) && media == old(media)
      ensures isValidId(videoId) && videoId in old(videos) ==>
                var v := old(videos)[videoId];
                var edited := PartialUpdate(v, title, description);
                var cleared := Destroy(old(media), ExtractPublicId(Some(v.thumbnail)));
                (!IsOwner(v.owner, actor) ==>
                   r == Fail(ApiError(FORBIDDEN, "You are not authorized to update this video")) &&
                   media == old(media)) &&
                (IsOwner(v.owner, actor) && !hasNewThumbnail ==>
                   r == Ok(edited) && videos == old(videos)[videoId := edited] && media == old(media)) &&
                (IsOwner(v.owner, actor) && hasNewThumbnail && thumbnailUpload.UploadFailed? ==>
                   r == Fail(ApiError(INTERNAL_ERROR, "Failed to upload new thumbnail to Cloudinary")) &&
                   media == cleared) &&
                (IsOwner(v.owner, actor) && hasNewThumbnail && thumbnailUpload.Uploaded? ==>
                   r == Ok(edited.(thumbnail := thumbnailUpload.secureUrl)) &&
                   videos == old(videos)[videoId := r.value] &&
                   media == cleared + {thumbnailUpload.publicId})
    {
      if !isValidId(videoId) {
        return Fail(ApiError(BAD_REQUEST, "Invalid video ID"));
      }
      if videoId !in videos {
        return Fail(ApiError(NOT_FOUND, "Video not found"));
      }
      var v := videos[videoId];
      if !IsOwner(v.owner, actor) {
        return Fail(ApiError(FORBIDDEN, "You are not authorized to update this video"));
      }
      var w := PartialUpdate(v, title, description);
      if hasNewThumbnail {
        r := ReplaceThumbnail(videoId, w, thumbnailUpload);
      } else {
        videos := videos[videoId := w];
        r := Ok(w);
      }
    }

    /** The thumbnail step of `updateVideo` and the save after it: the old
        thumbnail (still the one `edited` names) is deleted first, then the
        new one is uploaded; a failed upload throws before the save. */
    method ReplaceThumbnail(videoId: Id, edited: Video, thumbnailUpload: Upload) returns (r: Result<Video>)
      requires Valid() && videoId in videos && edited.id == videoId
      modifies this
      ensures Valid()
      ensures var cleared := Destroy(old(media), ExtractPublicId(Some(edited.thumbnail)));
              (thumbnailUpload.UploadFailed? ==>
                 r == Fail(ApiError(INTERNAL_ERROR, "Failed to upload new thumbnail to Cloudinary")) &&
                 videos == old(videos) && media == cleared) &&
              (thumbnailUpload.Uploaded? ==>
                 r == Ok(edited.(thumbnail := thumbnailUpload.secureUrl)) &&
                 videos == old(videos)[videoId := r.value] &&
                 media == cleared + {thumbnailUpload.publicId})
    {
      media := Destroy(media, ExtractPublicId(Some(edited.thumbnail)));
      if thumbnailUpload.UploadFailed? {
        return Fail(ApiError(INTERNAL_ERROR, "Failed to upload new thumbnail to Cloudinary"));
      }
      media := media + {thumbnailUpload.publicId};
      var w := edited.(thumbnail := thumbnailUpload.secureUrl);
      videos := videos[videoId := w];
      r := Ok(w);
    }

    /** `deleteVideo`: the owner's call deletes the video file and the
        thumbnail from the media host (by the ids recovered from their URLs)
        and then the record. */
    method DeleteVideo(videoId: Id, actor: Option<Id>, isValidId: Id -> bool) returns (r: Result<()>)
      requires Valid()
      modifies this
      ensures Valid()
      ensures r.Fail? ==> videos == old(videos) && media == old(media)
      ensures !isValidId(videoId) ==> r == Fail(ApiError(BAD_REQUEST, "Invalid video ID"))
      ensures isValidId(videoId) && videoId !in old(videos) ==> r == Fail(ApiError(NOT_FOUND, "Video not found"))
      ensures isValidId(videoId) && videoId in old(videos) ==>
                var v := old(videos)[videoId];
                (!IsOwner(v.owner, actor) ==>
                   r == Fail(ApiError(FORBIDDEN, "You are not authorized to delete this video"))) &&
                (IsOwner(v.owner, actor) ==>
                   r == Ok(()) && videos == old(videos) - {videoId} &&
                   media == Destroy(Destroy(old(media), ExtractPublicId(Some(v.videoFile))),
                                    ExtractPublicId(Some(v.thumbnail))))
    {
      if !isValidId(videoId) {
        return Fail(ApiError(BAD_REQUEST, "Invalid video ID"));
      }
      if videoId !in videos {
        return Fail(ApiError(NOT_FOUND, "Video not found"));
      }
      var v := videos[videoId];
      if !IsOwner(v.owner, actor) {
        return Fail(ApiError(FORBIDDEN, "You are not authorized to delete this video"));
      }
      media := Destroy(media, ExtractPublicId(Some(v.videoFile)));
      media := Destroy(media, ExtractPublicId(Some(v.thumbnail)));
      videos := videos - {videoId};
      r := Ok(());
    }

    /** `togglePublishStatus`: the owner's call flips the flag and answers
        with its new value. */
    method TogglePublishStatus(videoId: Id, actor: Option<Id>, isValidId: Id -> bool) returns (r: Result<bool>)
      requires Valid()
      modifies this
      ensures Valid() && media == old(media)
      ensures r.Fail? ==> videos == old(videos)
      ensures !isValidId(videoId) ==> r == Fail(ApiError(BAD_REQUEST, "Invalid video ID"))
      ensures isValidId(videoId) && videoId !in old(videos) ==> r == Fail(ApiError(NOT_FOUND, "Video not found"))
      ensures isValidId(videoId) && videoId in old(videos) ==>
                var v := old(videos)[videoId];
                (!IsOwner(v.owner, actor) ==>
                   r == Fail(ApiError(FORBIDDEN, "You are not authorized to toggle publish status of this video"))) &&
                (IsOwner(v.owner, actor) ==>
                   r == Ok(!v.isPublished) && videos == old(videos)[videoId := Flipped(v)])
    {
      if !isValidId(videoId) {
        return Fail(ApiError(BAD_REQUEST, "Invalid video ID"));
      }
      if videoId !in videos {
        return Fail(ApiError(NOT_FOUND, "Video not found"));
      }
      var v := videos[videoId];
      if !IsOwner(v.owner, actor) {
        return Fail(ApiError(FORBIDDEN, "You are not authorized to toggle publish status of this video"));
      }
      var w := Flipped(v);
      videos := videos[videoId := w];
      r := Ok(w.isPublished);
    }
  }
}
