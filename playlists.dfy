/** The playlist controller over the Playlist collection, a map from id to
    playlist. A playlist's video references never repeat: adding checks for
    the video first, and removing filters every occurrence out. */
module PlaylistController {
  import opened Common
  import opened Seqs
  import opened Models

  /** The video list after `filter(video => video.toString() !== videoId.toString())`;
      ids are strings here, so the comparison is plain equality. */
  function Without(vs: seq<Id>, videoId: Id): seq<Id> {
    Filter(vs, (x: Id) => x != videoId)
  }

  /** Removal drops every occurrence of the video and keeps every other
      reference, with its multiplicity and in its order; removing an absent
      video changes nothing. */
  lemma WithoutRemovesAll(vs: seq<Id>, videoId: Id, ws: seq<Id>)
    ensures videoId !in Without(vs, videoId)
    ensures forall x :: x != videoId ==> multiset(Without(vs, videoId))[x] == multiset(vs)[x]
    ensures Without(vs + ws, videoId) == Without(vs, videoId) + Without(ws, videoId)
    ensures videoId !in vs ==> Without(vs, videoId) == vs
  {
    var p := (x: Id) => x != videoId;
    FilterConcat(vs, ws, p);
    if videoId !in vs {
      FilterKeepsAll(vs, p);
    }
  }

  /** Adding an absent video and removing it again gives the list back. */
  lemma RemoveUndoesAdd(vs: seq<Id>, videoId: Id)
    requires videoId !in vs
    ensures Without(vs + [videoId], videoId) == vs
  {
    WithoutRemovesAll(vs, videoId, [videoId]);
    assert Without([videoId], videoId) == [];
  }

  /** The playlists owned by `user`. */
  function PlaylistsOf(m: map<Id, Playlist>, user: Id): set<Playlist> {
    set p | p in m.Values && p.owner == user
  }

  /** Every playlist is stored under its own id and lists no video twice. */
  predicate WellFormed(m: map<Id, Playlist>) {
    KeyedBy(m, (p: Playlist) => p.id) && forall id :: id in m ==> NoDuplicates(m[id].videos)
  }

  class PlaylistStore {
    var playlists: map<Id, Playlist>

    predicate Valid()
      reads this
    {
      WellFormed(playlists)
    }

    constructor ()
      ensures Valid() && playlists == map[]
    {
      playlists := map[];
    }

    /** `createPlaylist`: a missing or empty name is refused; otherwise an
        empty playlist owned by the caller is created under `newId`. */
    method CreatePlaylist(name: Option<string>, description: Option<string>, actor: Id, newId: Id)
      returns (r: Result<Playlist>)
      requires Valid() && newId !in playlists
      modifies this
      ensures Valid()
      ensures !Truthy(name) ==>
                r == Fail(ApiError(BAD_REQUEST, "Playlist name is required")) && playlists == old(playlists)
      ensures Truthy(name) ==>
                r == Ok(Playlist(newId, name, description, actor, [])) && playlists == old(playlists)[newId := r.value]
    {
      if !Truthy(name) {
        return Fail(ApiError(BAD_REQUEST, "Playlist name is required"));
      }
      var p := Playlist(newId, name, description, actor, []);
      playlists := playlists[newId := p];
      r := Ok(p);
    }

    /** `getUserPlaylists`: exactly the playlists the user owns. */
    method GetUserPlaylists(userId: Id, users: set<Id>, isValidId: Id -> bool) returns (r: Result<set<Playlist>>)
      ensures !isValidId(userId) ==> r == Fail(ApiError(BAD_REQUEST, "Invalid user ID"))
      ensures isValidId(userId) && userId !in users ==> r == Fail(ApiError(NOT_FOUND, "User not found"))
      ensures isValidId(userId) && userId in users ==>
                r.Ok? && forall p :: p in r.value <==> p in playlists.Values && p.owner == userId
    {
      if !isValidId(userId) {
        return Fail(ApiError(BAD_REQUEST, "Invalid user ID"));
      }
      if userId !in users {
        return Fail(ApiError(NOT_FOUND, "User not found"));
      }
      r := Ok(PlaylistsOf(playlists, userId));
    }

    /** `getPlaylistById` */
    method GetPlaylistById(playlistId: Id, isValidId: Id -> bool) returns (r: Result<Playlist>)
      ensures !isValidId(playlistId) ==> r == Fail(ApiError(BAD_REQUEST, "Invalid playlist ID"))
      ensures isValidId(playlistId) && playlistId !in playlists ==> r == Fail(ApiError(NOT_FOUND, "Playlist not found"))
      ensures isValidId(playlistId) && playlistId in playlists ==> r == Ok(playlists[playlistId])
    {
      if !isValidId(playlistId) {
        return Fail(ApiError(BAD_REQUEST, "Invalid playlist ID"));
      }
      if playlistId !in playlists {
        return Fail(ApiError(NOT_FOUND, "Playlist not found"));
      }
      r := Ok(playlists[playlistId]);
    }

    /** `addVideoToPlaylist`: ids, playlist, ownership, video and duplicate
        are checked in that order; a passing call appends the video once. */
    method AddVideoToPlaylist(playlistId: Id, videoId: Id, actor: Id, videos: set<Id>, isValidId: Id -> bool)
      returns (r: Result<Playlist>)
      requires Valid()
      modifies this
      ensures Valid()
      ensures r.Fail? ==> playlists == old(playlists)
      ensures !isValidId(playlistId) || !isValidId(videoId) ==>
                r == Fail(ApiError(BAD_REQUEST, "Invalid playlist or video ID"))
      ensures isValidId(playlistId) && isValidId(videoId) && playlistId !in old(playlists) ==>
                r == Fail(ApiError(NOT_FOUND, "Playlist not found"))
      ensures isValidId(playlistId) && isValidId(videoId) && playlistId in old(playlists) ==>
                var p := old(playlists)[playlistId];
                (p.owner != actor ==> r == Fail(ApiError(FORBIDDEN, "Unauthorized to add video to this playlist"))) &&
                (p.owner == actor && videoId !in videos ==> r == Fail(ApiError(NOT_FOUND, "Video not found"))) &&
                (p.owner == actor && videoId in videos && videoId in p.videos ==>
                   r == Fail(ApiError(BAD_REQUEST, "Video already in playlist"))) &&
                (p.owner == actor && videoId in videos && videoId !in p.videos ==>
                   r == Ok(p.(videos := p.videos + [videoId])) && playlists == old(playlists)[playlistId := r.value])
    {
      if !isValidId(playlistId) || !isValidId(videoId) {
        return Fail(ApiError(BAD_REQUEST, "Invalid playlist or video ID"));
      }
      if playlistId !in playlists {
        return Fail(ApiError(NOT_FOUND, "Playlist not found"));
      }
      var p := playlists[playlistId];
      if p.owner != actor {
        return Fail(ApiError(FORBIDDEN, "Unauthorized to add video to this playlist"));
      }
      if videoId !in videos {
        return Fail(ApiError(NOT_FOUND, "Video not found"));
      }
      if videoId in p.videos {
        return Fail(ApiError(BAD_REQUEST, "Video already in playlist"));
      }
      AppendNoDuplicates(p.videos, videoId);
      p := p.(videos := p.videos + [videoId]);
      playlists := playlists[playlistId := p];
      r := Ok(p);
    }

    /** `removeVideoFromPlaylist`: after the id, playlist and ownership
        checks, every occurrence of the video is filtered out. Whether the
        video exists is not checked. */
    method RemoveVideoFromPlaylist(playlistId: Id, videoId: Id, actor: Id, isValidId: Id -> bool)
      returns (r: Result<Playlist>)
      requires Valid()
      modifies this
      ensures Valid()
      ensures r.Fail? ==> playlists == old(playlists)
      ensures !isValidId(playlistId) || !isValidId(videoId) ==>
                r == Fail(ApiError(BAD_REQUEST, "Invalid playlist or video ID"))
      ensures isValidId(playlistId) && isValidId(videoId) && playlistId !in old(playlists) ==>
                r == Fail(ApiError(NOT_FOUND, "Playlist not found"))
      ensures isValidId(playlistId) && isValidId(videoId) && playlistId in old(playlists) ==>
                var p := old(playlists)[playlistId];
                (p.owner != actor ==> r == Fail(ApiError(FORBIDDEN, "Unauthorized to remove video from this playlist"))) &&
                (p.owner == actor ==>
                   r == Ok(p.(videos := Without(p.videos, videoId))) && playlists == old(playlists)[playlistId := r.value])
    {
      if !isValidId(playlistId) || !isValidId(videoId) {
        return Fail(ApiError(BAD_REQUEST, "Invalid playlist or video ID"));
      }
      if playlistId !in playlists {
        return Fail(ApiError(NOT_FOUND, "Playlist not found"));
      }
      var p := playlists[playlistId];
      if p.owner != actor {
        return Fail(ApiError(FORBIDDEN, "Unauthorized to remove video from this playlist"));
      }
      FilterNoDuplicates(p.videos, (x: Id) => x != videoId);
      p := p.(videos := Without(p.videos, videoId));
      playlists := playlists[playlistId := p];
      r := Ok(p);
    }

    /** `deletePlaylist`: the owner's call leaves no playlist with that id. */
    method DeletePlaylist(playlistId: Id, actor: Id, isValidId: Id -> bool) returns (r: Result<()>)
      requires Valid()
      modifies this
      ensures Valid()
      ensures r.Fail? ==> playlists == old(playlists)
      ensures !isValidId(playlistId) ==> r == Fail(ApiError(BAD_REQUEST, "Invalid playlist ID"))
      ensures isValidId(playlistId) && playlistId !in old(playlists) ==>
                r == Fail(ApiError(NOT_FOUND, "Playlist not found"))
      ensures isValidId(playlistId) && playlistId in old(playlists) && old(playlists)[playlistId].owner != actor ==>
                r == Fail(ApiError(FORBIDDEN, "Unauthorized to delete this playlist"))
      ensures isValidId(playlistId) && playlistId in old(playlists) && old(playlists)[playlistId].owner == actor ==>
                r == Ok(()) && playlists == old(playlists) - {playlistId}
    {
      if !isValidId(playlistId) {
        return Fail(ApiError(BAD_REQUEST, "Invalid playlist ID"));
      }
      if playlistId !in playlists {
        return Fail(ApiError(NOT_FOUND, "Playlist not found"));
      }
      if playlists[playlistId].owner != actor {
        return Fail(ApiError(FORBIDDEN, "Unauthorized to delete this playlist"));
      }
      playlists := playlists - {playlistId};
      r := Ok(());
    }

    /** `updatePlaylist`: the owner's call overwrites both name and
        description with what the request carries, even with absent values,
        and keeps the videos. */
    method UpdatePlaylist(playlistId: Id, name: Option<string>, description: Option<string>, actor: Id,
                          isValidId: Id -> bool) returns (r: Result<Playlist>)
      requires Valid()
      modifies this
      ensures Valid()
      ensures r.Fail? ==> playlists == old(playlists)
      ensures !isValidId(playlistId) ==> r == Fail(ApiError(BAD_REQUEST, "Invalid playlist ID"))
      ensures isValidId(playlistId) && playlistId !in old(playlists) ==>
                r == Fail(ApiError(NOT_FOUND, "Playlist not found"))
      ensures isValidId(playlistId) && playlistId in old(playlists) && old(playlists)[playlistId].owner != actor ==>
                r == Fail(ApiError(FORBIDDEN, "Unauthorized to update this playlist"))
      ensures isValidId(playlistId) && playlistId in old(playlists) && old(playlists)[playlistId].owner == actor ==>
                r.Ok? && r.value.name == name && r.value.description == description &&
                r.value.(name := old(playlists)[playlistId].name,
                         description := old(playlists)[playlistId].description) == old(playlists)[playlistId] &&
                playlists == old(playlists)[playlistId := r.value]
    {
      if !isValidId(playlistId) {
        return Fail(ApiError(BAD_REQUEST, "Invalid playlist ID"));
      }
      if playlistId !in playlists {
        return Fail(ApiError(NOT_FOUND, "Playlist not found"));
      }
      var p := playlists[playlistId];
      if p.owner != actor {
        return Fail(ApiError(FORBIDDEN, "Unauthorized to update this playlist"));
      }
      p := p.(name := name, description := description);
      playlists := playlists[playlistId := p];
      r := Ok(p);
    }
  }
}
