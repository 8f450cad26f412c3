/** Recovering the media host's public id of a stored object from its
    delivery URL (`extractPublicId` in the video controller). The URL is cut
    on '/', everything up to and including the first "upload" segment is
    dropped, then a leading version segment `v<digits>`, and finally the
    extension of the last segment; the rest is joined back with '/'. */
module PublicId {
  import opened Common
  import opened Text

  /** The path marker after which the public id starts. */
  const UPLOAD_MARKER: string := "upload"

  predicate IsDigit(c: char) {
    '0' <= c <= '9'
  }

  /** `/^v\d+$/.test(s)` */
  predicate IsVersionSegment(s: string) {
    |s| >= 2 && s[0] == 'v' && forall k :: 1 <= k < |s| ==> IsDigit(s[k])
  }

  /** `parts.indexOf(x)`: the first position of `x`, or -1. */
  function IndexOf(parts: seq<string>, x: string): (r: int)
    ensures -1 <= r < |parts|
    ensures r == -1 <==> x !in parts
    ensures r >= 0 ==> parts[r] == x && x !in parts[..r]
  {
    if parts == [] then -1
    else if parts[0] == x then 0
    else
      var r := IndexOf(parts[1..], x);
      assert parts == [parts[0]] + parts[1..];
      if r == -1 then -1
      else
        assert parts[..r + 1] == [parts[0]] + parts[1..][..r];
        r + 1
  }

  /** What `/\.[^/.]+$/` matches: a dot followed by at least one character,
      none of them a dot or a slash, up to the end. */
  predicate IsExtension(e: string) {
    |e| >= 2 && e[0] == '.' && forall k :: 1 <= k < |e| ==> e[k] != '.' && e[k] != '/'
  }

  /** `s` ends in an extension that starts at position `i`. */
  predicate ExtensionAt(s: string, i: int) {
    0 <= i < |s| && IsExtension(s[i..])
  }

  /** At most one suffix of a string is an extension. */
  lemma ExtensionUnique(s: string, i: int, j: int)
    requires ExtensionAt(s, i) && ExtensionAt(s, j)
    ensures i == j
  {
  }

  /** The last position of `c` in `s`, or -1. */
  function LastIndexOfChar(s: string, c: char): (r: int)
    ensures -1 <= r < |s|
    ensures r == -1 ==> c !in s
    ensures r >= 0 ==> s[r] == c && c !in s[r + 1..]
  {
    if s == [] then -1
    else if s[|s| - 1] == c then |s| - 1
    else
      var r := LastIndexOfChar(s[..|s| - 1], c);
      assert s == s[..|s| - 1] + [s[|s| - 1]];
      if r >= 0 then
        assert s[r + 1..] == s[..|s| - 1][r + 1..] + [s[|s| - 1]];
        r
      else
        r
  }

  /** `s.replace(/\.[^/.]+$/, "")`: removes the extension when `s` ends in
      one, and otherwise leaves `s` alone. */
  function StripExtension(s: string): (r: string)
    ensures r <= s
    ensures r != s <==> exists i :: ExtensionAt(s, i)
    ensures r != s ==> ExtensionAt(s, |r|)
  {
    var i := LastIndexOfChar(s, '.');
    if i >= 0 && IsExtension(s[i..]) then
      assert ExtensionAt(s, i);
      s[..i]
    else
      assert forall j :: !ExtensionAt(s, j);
      s
  }

  /** Everything after the first "upload" segment; all segments when there
      is none (`indexOf` gives -1 and `slice(0)` keeps everything). */
  function AfterMarker(parts: seq<string>): seq<string> {
    parts[IndexOf(parts, UPLOAD_MARKER) + 1..]
  }

  /** Drops a leading version segment. */
  function DropVersion(p: seq<string>): seq<string> {
    if |p| > 0 && IsVersionSegment(p[0]) then p[1..] else p
  }

  /** Strips the extension of the last segment and joins with '/'; no
      segment at all is the caught `TypeError` and gives no id. */
  function FinishId(p: seq<string>): Option<string> {
    if |p| == 0 then None
    else Some(Join(p[..|p| - 1] + [StripExtension(p[|p| - 1])], '/'))
  }

  /** `extractPublicId(url)` */
  function ExtractPublicId(url: Option<string>): Option<string> {
    if !Truthy(url) then None
    else FinishId(DropVersion(AfterMarker(Split(url.value, '/'))))
  }

  /** The segments after the marker in a delivery URL: an optional version,
      the folders and a file name with its extension. */
  function DeliveryPath(version: Option<string>, folders: seq<string>, name: string, ext: string): seq<string> {
    (if version.Some? then [version.value] else []) + folders + [name + "." + ext]
  }

  /** The shape of a delivery URL: some leading segments, the marker and
      the delivery path. */
  function DeliveryUrl(prefix: seq<string>, version: Option<string>, folders: seq<string>,
                       name: string, ext: string): string
  {
    Join(prefix + [UPLOAD_MARKER] + DeliveryPath(version, folders, name, ext), '/')
  }

  /** Segment-level description of the extraction for a URL whose first
      "upload" segment splits it into `before` and `after`: the id is None
      exactly when nothing, or only a version segment, follows the marker;
      otherwise it is the rest without the version and the last extension. */
  lemma {:induction false} ExtractAfterFirstMarker(u: string, before: seq<string>, after: seq<string>)
    requires Split(u, '/') == before + [UPLOAD_MARKER] + after
    requires UPLOAD_MARKER !in before
    ensures ExtractPublicId(Some(u)) == None <==>
              after == [] || (|after| == 1 && IsVersionSegment(after[0]))
    ensures ExtractPublicId(Some(u)) == FinishId(DropVersion(after))
  {
    var parts := Split(u, '/');
    assert parts[|before|] == UPLOAD_MARKER;
    assert parts[..|before|] == before;
    assert IndexOf(parts, UPLOAD_MARKER) == |before|;
    assert parts[|before| + 1..] == after;
  }

  /** Without an "upload" segment nothing is cut off in front: every segment
      is kept, and the id is None only for a URL that is a single version
      segment. */
  lemma {:induction false} ExtractWithoutMarker(u: string)
    requires u != ""
    requires UPLOAD_MARKER !in Split(u, '/')
    ensures ExtractPublicId(Some(u)) == FinishId(DropVersion(Split(u, '/')))
    ensures ExtractPublicId(Some(u)) == None <==> IsVersionSegment(u)
  {
    var parts := Split(u, '/');
    JoinSplit(u, '/');
    if |parts| == 1 {
      assert Join(parts, '/') == parts[0];
    } else {
      assert DropVersion(parts) != [];
      assert u[|parts[0]|] == '/';
    }
  }

  /** No segment of a delivery path contains '/'. */
  lemma DeliveryPathSeparatorFree(version: Option<string>, folders: seq<string>, name: string, ext: string)
    requires version.Some? ==> '/' !in version.value
    requires SeparatorFree(folders, '/') && '/' !in name && IsExtension("." + ext)
    ensures SeparatorFree(DeliveryPath(version, folders, name, ext), '/')
  {
    var file := name + "." + ext;
    assert '/' !in file by {
      assert file == name + ("." + ext);
    }
    var v := if version.Some? then [version.value] else [];
    SeparatorFreeConcat(v, folders, '/');
    SeparatorFreeConcat(v + folders, [file], '/');
  }

  /** The segments of a delivery URL are the pieces it was built from. */
  lemma DeliveryUrlSegments(prefix: seq<string>, path: seq<string>)
    requires SeparatorFree(prefix, '/') && SeparatorFree(path, '/')
    ensures Split(Join(prefix + [UPLOAD_MARKER] + path, '/'), '/') == prefix + [UPLOAD_MARKER] + path
  {
    assert SeparatorFree([UPLOAD_MARKER], '/');
    SeparatorFreeConcat(prefix, [UPLOAD_MARKER], '/');
    SeparatorFreeConcat(prefix + [UPLOAD_MARKER], path, '/');
    SplitJoin(prefix + [UPLOAD_MARKER] + path, '/');
  }

  /** Only the extension after the last dot of a file name is removed. */
  lemma StripFileExtension(name: string, ext: string)
    requires IsExtension("." + ext)
    ensures StripExtension(name + "." + ext) == name
  {
    var file := name + "." + ext;
    assert file[|name|..] == "." + ext;
    assert ExtensionAt(file, |name|);
    var stripped := StripExtension(file);
    ExtensionUnique(file, |name|, |stripped|);
  }

  /** The inverse property: the id extracted from a delivery URL is the
      folders and the file name without its extension, whether or not a
      version segment is present. */
  lemma ExtractFromDeliveryUrl(prefix: seq<string>, version: Option<string>, folders: seq<string>,
                               name: string, ext: string)
    requires SeparatorFree(prefix, '/') && SeparatorFree(folders, '/')
    requires '/' !in name
    requires UPLOAD_MARKER !in prefix
    requires version.Some? ==> IsVersionSegment(version.value)
    requires version.None? && folders != [] ==> !IsVersionSegment(folders[0])
    requires IsExtension("." + ext)
    ensures ExtractPublicId(Some(DeliveryUrl(prefix, version, folders, name, ext))) ==
            Some(Join(folders + [name], '/'))
  {
    var path := DeliveryPath(version, folders, name, ext);
    DeliveryUrlSplit(prefix, version, folders, name, ext);
    ExtractAfterFirstMarker(DeliveryUrl(prefix, version, folders, name, ext), prefix, path);
    DropVersionOfDeliveryPath(version, folders, name, ext);
    FinishIdOfFile(folders, name, ext);
  }

  /** A delivery URL splits into its prefix, the marker and its path. */
  lemma DeliveryUrlSplit(prefix: seq<string>, version: Option<string>, folders: seq<string>,
                         name: string, ext: string)
    requires SeparatorFree(prefix, '/') && SeparatorFree(folders, '/')
    requires '/' !in name
    requires version.Some? ==> IsVersionSegment(version.value)
    requires IsExtension("." + ext)
    ensures Split(DeliveryUrl(prefix, version, folders, name, ext), '/') ==
            prefix + [UPLOAD_MARKER] + DeliveryPath(version, folders, name, ext)
  {
    var path := DeliveryPath(version, folders, name, ext);
    DeliveryPathSeparatorFree(version, folders, name, ext);
    DeliveryUrlSegments(prefix, path);
  }

  lemma FinishIdOfFile(folders: seq<string>, name: string, ext: string)
    requires IsExtension("." + ext)
    ensures FinishId(folders + [name + "." + ext]) == Some(Join(folders + [name], '/'))
  {
    StripFileExtension(name, ext);
    var kept := folders + [name + "." + ext];
    assert kept[..|kept| - 1] == folders;
  }

  /** Exactly the version segment, if any, is dropped from a delivery path. */
  lemma DropVersionOfDeliveryPath(version: Option<string>, folders: seq<string>, name: string, ext: string)
    requires version.Some? ==> IsVersionSegment(version.value)
    requires version.None? && folders != [] ==> !IsVersionSegment(folders[0])
    requires IsExtension("." + ext)
    ensures DropVersion(DeliveryPath(version, folders, name, ext)) == folders + [name + "." + ext]
  {
    var file := name + "." + ext;
    if version.Some? {
      assert DeliveryPath(version, folders, name, ext) == [version.value] + (folders + [file]);
    } else {
      assert DeliveryPath(version, folders, name, ext) == folders + [file];
      if folders == [] {
        assert (folders + [file])[0][|name|] == '.';
      }
    }
  }

  /** The example of the source's comment: the video URL
      https://res.cloudinary.com/demo/video/upload/v123/myfolder/myvideo.mp4,
      written as its segments joined with '/', has the id "myfolder/myvideo".
      The `Join` spells out, segment by segment, the URL quoted at
      src/controllers/video.controller.js:12-13. */
  lemma ExtractDocExample()
    ensures ExtractPublicId(Some(Join(["https:", "", "res.cloudinary.com", "demo", "video",
                                       "upload", "v123", "myfolder", "myvideo.mp4"], '/')))
            == Some("myfolder/myvideo")
  {
    DocUrlIsDeliveryUrl();
    DocPrefixFacts();
    ExtractVersionedExample(["https:", "", "res.cloudinary.com", "demo", "video"]);
  }

  /** The example URL is the delivery URL of folder "myfolder", file
      "myvideo.mp4" and version "v123". */
  lemma DocUrlIsDeliveryUrl()
    ensures DeliveryUrl(["https:", "", "res.cloudinary.com", "demo", "video"], Some("v123"),
                        ["myfolder"], "myvideo", "mp4")
            == Join(["https:", "", "res.cloudinary.com", "demo", "video",
                     "upload", "v123", "myfolder", "myvideo.mp4"], '/')
  {
    var prefix := ["https:", "", "res.cloudinary.com", "demo", "video"];
    var s := ["https:", "", "res.cloudinary.com", "demo", "video", "upload", "v123", "myfolder", "myvideo.mp4"];
    assert prefix + [UPLOAD_MARKER] + DeliveryPath(Some("v123"), ["myfolder"], "myvideo", "mp4") == s by {
      assert "myvideo" + "." + "mp4" == "myvideo.mp4";
    }
  }

  /** The leading segments of the example URL hold no separator and no
      marker. */
  lemma DocPrefixFacts()
    ensures SeparatorFree(["https:", "", "res.cloudinary.com", "demo", "video"], '/')
    ensures UPLOAD_MARKER !in ["https:", "", "res.cloudinary.com", "demo", "video"]
  {
  }

  /** The example's path after any leading segments. */
  lemma ExtractVersionedExample(prefix: seq<string>)
    requires SeparatorFree(prefix, '/') && UPLOAD_MARKER !in prefix
    ensures ExtractPublicId(Some(DeliveryUrl(prefix, Some("v123"), ["myfolder"], "myvideo", "mp4")))
            == Some("myfolder/myvideo")
  {
    VersionV123();
    assert IsExtension("." + "mp4");
    assert SeparatorFree(["myfolder"], '/');
    ExtractFromDeliveryUrl(prefix, Some("v123"), ["myfolder"], "myvideo", "mp4");
    MyFolderJoin();
  }

  lemma MyFolderJoin()
    ensures Join(["myfolder"] + ["myvideo"], '/') == "myfolder/myvideo"
  {
    assert ["myfolder"] + ["myvideo"] == ["myfolder", "myvideo"];
  }

  /** The two delivery URLs of the documented examples, with any leading
      segments: with version "v123" and without a version, the id of
      "folder/clip.mp4" is "folder/clip". */
  lemma ExtractClipExamples(prefix: seq<string>)
    requires SeparatorFree(prefix, '/') && UPLOAD_MARKER !in prefix
    ensures ExtractPublicId(Some(DeliveryUrl(prefix, Some("v123"), ["folder"], "clip", "mp4"))) == Some("folder/clip")
    ensures ExtractPublicId(Some(DeliveryUrl(prefix, None, ["folder"], "clip", "mp4"))) == Some("folder/clip")
  {
    VersionV123();
    assert !IsVersionSegment("folder");
    assert IsExtension("." + "mp4");
    assert SeparatorFree(["folder"], '/');
    ExtractFromDeliveryUrl(prefix, Some("v123"), ["folder"], "clip", "mp4");
    ExtractFromDeliveryUrl(prefix, None, ["folder"], "clip", "mp4");
    FolderClipJoin();
  }

  lemma FolderClipJoin()
    ensures Join(["folder"] + ["clip"], '/') == "folder/clip"
  {
    assert ["folder"] + ["clip"] == ["folder", "clip"];
  }

  /** A URL without any "upload" segment still yields an id: all of its
      segments are kept. */
  lemma ExtractWithoutMarkerExample(u: string)
    requires u == "folder/clip.mp4"
    ensures ExtractPublicId(Some(u)) == Some("folder/clip")
  {
    FolderClipSegments(u);
    ExtractWithoutMarker(u);
    assert !IsVersionSegment("folder");
    assert IsExtension("." + "mp4");
    FinishIdOfFile(["folder"], "clip", "mp4");
    FolderClipJoin();
  }
  /** The segments of "folder/clip.mp4". */
  lemma FolderClipSegments(u: string)
    requires u == "folder/clip.mp4"
    ensures Split(u, '/') == ["folder"] + ["clip" + "." + "mp4"]
    ensures UPLOAD_MARKER !in Split(u, '/')
  {
    assert u == Join(["folder", "clip.mp4"], '/');
    assert SeparatorFree(["folder", "clip.mp4"], '/');
    SplitJoin(["folder", "clip.mp4"], '/');
    assert "clip" + "." + "mp4" == "clip.mp4";
    assert ["folder"] + ["clip.mp4"] == ["folder", "clip.mp4"];
  }

  /** No id without a URL, and none for a URL that ends right after the
      marker or after the marker and a version. */
  lemma ExtractNullCases(prefix: seq<string>)
    requires SeparatorFree(prefix, '/') && UPLOAD_MARKER !in prefix
    ensures ExtractPublicId(None) == None && ExtractPublicId(Some("")) == None
    ensures ExtractPublicId(Some(Join(prefix + [UPLOAD_MARKER], '/'))) == None
    ensures ExtractPublicId(Some(Join(prefix + [UPLOAD_MARKER, "v123"], '/'))) == None
  {
    assert SeparatorFree([UPLOAD_MARKER], '/');
    SeparatorFreeConcat(prefix, [UPLOAD_MARKER], '/');
    SplitJoin(prefix + [UPLOAD_MARKER], '/');
    ExtractAfterFirstMarker(Join(prefix + [UPLOAD_MARKER], '/'), prefix, []);
    assert prefix + [UPLOAD_MARKER] + [] == prefix + [UPLOAD_MARKER];
    var withVersion := prefix + [UPLOAD_MARKER] + ["v123"];
    assert withVersion == prefix + [UPLOAD_MARKER, "v123"];
    assert SeparatorFree(["v123"], '/');
    SeparatorFreeConcat(prefix + [UPLOAD_MARKER], ["v123"], '/');
    SplitJoin(withVersion, '/');
    VersionV123();
    ExtractAfterFirstMarker(Join(withVersion, '/'), prefix, ["v123"]);
  }

  lemma VersionV123()
    ensures IsVersionSegment("v123")
  {
    assert "v123"[1] == '1';
  }
}
