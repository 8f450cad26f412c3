/** `getAllVideos`: the listing is an aggregation pipeline built from the
    query parameters and run over the video collection. The pipeline is
    built stage by stage as the handler pushes them (owner match, published
    match, text match, sort) and each stage has its meaning as an operation
    on a sequence of videos. */
module VideoListing {
  import opened Common
  import opened Text
  import opened Seqs
  import opened Models

  /** The query string of `GET /videos`; every parameter may be absent. */
  datatype ListQuery = ListQuery(
    query: Option<string>,
    sortBy: Option<string>,
    sortType: Option<string>,
    userId: Option<string>)

  datatype SortField = CreatedAt | Views | Duration | Title
  datatype Order = Ascending | Descending

  /** The fields a listing may be sorted by. */
  const ALLOWED_SORT_FIELDS: seq<string> := ["createdAt", "views", "duration", "title"]
  const DEFAULT_SORT_BY: string := "createdAt"
  const DEFAULT_SORT_TYPE: string := "desc"

  /** The document field a sort field names. */
  function FieldName(f: SortField): string {
    match f
    case CreatedAt => "createdAt"
    case Views => "views"
    case Duration => "duration"
    case Title => "title"
  }

  /** The sort field that an allowed field name denotes. */
  function FieldNamed(name: string): SortField {
    if name == "views" then Views
    else if name == "duration" then Duration
    else if name == "title" then Title
    else CreatedAt
  }

  /** The allowed names and the sort fields correspond one to one. */
  lemma FieldNamesCorrespond(f: SortField, name: string)
    ensures FieldNamed(FieldName(f)) == f
    ensures FieldName(f) in ALLOWED_SORT_FIELDS
    ensures name in ALLOWED_SORT_FIELDS ==> FieldName(FieldNamed(name)) == name
  {
  }

  /** `safeSortBy`: the requested field when the allow-list has it, and
      "createdAt" otherwise; an absent `sortBy` defaults to "createdAt". */
  function SafeSortBy(sortBy: Option<string>): (name: string)
    ensures name in ALLOWED_SORT_FIELDS
    ensures sortBy.Some? && sortBy.value in ALLOWED_SORT_FIELDS ==> name == sortBy.value
    ensures (sortBy.None? || sortBy.value !in ALLOWED_SORT_FIELDS) ==> name == DEFAULT_SORT_BY
  {
    var requested := if sortBy.Some? then sortBy.value else DEFAULT_SORT_BY;
    if requested in ALLOWED_SORT_FIELDS then requested else DEFAULT_SORT_BY
  }

  function ResolveSortField(sortBy: Option<string>): SortField {
    FieldNamed(SafeSortBy(sortBy))
  }

  /** `sortType === "asc" ? 1 : -1`, with "desc" for an absent `sortType`. */
  function ResolveOrder(sortType: Option<string>): Order {
    var requested := if sortType.Some? then sortType.value else DEFAULT_SORT_TYPE;
    if requested == "asc" then Ascending else Descending
  }

  /** The sort resolution: the requested field when it is allowed and the
      creation time otherwise; ascending exactly for "asc". */
  lemma SortResolution(sortBy: Option<string>, sortType: Option<string>)
    ensures sortBy.Some? && sortBy.value in ALLOWED_SORT_FIELDS ==> FieldName(ResolveSortField(sortBy)) == sortBy.value
    ensures sortBy.None? || sortBy.value !in ALLOWED_SORT_FIELDS ==> ResolveSortField(sortBy) == CreatedAt
    ensures ResolveOrder(sortType) == Ascending <==> sortType == Some("asc")
  {
    if sortBy.Some? && sortBy.value in ALLOWED_SORT_FIELDS {
      FieldNamesCorrespond(CreatedAt, sortBy.value);
    }
  }

  /** `a` may come before `b` when sorting ascending on `f`. Strings compare
      in binary order. */
  predicate KeyLe(f: SortField, a: Video, b: Video) {
    match f
    case CreatedAt => a.createdAt <= b.createdAt
    case Views => a.views <= b.views
    case Duration => a.duration <= b.duration
    case Title => LexLe(a.title, b.title)
  }

  /** `a` may come before `b` in the requested order. */
  predicate Precedes(f: SortField, o: Order, a: Video, b: Video) {
    if o == Ascending then KeyLe(f, a, b) else KeyLe(f, b, a)
  }

  lemma PrecedesTotal(f: SortField, o: Order, a: Video, b: Video)
    ensures Precedes(f, o, a, b) || Precedes(f, o, b, a)
  {
    if f == Title {
      LexLeTotal(a.title, b.title);
    }
  }

  lemma PrecedesTransitive(f: SortField, o: Order, a: Video, b: Video, c: Video)
    requires Precedes(f, o, a, b) && Precedes(f, o, b, c)
    ensures Precedes(f, o, a, c)
  {
    if f == Title {
      if o == Ascending {
        LexLeTransitive(a.title, b.title, c.title);
      } else {
        LexLeTransitive(c.title, b.title, a.title);
      }
    }
  }

  /** Every earlier video may precede every later one. */
  predicate SortedBy(s: seq<Video>, f: SortField, o: Order) {
    forall i, j :: 0 <= i < j < |s| ==> Precedes(f, o, s[i], s[j])
  }

  /** `y` may precede every video of `s`. */
  predicate PrecedesAll(f: SortField, o: Order, y: Video, s: seq<Video>) {
    forall j :: 0 <= j < |s| ==> Precedes(f, o, y, s[j])
  }

  lemma ConsSorted(f: SortField, o: Order, y: Video, s: seq<Video>)
    requires SortedBy(s, f, o) && PrecedesAll(f, o, y, s)
    ensures SortedBy([y] + s, f, o)
  {
    var t := [y] + s;
    forall i, j | 0 <= i < j < |t| ensures Precedes(f, o, t[i], t[j]) {
      assert t[j] == s[j - 1];
      if i > 0 {
        assert t[i] == s[i - 1];
      }
    }
  }

  /** What may follow the head of a sorted sequence may follow `y` when
      `y` may precede that head. */
  lemma PrecedesSortedTail(f: SortField, o: Order, y: Video, s: seq<Video>)
    requires SortedBy(s, f, o) && s != [] && Precedes(f, o, y, s[0])
    ensures PrecedesAll(f, o, y, s)
  {
    forall j | 0 <= j < |s| ensures Precedes(f, o, y, s[j]) {
      if j > 0 {
        PrecedesTransitive(f, o, y, s[0], s[j]);
      }
    }
  }

  /** The head of a sorted sequence may precede its sorted tail. */
  lemma SortedHead(f: SortField, o: Order, s: seq<Video>)
    requires SortedBy(s, f, o) && s != []
    ensures SortedBy(s[1..], f, o) && PrecedesAll(f, o, s[0], s[1..])
  {
    forall j | 0 <= j < |s[1..]| ensures Precedes(f, o, s[0], s[1..][j]) {
      assert s[1..][j] == s[j + 1];
    }
  }

  /** `y` may precede every video of a rearrangement of `s` with `x` added
      when it may precede `x` and every video of `s`. */
  lemma PrecedesAllWith(f: SortField, o: Order, y: Video, x: Video, s: seq<Video>, t: seq<Video>)
    requires PrecedesAll(f, o, y, s) && Precedes(f, o, y, x)
    requires multiset(t) == multiset(s) + multiset{x}
    ensures PrecedesAll(f, o, y, t)
  {
    forall j | 0 <= j < |t| ensures Precedes(f, o, y, t[j]) {
      assert t[j] in multiset(t);
      if t[j] != x {
        assert t[j] in multiset(s);
        var k :| 0 <= k < |s| && s[k] == t[j];
      }
    }
  }

  /** Inserts `x` into a sorted sequence, before the first video it may
      precede. */
  function Insert(x: Video, s: seq<Video>, f: SortField, o: Order): (r: seq<Video>)
    requires SortedBy(s, f, o)
    ensures SortedBy(r, f, o)
    ensures multiset(r) == multiset(s) + multiset{x}
  {
    if s == [] then [x]
    else if Precedes(f, o, x, s[0]) then
      PrecedesSortedTail(f, o, x, s);
      ConsSorted(f, o, x, s);
      [x] + s
    else
      var rest := Insert(x, s[1..], f, o);
      assert s == [s[0]] + s[1..];
      PrecedesTotal(f, o, x, s[0]);
      SortedHead(f, o, s);
      PrecedesAllWith(f, o, s[0], x, s[1..], rest);
      ConsSorted(f, o, s[0], rest);
      [s[0]] + rest
  }

  /** The `$sort` stage: a reordering of the videos that is sorted on the
      field in the order. Videos with equal keys come in an unspecified
      order; this reference definition keeps their input order. */
  function SortBy(s: seq<Video>, f: SortField, o: Order): (r: seq<Video>)
    ensures SortedBy(r, f, o)
    ensures multiset(r) == multiset(s)
  {
    if s == [] then []
    else
      assert s == [s[0]] + s[1..];
      Insert(s[0], SortBy(s[1..], f, o), f, o)
  }

  /** The stages of the pipeline this model keeps. The owner lookup and the
      projections that follow it are not part of this model. */
  datatype Stage =
    | MatchOwner(owner: Id)
    | MatchPublished
    | MatchText(query: string)
    | SortStage(field: SortField, order: Order)

  /** `$regex` with option "i" on title or description, read as a plain
      case-insensitive substring test. */
  predicate MatchesText(query: string, v: Video) {
    ContainsIgnoreCase(v.title, query) || ContainsIgnoreCase(v.description, query)
  }

  /** Whether a `$match` stage lets a video through; a sort keeps all. */
  predicate Keeps(s: Stage, v: Video) {
    match s
    case MatchOwner(owner) => v.owner == owner
    case MatchPublished => v.isPublished
    case MatchText(query) => MatchesText(query, v)
    case SortStage(_, _) => true
  }

  /** One stage run on the documents that reach it. */
  function Apply(s: Stage, docs: seq<Video>): (r: seq<Video>)
    ensures forall v :: multiset(r)[v] == if Keeps(s, v) then multiset(docs)[v] else 0
    ensures s.SortStage? ==> SortedBy(r, s.field, s.order)
  {
    match s
    case MatchOwner(owner) => Filter(docs, (v: Video) => v.owner == owner)
    case MatchPublished => Filter(docs, (v: Video) => v.isPublished)
    case MatchText(query) => Filter(docs, (v: Video) => MatchesText(query, v))
    case SortStage(field, order) => SortBy(docs, field, order)
  }

  /** The stages run in order. */
  function Run(stages: seq<Stage>, docs: seq<Video>): seq<Video>
    decreases |stages|
  {
    if stages == [] then docs else Run(stages[1..], Apply(stages[0], docs))
  }

  predicate IsOwnChannel(q: ListQuery, viewer: Option<Id>) {
    Truthy(q.userId) && viewer == Some(q.userId.value)
  }

  predicate TextFilterActive(q: ListQuery) {
    Truthy(q.query) && Trim(q.query.value) != ""
  }

  /** The owner match, pushed when a `userId` is given. */
  function OwnerStages(q: ListQuery): seq<Stage> {
    if Truthy(q.userId) then [MatchOwner(q.userId.value)] else []
  }

  /** The published match, pushed unless the viewer lists their own channel. */
  function VisibilityStages(q: ListQuery, viewer: Option<Id>): seq<Stage> {
    if !IsOwnChannel(q, viewer) then [MatchPublished] else []
  }

  /** The text match, pushed for a non-blank query. */
  function TextStages(q: ListQuery): seq<Stage> {
    if TextFilterActive(q) then [MatchText(q.query.value)] else []
  }

  function SortStageOf(q: ListQuery): Stage {
    SortStage(ResolveSortField(q.sortBy), ResolveOrder(q.sortType))
  }

  /** The pipeline `getAllVideos` pushes, or the 400 it throws for a
      malformed `userId` before any stage runs. */
  function BuildPipeline(q: ListQuery, viewer: Option<Id>, isValidId: Id -> bool): Result<seq<Stage>> {
    if Truthy(q.userId) && !isValidId(q.userId.value) then
      Fail(ApiError(BAD_REQUEST, "Invalid userId"))
    else
      Ok(OwnerStages(q) + VisibilityStages(q, viewer) + TextStages(q) + [SortStageOf(q)])
  }

  /** `getAllVideos` before pagination: the videos of the collection `all`
      that the pipeline selects, in its order. */
  function ListVideos(all: seq<Video>, q: ListQuery, viewer: Option<Id>, isValidId: Id -> bool): Result<seq<Video>> {
    match BuildPipeline(q, viewer, isValidId)
    case Fail(e) => Fail(e)
    case Ok(stages) => Ok(Run(stages, all))
  }

  /** The reference description of what a listing selects: the owner asked
      for, published unless the viewer lists their own channel, and matching
      the text when a non-blank query is given. */
  predicate Selected(q: ListQuery, viewer: Option<Id>, v: Video) {
    (Truthy(q.userId) ==> v.owner == q.userId.value) &&
    (v.isPublished || IsOwnChannel(q, viewer)) &&
    (TextFilterActive(q) ==> MatchesText(q.query.value, v))
  }

  /** Every stage lets `v` through. */
  predicate AllKeep(stages: seq<Stage>, v: Video) {
    forall i :: 0 <= i < |stages| ==> Keeps(stages[i], v)
  }

  /** Running stages keeps each video as often as it occurs in the input
      when every stage lets it through, and drops it otherwise. */
  lemma {:induction false} RunMultiplicity(stages: seq<Stage>, docs: seq<Video>, v: Video)
    ensures multiset(Run(stages, docs))[v] == if AllKeep(stages, v) then multiset(docs)[v] else 0
    decreases |stages|
  {
    if stages != [] {
      var rest := Apply(stages[0], docs);
      RunMultiplicity(stages[1..], rest, v);
      assert multiset(rest)[v] == if Keeps(stages[0], v) then multiset(docs)[v] else 0;
      AllKeepCons(stages, v);
    }
  }

  /** A pipeline lets `v` through when its first stage and the rest do. */
  lemma AllKeepCons(stages: seq<Stage>, v: Video)
    requires stages != []
    ensures AllKeep(stages, v) <==> Keeps(stages[0], v) && AllKeep(stages[1..], v)
  {
    if Keeps(stages[0], v) && AllKeep(stages[1..], v) {
      forall i | 1 <= i < |stages| ensures Keeps(stages[i], v) {
        assert stages[1..][i - 1] == stages[i];
      }
    }
  }

  /** Running one more stage at the end applies it to what the others left. */
  lemma {:induction false} RunSnoc(stages: seq<Stage>, last: Stage, docs: seq<Video>)
    ensures Run(stages + [last], docs) == Apply(last, Run(stages, docs))
    decreases |stages|
  {
    if stages == [] {
      assert [] + [last] == [last];
      assert [last][1..] == [];
    } else {
      assert (stages + [last])[1..] == stages[1..] + [last];
      RunSnoc(stages[1..], last, Apply(stages[0], docs));
    }
  }

  lemma AllKeepConcat(a: seq<Stage>, b: seq<Stage>, v: Video)
    ensures AllKeep(a + b, v) <==> AllKeep(a, v) && AllKeep(b, v)
  {
    if AllKeep(a, v) && AllKeep(b, v) {
      forall i | 0 <= i < |a + b| ensures Keeps((a + b)[i], v) {
        if i >= |a| {
          assert (a + b)[i] == b[i - |a|];
        }
      }
    }
    if AllKeep(a + b, v) {
      forall i | 0 <= i < |a| ensures Keeps(a[i], v) {
        assert (a + b)[i] == a[i];
      }
      forall i | 0 <= i < |b| ensures Keeps(b[i], v) {
        assert (a + b)[|a| + i] == b[i];
      }
    }
  }

  /** The pipeline lets exactly the selected videos through. */
  lemma PipelineSelects(q: ListQuery, viewer: Option<Id>, isValidId: Id -> bool, v: Video)
    requires BuildPipeline(q, viewer, isValidId).Ok?
    ensures AllKeep(BuildPipeline(q, viewer, isValidId).value, v) <==> Selected(q, viewer, v)
  {
    var owner, visibility, text := OwnerStages(q), VisibilityStages(q, viewer), TextStages(q);
    AllKeepConcat(owner, visibility, v);
    AllKeepConcat(owner + visibility, text, v);
    AllKeepConcat(owner + visibility + text, [SortStageOf(q)], v);
    OwnerStagesKeep(q, v);
    VisibilityStagesKeep(q, viewer, v);
    TextStagesKeep(q, v);
    AllKeepSingle(SortStageOf(q), v);
  }

  lemma OwnerStagesKeep(q: ListQuery, v: Video)
    ensures AllKeep(OwnerStages(q), v) <==> (Truthy(q.userId) ==> v.owner == q.userId.value)
  {
    if Truthy(q.userId) {
      AllKeepSingle(MatchOwner(q.userId.value), v);
    }
  }

  lemma VisibilityStagesKeep(q: ListQuery, viewer: Option<Id>, v: Video)
    ensures AllKeep(VisibilityStages(q, viewer), v) <==> (v.isPublished || IsOwnChannel(q, viewer))
  {
    if !IsOwnChannel(q, viewer) {
      AllKeepSingle(MatchPublished, v);
    }
  }

  lemma TextStagesKeep(q: ListQuery, v: Video)
    ensures AllKeep(TextStages(q), v) <==> (TextFilterActive(q) ==> MatchesText(q.query.value, v))
  {
    if TextFilterActive(q) {
      AllKeepSingle(MatchText(q.query.value), v);
    }
  }

  lemma AllKeepSingle(s: Stage, v: Video)
    ensures AllKeep([s], v) <==> Keeps(s, v)
  {
    assert [s][0] == s;
  }

  /** The listing answers 400 exactly for a present but malformed `userId`;
      otherwise it holds every selected video of the collection, as often as
      it occurs there, and nothing else, sorted on the resolved field in the
      resolved order. */
  lemma ListVideosContents(all: seq<Video>, q: ListQuery, viewer: Option<Id>, isValidId: Id -> bool)
    ensures ListVideos(all, q, viewer, isValidId).Fail? <==> Truthy(q.userId) && !isValidId(q.userId.value)
    ensures ListVideos(all, q, viewer, isValidId).Fail? ==> ListVideos(all, q, viewer, isValidId).HasStatus(BAD_REQUEST)
    ensures ListVideos(all, q, viewer, isValidId).Ok? ==>
              var r := ListVideos(all, q, viewer, isValidId).value;
              SortedBy(r, ResolveSortField(q.sortBy), ResolveOrder(q.sortType)) &&
              forall v :: multiset(r)[v] == if Selected(q, viewer, v) then multiset(all)[v] else 0
  {
    var built := BuildPipeline(q, viewer, isValidId);
    if built.Ok? {
      var stages := built.value;
      var r := Run(stages, all);
      var sort := SortStageOf(q);
      var filters := stages[..|stages| - 1];
      assert stages == filters + [sort];
      RunSnoc(filters, sort, all);
      forall v ensures multiset(r)[v] == if Selected(q, viewer, v) then multiset(all)[v] else 0 {
        RunMultiplicity(stages, all, v);
        PipelineSelects(q, viewer, isValidId, v);
      }
    }
  }

  /** With a `userId`, every listed video belongs to that user. */
  lemma ListedOwnerMatches(all: seq<Video>, q: ListQuery, viewer: Option<Id>, isValidId: Id -> bool, v: Video)
    requires Truthy(q.userId)
    requires ListVideos(all, q, viewer, isValidId).Ok?
    requires v in ListVideos(all, q, viewer, isValidId).value
    ensures v.owner == q.userId.value && v in all
  {
    ListVideosContents(all, q, viewer, isValidId);
    assert multiset(ListVideos(all, q, viewer, isValidId).value)[v] > 0;
  }

  /** An unpublished video is listed only on its owner's own channel: the
      query names the owner and the viewer is that owner. */
  lemma ListedUnpublishedIsOwn(all: seq<Video>, q: ListQuery, viewer: Option<Id>, isValidId: Id -> bool, v: Video)
    requires ListVideos(all, q, viewer, isValidId).Ok?
    requires v in ListVideos(all, q, viewer, isValidId).value
    requires !v.isPublished
    ensures q.userId == Some(v.owner) && viewer == Some(v.owner)
  {
    ListVideosContents(all, q, viewer, isValidId);
    assert multiset(ListVideos(all, q, viewer, isValidId).value)[v] > 0;
  }

  /** Under an active text filter every listed video matches the query in
      its title or its description. */
  lemma ListedMatchesText(all: seq<Video>, q: ListQuery, viewer: Option<Id>, isValidId: Id -> bool, v: Video)
    requires TextFilterActive(q)
    requires ListVideos(all, q, viewer, isValidId).Ok?
    requires v in ListVideos(all, q, viewer, isValidId).value
    ensures MatchesText(q.query.value, v)
  {
    ListVideosContents(all, q, viewer, isValidId);
    assert multiset(ListVideos(all, q, viewer, isValidId).value)[v] > 0;
  }

  /** An unpublished video of user A in the collection: a viewer other than
      A never sees it, and A sees it when listing the channel A (with no
      text filter). */
  lemma UnpublishedVisibility(all: seq<Video>, v: Video, other: Id, sortBy: Option<string>, sortType: Option<string>,
                              isValidId: Id -> bool)
    requires v in all && !v.isPublished && other != v.owner && v.owner != ""
    requires isValidId(v.owner)
    ensures forall q: ListQuery :: ListVideos(all, q, Some(other), isValidId).Ok? ==>
              v !in ListVideos(all, q, Some(other), isValidId).value
    ensures var own := ListQuery(None, sortBy, sortType, Some(v.owner));
            ListVideos(all, own, Some(v.owner), isValidId).Ok? &&
            v in ListVideos(all, own, Some(v.owner), isValidId).value
  {
    forall q: ListQuery | ListVideos(all, q, Some(other), isValidId).Ok?
      ensures v !in ListVideos(all, q, Some(other), isValidId).value
    {
      if v in ListVideos(all, q, Some(other), isValidId).value {
        ListedUnpublishedIsOwn(all, q, Some(other), isValidId, v);
      }
    }
    var own := ListQuery(None, sortBy, sortType, Some(v.owner));
    ListVideosContents(all, own, Some(v.owner), isValidId);
    assert Selected(own, Some(v.owner), v);
    assert multiset(all)[v] > 0;
  }

  /** An unknown sort field sorts on the creation time. */
  lemma UnknownSortFieldFallsBack(all: seq<Video>, q: ListQuery, viewer: Option<Id>, isValidId: Id -> bool)
    requires q.sortBy.Some? && q.sortBy.value !in ALLOWED_SORT_FIELDS
    requires ListVideos(all, q, viewer, isValidId).Ok?
    ensures SortedBy(ListVideos(all, q, viewer, isValidId).value, CreatedAt, ResolveOrder(q.sortType))
  {
    ListVideosContents(all, q, viewer, isValidId);
    SortResolution(q.sortBy, q.sortType);
  }

  /** Three published videos with durations 10, 20 and 30, listed by
      duration in descending order, come out as 30, 20, 10. */
  lemma DurationDescendingExample(a: Video, b: Video, c: Video, isValidId: Id -> bool)
    requires a.duration == 10 && b.duration == 20 && c.duration == 30
    requires a.isPublished && b.isPublished && c.isPublished
    ensures var q := ListQuery(None, Some("duration"), Some("desc"), None);
            var r := ListVideos([a, b, c], q, None, isValidId);
            r.Ok? && |r.value| == 3 &&
            r.value[0].duration == 30 && r.value[1].duration == 20 && r.value[2].duration == 10
  {
    var q := ListQuery(None, Some("duration"), Some("desc"), None);
    assert SafeSortBy(q.sortBy) == "duration";
    ListingOfPublished([a, b, c], q, None, isValidId);
    var r := ListVideos([a, b, c], q, None, isValidId).value;
    assert |r| == 3 by {
      assert |multiset(r)| == |multiset([a, b, c])|;
    }
    DescendingOfThree(r, a, b, c);
  }

  /** Without owner and text filters, a collection of published videos is
      listed whole, reordered. */
  lemma ListingOfPublished(all: seq<Video>, q: ListQuery, viewer: Option<Id>, isValidId: Id -> bool)
    requires !Truthy(q.userId) && !TextFilterActive(q)
    requires forall i :: 0 <= i < |all| ==> all[i].isPublished
    ensures ListVideos(all, q, viewer, isValidId).Ok?
    ensures multiset(ListVideos(all, q, viewer, isValidId).value) == multiset(all)
    ensures SortedBy(ListVideos(all, q, viewer, isValidId).value, ResolveSortField(q.sortBy), ResolveOrder(q.sortType))
  {
    ListVideosContents(all, q, viewer, isValidId);
    var r := ListVideos(all, q, viewer, isValidId).value;
    forall v ensures multiset(r)[v] == multiset(all)[v] {
      if !v.isPublished {
        assert v !in all;
      }
    }
  }

  /** A descending arrangement of three videos with durations 10, 20, 30. */
  lemma DescendingOfThree(r: seq<Video>, a: Video, b: Video, c: Video)
    requires a.duration == 10 && b.duration == 20 && c.duration == 30
    requires |r| == 3 && multiset(r) == multiset([a, b, c])
    requires SortedBy(r, Duration, Descending)
    ensures r[0].duration == 30 && r[1].duration == 20 && r[2].duration == 10
  {
    assert r[0] in multiset(r) && r[1] in multiset(r) && r[2] in multiset(r);
    assert Precedes(Duration, Descending, r[0], r[1]) && Precedes(Duration, Descending, r[1], r[2]);
    assert c in multiset(r);
    assert a in multiset(r);
  }
}
