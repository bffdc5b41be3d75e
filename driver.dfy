/** The live driver loop: for each configured query a fresh page is opened and
    the video, post and page extractors run in that order, each record being
    handed to `uploadResultsToAPI` with its type as soon as its extractor has
    returned. `uploadResultsToAPI` only logs, so an upload is modelled as an
    entry appended to a trace. Nothing in the loop catches an error an
    extractor throws: it ends the whole run. */
module CrawlDriver {
  import opened Extractors

  /** The `type` argument of `uploadResultsToAPI`: 'video', 'post' or 'page'. */
  datatype Category = VideoType | PostType | PageType

  /** The position of a category in the fixed order the driver runs them in. */
  function Rank(c: Category): nat {
    match c
    case VideoType => 0
    case PostType => 1
    case PageType => 2
  }

  datatype Item = VideoItem(video: VideoRecord) | PostItem(post: PostRecord) | PageItem(page: PageRecord)

  /** One call `uploadResultsToAPI(item, type)`. */
  datatype Upload = Upload(item: Item, kind: Category)

  /** Everything one iteration of the loop depends on: the query, whether the
      fresh page is closed, and what each extractor finds. */
  datatype QueryPage = QueryPage(
    query: string,
    closed: bool,
    videos: Search<VideoNode>,
    posts: Search<PostNode>,
    pages: Search<PageNode>)
  {
    predicate WellFormed() {
      videos.WellFormed() && posts.WellFormed() && pages.WellFormed()
    }
  }

  /** The uploads made so far and whether an uncaught error ended the run. */
  datatype Trace = Trace(uploads: seq<Upload>, crashed: bool)

  function WrapVideo(r: VideoRecord): Item { VideoItem(r) }
  function WrapPost(r: PostRecord): Item { PostItem(r) }
  function WrapPage(r: PageRecord): Item { PageItem(r) }

  /** The uploads `uploadResultsToAPI(r, kind)` for each of `records`, in order. */
  function Uploads<R>(records: seq<R>, wrap: R -> Item, kind: Category): seq<Upload> {
    seq(|records|, i requires 0 <= i < |records| => Upload(wrap(records[i]), kind))
  }

  function VideoUploads(records: seq<VideoRecord>): seq<Upload> {
    Uploads(records, WrapVideo, VideoType)
  }

  function PostUploads(records: seq<PostRecord>): seq<Upload> {
    Uploads(records, WrapPost, PostType)
  }

  function PageUploads(records: seq<PageRecord>): seq<Upload> {
    Uploads(records, WrapPage, PageType)
  }

  /** Reference definition of one iteration of the loop, given what its three
      extractor calls end with: the uploads of each returned array follow
      those of the one before, and an extractor that throws ends the
      iteration (and, uncaught, the run). */
  function TraceOf(vo: Outcome<VideoRecord>, po: Outcome<PostRecord>, go: Outcome<PageRecord>): Trace {
    match vo
    case Threw => Trace([], true)
    case Returned(vs) =>
      match po
      case Threw => Trace(VideoUploads(vs), true)
      case Returned(ps) =>
        match go
        case Threw => Trace(VideoUploads(vs) + PostUploads(ps), true)
        case Returned(gs) => Trace(VideoUploads(vs) + PostUploads(ps) + PageUploads(gs), false)
  }

  /** One iteration of the loop for query page `q`. */
  function QueryTrace(q: QueryPage): Trace {
    TraceOf(Extract(q.closed, q.videos, VideoRecordOf),
            Extract(q.closed, q.posts, PostRecordOf),
            Extract(q.closed, q.pages, PageRecordOf))
  }

  /** Consecutive iterations: their uploads one after the other, up to and
      including the first iteration that crashed. */
  function Combine(ts: seq<Trace>): Trace
    decreases |ts|
  {
    if ts == [] then Trace([], false)
    else if ts[0].crashed then ts[0]
    else
      var rest := Combine(ts[1..]);
      Trace(ts[0].uploads + rest.uploads, rest.crashed)
  }

  /** The iterations for the queries `qs`, one per query, in order. */
  function QueryTraces(qs: seq<QueryPage>): (ts: seq<Trace>)
    ensures |ts| == |qs|
  {
    if qs == [] then [] else [QueryTrace(qs[0])] + QueryTraces(qs[1..])
  }

  lemma {:induction false} QueryTracesAt(qs: seq<QueryPage>, i: nat)
    requires i < |qs|
    ensures QueryTraces(qs)[i] == QueryTrace(qs[i])
  {
    if i > 0 {
      QueryTracesAt(qs[1..], i - 1);
    }
  }

  /** Reference definition of the whole loop over the queries, in order. */
  function RunTrace(qs: seq<QueryPage>): Trace {
    Combine(QueryTraces(qs))
  }

  /** The uploads of one category, in trace order. */
  function Select(uploads: seq<Upload>, c: Category): (r: seq<Upload>)
    ensures |r| <= |uploads|
    ensures forall i :: 0 <= i < |r| ==> r[i].kind == c
  {
    if uploads == [] then []
    else if uploads[0].kind == c then [uploads[0]] + Select(uploads[1..], c)
    else Select(uploads[1..], c)
  }

  lemma {:induction false} SelectAppend(a: seq<Upload>, b: seq<Upload>, c: Category)
    ensures Select(a + b, c) == Select(a, c) + Select(b, c)
  {
    if a == [] {
      assert a + b == b;
    } else {
      assert (a + b)[0] == a[0];
      assert (a + b)[1..] == a[1..] + b;
      SelectAppend(a[1..], b, c);
    }
  }

  /** Selecting the category every upload already has keeps them all;
      selecting any other keeps none. */
  lemma {:induction false} SelectUniform(u: seq<Upload>, k: Category, c: Category)
    requires forall i :: 0 <= i < |u| ==> u[i].kind == k
    ensures Select(u, c) == if k == c then u else []
  {
    if u != [] {
      SelectUniform(u[1..], k, c);
    }
  }

  /** The uploads of one query, when its extractors return `vs`, `ps` and
      `gs`: videos, then posts, then pages. */
  function Segments(vs: seq<VideoRecord>, ps: seq<PostRecord>, gs: seq<PageRecord>): seq<Upload> {
    VideoUploads(vs) + PostUploads(ps) + PageUploads(gs)
  }

  /** Every iteration's uploads have the three-segment shape; an extractor
      that threw, or never ran, contributes an empty segment. */
  lemma TraceSegments(vo: Outcome<VideoRecord>, po: Outcome<PostRecord>, go: Outcome<PageRecord>)
    returns (vs: seq<VideoRecord>, ps: seq<PostRecord>, gs: seq<PageRecord>)
    ensures TraceOf(vo, po, go).uploads == Segments(vs, ps, gs)
    ensures vs == if vo.Returned? then vo.records else []
    ensures ps == if vo.Returned? && po.Returned? then po.records else []
    ensures !TraceOf(vo, po, go).crashed <==> vo.Returned? && po.Returned? && go.Returned?
    ensures gs == if !TraceOf(vo, po, go).crashed then go.records else []
  {
    vs, ps, gs := [], [], [];
    if vo.Returned? {
      vs := vo.records;
      if po.Returned? {
        ps := po.records;
        if go.Returned? {
          gs := go.records;
        }
      }
    }
    assert VideoUploads([]) == [] && PostUploads([]) == [] && PageUploads([]) == [];
  }

  lemma SegmentKind(vs: seq<VideoRecord>, ps: seq<PostRecord>, gs: seq<PageRecord>, i: nat)
    requires i < |Segments(vs, ps, gs)|
    ensures Rank(Segments(vs, ps, gs)[i].kind) == if i < |vs| then 0 else if i < |vs| + |ps| then 1 else 2
  {
    var u := Segments(vs, ps, gs);
    if i < |vs| {
      assert u[i] == VideoUploads(vs)[i];
    } else if i < |vs| + |ps| {
      assert u[i] == PostUploads(ps)[i - |vs|];
    } else {
      assert u[i] == PageUploads(gs)[i - |vs| - |ps|];
    }
  }

  /** Within one iteration, every video upload precedes every post upload,
      which precedes every page upload, whatever the extractors return. */
  lemma {:induction false} CategoriesInFixedOrder(vo: Outcome<VideoRecord>, po: Outcome<PostRecord>, go: Outcome<PageRecord>, a: nat, b: nat)
    requires a < b < |TraceOf(vo, po, go).uploads|
    ensures Rank(TraceOf(vo, po, go).uploads[a].kind) <= Rank(TraceOf(vo, po, go).uploads[b].kind)
  {
    var vs, ps, gs := TraceSegments(vo, po, go);
    SegmentKind(vs, ps, gs, a);
    SegmentKind(vs, ps, gs, b);
  }

  /** Selecting one category from the three segments keeps exactly that
      category's segment. */
  lemma SelectSegments(vs: seq<VideoRecord>, ps: seq<PostRecord>, gs: seq<PageRecord>)
    ensures Select(Segments(vs, ps, gs), VideoType) == VideoUploads(vs)
    ensures Select(Segments(vs, ps, gs), PostType) == PostUploads(ps)
    ensures Select(Segments(vs, ps, gs), PageType) == PageUploads(gs)
  {
    SelectSegment(VideoUploads(vs), PostUploads(ps), PageUploads(gs), VideoType);
    SelectSegment(PostUploads(ps), VideoUploads(vs), PageUploads(gs), PostType);
    SelectSegment(PageUploads(gs), VideoUploads(vs), PostUploads(ps), PageType);
  }

  /** Selecting category `c` from segments in any order, of which only `own`
      holds `c`, keeps `own`. */
  lemma SelectSegment(own: seq<Upload>, x: seq<Upload>, y: seq<Upload>, c: Category)
    requires forall i :: 0 <= i < |own| ==> own[i].kind == c
    requires forall i :: 0 <= i < |x| ==> x[i].kind != c
    requires forall i :: 0 <= i < |y| ==> y[i].kind != c
    ensures c == VideoType ==> Select(own + x + y, c) == own
    ensures c == PostType ==> Select(x + own + y, c) == own
    ensures c == PageType ==> Select(x + y + own, c) == own
  {
    SelectUniform(own, c, c);
    SelectNone(x, c);
    SelectNone(y, c);
    SelectAppend(own, x, c);
    SelectAppend(own + x, y, c);
    SelectAppend(x, own, c);
    SelectAppend(x + own, y, c);
    SelectAppend(x, y, c);
    SelectAppend(x + y, own, c);
  }

  lemma {:induction false} SelectNone(u: seq<Upload>, c: Category)
    requires forall i :: 0 <= i < |u| ==> u[i].kind != c
    ensures Select(u, c) == []
  {
    if u != [] {
      SelectNone(u[1..], c);
    }
  }

  /** Within one iteration, the uploads of each category are exactly the
      records its extractor returned, in extraction order; a category whose
      extractor threw or never ran has none. */
  lemma {:induction false} GroupsInExtractionOrder(vo: Outcome<VideoRecord>, po: Outcome<PostRecord>, go: Outcome<PageRecord>)
    ensures var t := TraceOf(vo, po, go);
      && Select(t.uploads, VideoType) == (if vo.Returned? then VideoUploads(vo.records) else [])
      && Select(t.uploads, PostType) == (if vo.Returned? && po.Returned? then PostUploads(po.records) else [])
      && Select(t.uploads, PageType) == (if !t.crashed then PageUploads(go.records) else [])
  {
    var vs, ps, gs := TraceSegments(vo, po, go);
    SelectSegments(vs, ps, gs);
  }

  /** A query whose page is closed, or whose three searches all time out,
      uploads nothing and does not stop the run. */
  lemma NothingFoundUploadsNothing(q: QueryPage)
    requires q.closed || (q.videos.NoContainer? && q.posts.NoContainer? && q.pages.NoContainer?)
    ensures QueryTrace(q) == Trace([], false)
  {
  }

  /** When nothing throws, every matched node is uploaded exactly once. */
  lemma {:induction false} OneUploadPerNode(q: QueryPage)
    requires !q.closed && q.videos.Rendered? && q.posts.Rendered? && q.pages.Rendered?
    ensures !QueryTrace(q).crashed
    ensures |QueryTrace(q).uploads| == |q.videos.nodes| + |q.posts.nodes| + |q.pages.nodes|
  {
  }

  /** The uploads of a run are those of its iterations, one after the other,
      until the first iteration whose extraction throws; no later iteration
      contributes anything. */
  lemma {:induction false} CrashEndsRun(ts: seq<Trace>, k: nat)
    requires k < |ts|
    requires forall j :: 0 <= j < k ==> !ts[j].crashed
    requires ts[k].crashed
    ensures Combine(ts) == Trace(Combine(ts[..k]).uploads + ts[k].uploads, true)
  {
    if k == 0 {
      assert ts[..0] == [];
    } else {
      assert ts[1..][..k - 1] == ts[1..k];
      assert ts[..k][1..] == ts[1..k];
      assert ts[..k][0] == ts[0];
      CrashEndsRun(ts[1..], k - 1);
    }
  }

  /** A run in which no iteration crashes ends normally. */
  lemma {:induction false} NoCrashEndsNormally(ts: seq<Trace>)
    requires forall j :: 0 <= j < |ts| ==> !ts[j].crashed
    ensures !Combine(ts).crashed
    decreases |ts|
  {
    if ts != [] {
      NoCrashEndsNormally(ts[1..]);
    }
  }

  /** The uploads of a run without a crash split at any iteration into those
      before it and those from it on. */
  lemma {:induction false} RunConcatenates(ts: seq<Trace>, k: nat)
    requires k <= |ts|
    requires forall j :: 0 <= j < |ts| ==> !ts[j].crashed
    ensures Combine(ts).uploads == Combine(ts[..k]).uploads + Combine(ts[k..]).uploads
  {
    if k == 0 {
      assert ts[..0] == [];
      assert ts[0..] == ts;
    } else {
      var tail := ts[1..];
      var front := ts[..k];
      assert front[0] == ts[0];
      assert front[1..] == tail[..k - 1];
      assert tail[k - 1..] == ts[k..];
      RunConcatenates(tail, k - 1);
    }
  }

  /** One step of `Combine` from iteration `i` on. */
  lemma CombineFrom(ts: seq<Trace>, i: nat)
    requires i < |ts|
    ensures Combine(ts[i..]) ==
      if ts[i].crashed then ts[i]
      else Trace(ts[i].uploads + Combine(ts[i + 1..]).uploads, Combine(ts[i + 1..]).crashed)
  {
    assert ts[i..][0] == ts[i];
    assert ts[i..][1..] == ts[i + 1..];
  }

  /** `for (const r of results) await uploadResultsToAPI(r, type)`. */
  method UploadEach<R>(trace: seq<Upload>, records: seq<R>, wrap: R -> Item, kind: Category)
    returns (trace': seq<Upload>)
    ensures trace' == trace + Uploads(records, wrap, kind)
  {
    trace' := trace;
    for i := 0 to |records|
      invariant |trace'| == |trace| + i
      invariant trace'[..|trace|] == trace
      invariant forall j :: 0 <= j < i ==> trace'[|trace| + j] == Upload(wrap(records[j]), kind)
    {
      trace' := trace' + [Upload(wrap(records[i]), kind)];
    }
    assert trace'[|trace|..] == Uploads(records, wrap, kind);
    assert trace' == trace'[..|trace|] + trace'[|trace|..];
  }

  /** One iteration of the driver loop: the three extractors on a fresh page
      and the uploads of their records, in the order they are made. */
  method RunQuery(q: QueryPage) returns (uploads: seq<Upload>, crashed: bool)
    requires q.WellFormed()
    ensures Trace(uploads, crashed) == QueryTrace(q)
  {
    var _, videos := ScrapeVideos(q.query, q.closed, q.videos);
    if videos.Threw? {
      return [], true;
    }
    uploads := UploadEach([], videos.records, WrapVideo, VideoType);
    var _, posts := ScrapePosts(q.query, q.closed, q.posts);
    if posts.Threw? {
      return uploads, true;
    }
    uploads := UploadEach(uploads, posts.records, WrapPost, PostType);
    var _, pages := ScrapePages(q.query, q.closed, q.pages);
    if pages.Threw? {
      return uploads, true;
    }
    uploads := UploadEach(uploads, pages.records, WrapPage, PageType);
    crashed := false;
  }

  /** The driver loop over the queries. */
  method Run(qs: seq<QueryPage>) returns (uploads: seq<Upload>, crashed: bool)
    requires forall j :: 0 <= j < |qs| ==> qs[j].WellFormed()
    ensures Trace(uploads, crashed) == RunTrace(qs)
  {
    ghost var ts := QueryTraces(qs);
    assert ts[0..] == ts;
    uploads, crashed := [], false;
    for i := 0 to |qs|
      invariant Combine(ts) == Trace(uploads + Combine(ts[i..]).uploads, Combine(ts[i..]).crashed)
    {
      CombineFrom(ts, i);
      QueryTracesAt(qs, i);
      ghost var rest := Combine(ts[i + 1..]);
      var mine;
      ghost var before := uploads;
      mine, crashed := RunQuery(qs[i]);
      uploads := uploads + mine;
      if crashed {
        return;
      }
      assert before + (mine + rest.uploads) == uploads + rest.uploads;
    }
    assert ts[|qs|..] == [];
  }
}
