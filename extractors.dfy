/** The three extractors `scrapeFacebookVideos`, `scrapeFacebookPosts` and
    `scrapeFacebookPages`: their early-return guards, the navigation they make,
    the settling step, and the record each matched result node becomes.
    Selector matching is abstracted away: a node is given as the values its
    selectors produce (an attribute, or the raw text of a selection, which is
    the empty string when the selection is empty). */
module Extractors {
  import opened JsText
  import ViewCount
  import PageSettling

  const FacebookOrigin: string := "https://www.facebook.com"
  const UnknownDuration: string := "Unknown"
  const Untitled: string := "Untitled"
  const UnknownUploader: string := "Unknown"
  const NoContent: string := "No content available"
  const UnknownPage: string := "Unknown Page"

  /** `if (href) href = "https://www.facebook.com" + href`: a truthy href is
      prefixed with the site origin whatever it already holds; a missing or
      empty one is left as it is. */
  function PrefixOrigin(href: Attr): (r: Attr)
    ensures r.Present? <==> href.Present?
    ensures href.Truthy() ==>
      && |r.value| == |FacebookOrigin| + |href.value|
      && r.value[..|FacebookOrigin|] == FacebookOrigin
      && r.value[|FacebookOrigin|..] == href.value
    ensures !href.Truthy() ==> r == href
  {
    if href.Truthy() then Present(FacebookOrigin + href.value) else href
  }

  /** No check for an absolute URL is made: an href that already holds the
      origin gets it a second time. */
  lemma AbsoluteHrefGetsOriginTwice(path: string)
    ensures PrefixOrigin(Present(FacebookOrigin + path)) == Present(FacebookOrigin + FacebookOrigin + path)
  {
  }

  /** What the selectors of the video extractor yield for one `div.x1yztbdb`. */
  datatype VideoNode = VideoNode(
    watchHref: Attr,       // href of the first a[href*="/watch/"]
    thumbnailSrc: Attr,    // src of img.xz74otr
    durationText: string,  // text of span.video-duration
    titleText: string,     // text of the first "h2 a, div[role='link']"
    viewsText: string,     // text of div:contains('views')
    uploaderText: string,  // text of the first uploader link
    uploaderHref: Attr)    // href of the first uploader link

  /** The `videoData` object pushed for each node. */
  datatype VideoRecord = VideoRecord(
    title: string,
    image: string,
    time: string,
    profileId: string,
    postUrl: Attr,
    thumbnail: string,
    duration: string,
    views: nat)

  /** A string field after `.trim() || fallback`: never empty, and either the
      fallback or the trimmed text. */
  predicate TrimmedOrDefault(field: string, raw: string, fallback: string) {
    field == (if Trim(raw) == [] then fallback else Trim(raw))
  }

  /** The per-node body of `scrapeFacebookVideos`. */
  function VideoRecordOf(n: VideoNode): VideoRecord
  {
    var videoUrl := PrefixOrigin(n.watchHref);
    var thumbnail := AttrOrElse(n.thumbnailSrc, "");
    var duration := OrElse(Trim(n.durationText), UnknownDuration);
    var title := Trim(n.titleText);
    var views := ViewCount.ParseViews(n.viewsText);
    var uploaderName := OrElse(Trim(n.uploaderText), UnknownUploader);
    VideoRecord(OrElse(title, Untitled), thumbnail, duration, uploaderName, videoUrl, thumbnail, duration, views)
  }

  /** The fields of a video record: the duplicated image and time, the trimmed
      texts or their defaults, the prefixed URL and the parsed view count. */
  lemma VideoRecordFields(n: VideoNode)
    ensures var r := VideoRecordOf(n);
      && r.image == r.thumbnail && r.time == r.duration
      && r.thumbnail == (if n.thumbnailSrc.Truthy() then n.thumbnailSrc.value else "")
      && TrimmedOrDefault(r.duration, n.durationText, UnknownDuration)
      && TrimmedOrDefault(r.title, n.titleText, Untitled)
      && TrimmedOrDefault(r.profileId, n.uploaderText, UnknownUploader)
      && r.title != [] && r.duration != [] && r.profileId != []
      && (r.postUrl.Present? <==> n.watchHref.Present?)
      && (n.watchHref.Truthy() ==> r.postUrl == Present(FacebookOrigin + n.watchHref.value))
      && (!n.watchHref.Truthy() ==> r.postUrl == n.watchHref)
      && r.views == ViewCount.ParseViews(n.viewsText)
  {
  }

  /** `uploaderProfileUrl`: computed for every video node like the video URL,
      but never stored in the record. */
  function UploaderProfileUrl(n: VideoNode): (r: Attr)
    ensures r.Present? <==> n.uploaderHref.Present?
    ensures n.uploaderHref.Truthy() ==> r == Present(FacebookOrigin + n.uploaderHref.value)
  {
    PrefixOrigin(n.uploaderHref)
  }

  /** A node whose selectors all come up empty still yields a record, made
      entirely of defaults, with no video URL. */
  lemma EmptyVideoNodeDefaults(n: VideoNode)
    requires n.watchHref == Absent && n.thumbnailSrc == Absent
    requires forall k :: 0 <= k < |n.durationText| ==> IsTrimmable(n.durationText[k])
    requires forall k :: 0 <= k < |n.titleText| ==> IsTrimmable(n.titleText[k])
    requires forall k :: 0 <= k < |n.uploaderText| ==> IsTrimmable(n.uploaderText[k])
    requires forall k :: 0 <= k < |n.viewsText| ==> !ViewCount.IsDigit(n.viewsText[k])
    ensures VideoRecordOf(n) == VideoRecord(Untitled, "", UnknownDuration, UnknownUploader, Absent, "", UnknownDuration, 0)
  {
  }

  /** What the selectors of the post extractor yield for one `div.post-selector`. */
  datatype PostNode = PostNode(linkHref: Attr, paragraphText: string)

  datatype PostRecord = PostRecord(postUrl: string, content: string)

  /** The per-node body of `scrapeFacebookPosts`; its URL is not prefixed. */
  function PostRecordOf(n: PostNode): PostRecord
  {
    PostRecord(AttrOrElse(n.linkHref, ""), OrElse(Trim(n.paragraphText), NoContent))
  }

  /** The fields of a post record: the raw link and the trimmed text or its default. */
  lemma PostRecordFields(n: PostNode)
    ensures var r := PostRecordOf(n);
      && r.postUrl == (if n.linkHref.Truthy() then n.linkHref.value else "")
      && TrimmedOrDefault(r.content, n.paragraphText, NoContent)
      && r.content != []
  {
  }

  /** What the selectors of the page extractor yield for one `div.page-selector`. */
  datatype PageNode = PageNode(linkHref: Attr, headingText: string)

  datatype PageRecord = PageRecord(pageUrl: string, name: string)

  /** The per-node body of `scrapeFacebookPages`; its URL is not prefixed. */
  function PageRecordOf(n: PageNode): PageRecord
  {
    PageRecord(AttrOrElse(n.linkHref, ""), OrElse(Trim(n.headingText), UnknownPage))
  }

  /** The fields of a page record: the raw link and the trimmed heading or its default. */
  lemma PageRecordFields(n: PageNode)
    ensures var r := PageRecordOf(n);
      && r.pageUrl == (if n.linkHref.Truthy() then n.linkHref.value else "")
      && TrimmedOrDefault(r.name, n.headingText, UnknownPage)
      && r.name != []
  {
  }

  /** `$(selector).each((_, element) => { …; results.push(record) })`: one
      record per matched node, in node order. */
  method Collect<N, R>(nodes: seq<N>, recordOf: N -> R) returns (results: seq<R>)
    ensures results == RecordsOf(nodes, recordOf)
  {
    results := [];
    for i := 0 to |nodes|
      invariant |results| == i
      invariant forall j :: 0 <= j < i ==> results[j] == recordOf(nodes[j])
    {
      results := results + [recordOf(nodes[i])];
    }
  }

  /** Reference definition of the records an extractor builds from its
      result nodes: one per node, in node order. */
  function RecordsOf<N, R>(nodes: seq<N>, recordOf: N -> R): seq<R> {
    seq(|nodes|, i requires 0 <= i < |nodes| => recordOf(nodes[i]))
  }

  /** The page an extractor navigates to. Every extractor goes through
      `navigateToSearch`, which only ever builds the video search URL. */
  datatype SearchUrl = VideoSearch(query: string)

  /** What the browser shows an extractor once it has navigated. */
  datatype Search<N> =
    | NoContainer                                // waitForSelector timed out (caught)
    | Rendered(heights: seq<int>, nodes: seq<N>) // the heights the settler reads, the matched nodes
    | Failed                                     // scrollToEnd or page.content() threw (not caught)
  {
    /** The page reports a height for every round the settler can run. */
    predicate WellFormed() {
      Rendered? ==> PageSettling.MaxRounds <= |heights|
    }
  }

  /** How an extractor call ends: it returns an array, or the error it did not
      catch propagates to its caller. */
  datatype Outcome<R> = Returned(records: seq<R>) | Threw

  /** Reference definition of an extractor's outcome. */
  function Extract<N, R>(closed: bool, search: Search<N>, recordOf: N -> R): (o: Outcome<R>)
    ensures closed ==> o == Returned([])
    ensures search.NoContainer? ==> o == Returned([])
    ensures o.Threw? <==> !closed && search.Failed?
    ensures !closed && search.Rendered? ==> o.Returned? && |o.records| == |search.nodes|
  {
    if closed then Returned([])
    else
      match search
      case NoContainer => Returned([])
      case Failed => Threw
      case Rendered(_, nodes) => Returned(RecordsOf(nodes, recordOf))
  }

  /** An extractor that gets to its result nodes emits exactly one record per
      node, in node order. */
  lemma OneRecordPerNode<N, R>(closed: bool, search: Search<N>, recordOf: N -> R, i: nat)
    requires !closed && search.Rendered? && i < |search.nodes|
    ensures Extract(closed, search, recordOf).Returned?
    ensures |Extract(closed, search, recordOf).records| == |search.nodes|
    ensures Extract(closed, search, recordOf).records[i] == recordOf(search.nodes[i])
  {
  }

  /** The shared body of the three extractors: guard on a closed page,
      navigate, wait for the container, settle, collect. */
  method RunExtractor<N, R>(query: string, closed: bool, search: Search<N>, recordOf: N -> R)
    returns (visited: seq<SearchUrl>, outcome: Outcome<R>)
    requires search.WellFormed()
    ensures visited == if closed then [] else [VideoSearch(query)]
    ensures outcome == Extract(closed, search, recordOf)
  {
    if closed {
      return [], Returned([]);
    }
    visited := [VideoSearch(query)];
    match search
    case NoContainer =>
      outcome := Returned([]);
    case Failed =>
      outcome := Threw;
    case Rendered(heights, nodes) =>
      var _, _, _ := PageSettling.ScrollToEnd(heights);
      var records := Collect(nodes, recordOf);
      outcome := Returned(records);
  }

  /** `scrapeFacebookVideos(query, page)`. */
  method ScrapeVideos(query: string, closed: bool, search: Search<VideoNode>)
    returns (visited: seq<SearchUrl>, outcome: Outcome<VideoRecord>)
    requires search.WellFormed()
    ensures visited == if closed then [] else [VideoSearch(query)]
    ensures outcome == Extract(closed, search, VideoRecordOf)
  {
    visited, outcome := RunExtractor(query, closed, search, VideoRecordOf);
  }

  /** `scrapeFacebookPosts(query, page)`: it navigates to the video search. */
  method ScrapePosts(query: string, closed: bool, search: Search<PostNode>)
    returns (visited: seq<SearchUrl>, outcome: Outcome<PostRecord>)
    requires search.WellFormed()
    ensures visited == if closed then [] else [VideoSearch(query)]
    ensures outcome == Extract(closed, search, PostRecordOf)
  {
    visited, outcome := RunExtractor(query, closed, search, PostRecordOf);
  }

  /** `scrapeFacebookPages(query, page)`: it navigates to the video search. */
  method ScrapePages(query: string, closed: bool, search: Search<PageNode>)
    returns (visited: seq<SearchUrl>, outcome: Outcome<PageRecord>)
    requires search.WellFormed()
    ensures visited == if closed then [] else [VideoSearch(query)]
    ensures outcome == Extract(closed, search, PageRecordOf)
  {
    visited, outcome := RunExtractor(query, closed, search, PageRecordOf);
  }
}
