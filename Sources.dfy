/** The testimonials `scrape_website` merges (src/scrapers/website_scraper.py): those of the
    customer-story pages under five fixed paths (`_get_case_study_testimonials`) and those around
    video players and review widgets (`_get_embedded_testimonials`). Fetching a page is a function
    parameter. */
module TestimonialSources {
  import opened Wrappers
  import opened Strings
  import opened Dom
  import opened Cleaning
  import opened Urls
  import opened StaticExtraction

  /** A testimonial dictionary: `text`, `author` and `company`, and for embedded ones `source` and,
      for videos, `platform`. */
  datatype Testimonial = Testimonial(text: string, author: string, company: string, source: Option<string>, platform: Option<string>)

  /** `requests.get(url)` with `raise_for_status()` and the parse: the page, or `None` for any
      exception. */
  type Fetcher = string -> Option<Node>

  // ---------------------------------------------------------------- case studies

  const CaseStudyPaths: seq<string> := ["/customers", "/case-studies", "/customer-stories", "/success-stories", "/testimonials"]

  const StoryNames: seq<string> := ["div", "article", "section"]
  const StoryClasses: seq<string> := ["testimonial", "review", "quote", "case-study"]
  const LabelNames: seq<string> := ["span", "div", "p"]

  /** The cleaned text of the first `span`, `div` or `p` below `l` with a class matching `words`, or
      `''` when there is none. */
  function LabelText(l: Located, words: seq<string>): string {
    match First(NamedWithClass(Inside(l), LabelNames, words))
    case None => ""
    case Some(e) => CleanText(GetText(e.node))
  }

  /** The entry of one story element: its cleaned text when longer than 30 characters, with the
      author and company labels inside it. */
  function StoryOf(l: Located): (r: Option<Testimonial>)
    ensures r.Some? ==> |r.value.text| > 30 && r.value.text == CleanText(GetText(l.node))
    ensures r.Some? ==> r.value.source.None? && r.value.platform.None?
  {
    var text := CleanText(GetText(l.node));
    if text != "" && |text| > 30 then
      Some(Testimonial(text, LabelText(l, ["author", "name", "customer"]), LabelText(l, ["company", "organization"]), None, None))
    else None
  }

  function Stories(ls: seq<Located>): (r: seq<Testimonial>)
    ensures |r| <= |ls|
  {
    if ls == [] then [] else Stories(ls[..|ls| - 1]) + StoryOf(ls[|ls| - 1]).ToSeq()
  }

  lemma StoriesSnoc(ls: seq<Located>, i: nat)
    requires i < |ls|
    ensures Stories(ls[..i + 1]) == Stories(ls[..i]) + StoryOf(ls[i]).ToSeq()
  {
    assert ls[..i + 1][..i] == ls[..i];
  }

  /** The story elements of one page. */
  function StoryElements(page: Node): seq<Located> {
    NamedWithClass(AllOf(page), StoryNames, StoryClasses)
  }

  /** The stories of the pages under the first `k` paths; a page that fails to load adds none. */
  function CaseStudiesUpTo(baseUrl: string, urljoin: UrlJoiner, fetch: Fetcher, k: nat): seq<Testimonial>
    requires k <= |CaseStudyPaths|
  {
    if k == 0 then []
    else
      CaseStudiesUpTo(baseUrl, urljoin, fetch, k - 1)
      + match fetch(urljoin(baseUrl, CaseStudyPaths[k - 1]))
        case None => []
        case Some(page) => Stories(StoryElements(page))
  }

  /** `_get_case_study_testimonials(base_url)`. */
  function CaseStudies(baseUrl: string, urljoin: UrlJoiner, fetch: Fetcher): seq<Testimonial> {
    CaseStudiesUpTo(baseUrl, urljoin, fetch, |CaseStudyPaths|)
  }

  /** Every story is the cleaned text of a story element longer than 30 characters, carrying no
      source or platform. */
  lemma {:induction false} StoriesValid(ls: seq<Located>)
    ensures forall t :: t in Stories(ls) ==> |t.text| > 30 && t.source.None? && t.platform.None?
    ensures forall t :: t in Stories(ls) ==> exists l :: l in ls && t.text == CleanText(GetText(l.node))
  {
    if ls != [] {
      StoriesValid(ls[..|ls| - 1]);
      assert forall l :: l in ls[..|ls| - 1] ==> l in ls;
    }
  }

  /** A story element with cleaned text longer than 30 characters always yields a story. */
  lemma {:induction false} StoriesComplete(ls: seq<Located>, k: nat)
    requires k < |ls| && |CleanText(GetText(ls[k].node))| > 30
    ensures StoryOf(ls[k]).Some? && StoryOf(ls[k]).value in Stories(ls)
  {
    if k < |ls| - 1 {
      assert ls[..|ls| - 1][k] == ls[k];
      StoriesComplete(ls[..|ls| - 1], k);
    }
  }

  /** With every fetch failing, there are no case-study testimonials. */
  lemma {:induction false} CaseStudiesOffline(baseUrl: string, urljoin: UrlJoiner, fetch: Fetcher, k: nat)
    requires k <= |CaseStudyPaths|
    requires forall i :: 0 <= i < k ==> fetch(urljoin(baseUrl, CaseStudyPaths[i])).None?
    ensures CaseStudiesUpTo(baseUrl, urljoin, fetch, k) == []
  {
    if k > 0 {
      CaseStudiesOffline(baseUrl, urljoin, fetch, k - 1);
    }
  }

  /** The inner loop over the story elements of one page. */
  method PageStories(ls: seq<Located>) returns (r: seq<Testimonial>)
    ensures r == Stories(ls)
  {
    r := [];
    var i := 0;
    while i < |ls|
      invariant 0 <= i <= |ls|
      invariant r == Stories(ls[..i])
    {
      StoriesSnoc(ls, i);
      var entry := StoryOf(ls[i]);
      if entry.Some? {
        r := r + [entry.value];
      }
      i := i + 1;
    }
    assert ls[..|ls|] == ls;
  }

  method GetCaseStudyTestimonials(baseUrl: string, urljoin: UrlJoiner, fetch: Fetcher) returns (testimonials: seq<Testimonial>)
    ensures testimonials == CaseStudies(baseUrl, urljoin, fetch)
  {
    testimonials := [];
    var k := 0;
    while k < |CaseStudyPaths|
      invariant 0 <= k <= |CaseStudyPaths|
      invariant testimonials == CaseStudiesUpTo(baseUrl, urljoin, fetch, k)
    {
      var page := fetch(urljoin(baseUrl, CaseStudyPaths[k]));
      if page.Some? {
        var found := PageStories(StoryElements(page.value));
        testimonials := testimonials + found;
      }
      k := k + 1;
    }
  }

  // ---------------------------------------------------------------- attribution

  /** `' at '` then `' from '`: the caption split at the first occurrence, or the whole caption as the
      author of an `Unknown` company; `Anonymous` with no caption. */
  function Attribution(caption: Option<string>): (r: (string, string))
    ensures caption.None? ==> r == ("Anonymous", "Unknown")
    ensures caption.Some? && Contains(caption.value, " at ") ==>
      r.0 + " at " + r.1 == caption.value && !Contains(r.0, " at ")
    ensures caption.Some? && !Contains(caption.value, " at ") && Contains(caption.value, " from ") ==>
      r.0 + " from " + r.1 == caption.value && !Contains(r.0, " from ")
    ensures caption.Some? && !Contains(caption.value, " at ") && !Contains(caption.value, " from ") ==>
      r == (caption.value, "Unknown")
  {
    match caption
    case None => ("Anonymous", "Unknown")
    case Some(t) =>
      if Contains(t, " at ") then SplitOnce(t, " at ")
      else if Contains(t, " from ") then SplitOnce(t, " from ")
      else (t, "Unknown")
  }

  // ---------------------------------------------------------------- video players

  /** `video_platforms`, in insertion order, each pattern's alternatives written out. */
  const VideoPlatforms: seq<(string, seq<string>)> := [
    ("youtube", ["youtube.com", "youtu.be"]),
    ("vimeo", ["vimeo.com"]),
    ("wistia", ["wistia.com"]),
    ("vidyard", ["vidyard.com"]),
    ("brightcove", ["brightcove.net"])
  ]

  /** `re.search(pattern, url, re.I)` for a pattern of literal alternatives. */
  predicate MatchesPattern(url: string, alternatives: seq<string>) {
    ContainsAny(Lower(url), alternatives)
  }

  predicate IsVideoPlatform(url: string) {
    exists i :: 0 <= i < |VideoPlatforms| && MatchesPattern(url, VideoPlatforms[i].1)
  }

  /** The `next(...)` over the platform table: the first platform whose pattern matches. */
  function PlatformFrom(url: string, platforms: seq<(string, seq<string>)>): (r: string) {
    if platforms == [] then "unknown"
    else if MatchesPattern(url, platforms[0].1) then platforms[0].0
    else PlatformFrom(url, platforms[1..])
  }

  /** The platform is the first table entry whose pattern matches, and `unknown` when none does. */
  lemma {:induction false} PlatformFromSpec(url: string, platforms: seq<(string, seq<string>)>)
    requires forall i :: 0 <= i < |platforms| ==> platforms[i].0 != "unknown"
    ensures PlatformFrom(url, platforms) == "unknown" <==>
      forall i :: 0 <= i < |platforms| ==> !MatchesPattern(url, platforms[i].1)
    ensures forall k :: (0 <= k < |platforms| && MatchesPattern(url, platforms[k].1)
                         && forall i :: 0 <= i < k ==> !MatchesPattern(url, platforms[i].1)) ==>
      PlatformFrom(url, platforms) == platforms[k].0
  {
    if platforms != [] {
      PlatformFromSpec(url, platforms[1..]);
      forall k | 0 <= k < |platforms| && MatchesPattern(url, platforms[k].1)
        && (forall i :: 0 <= i < k ==> !MatchesPattern(url, platforms[i].1))
        ensures PlatformFrom(url, platforms) == platforms[k].0
      {
        if k > 0 {
          assert !MatchesPattern(url, platforms[0].1);
          assert forall i :: 0 <= i < k - 1 ==> platforms[1..][i] == platforms[i + 1];
        }
      }
      if !MatchesPattern(url, platforms[0].1) {
        assert forall i :: 1 <= i < |platforms| ==> platforms[1..][i - 1] == platforms[i];
      }
    }
  }

  /** A video URL always names its platform. */
  lemma PlatformOfVideo(url: string)
    ensures PlatformFrom(url, VideoPlatforms) != "unknown" <==> IsVideoPlatform(url)
  {
    PlatformFromSpec(url, VideoPlatforms);
  }

  const TestimonialIndicators: seq<string> :=
    ["testimonial", "review", "customer story", "success story", "case study", "customer testimonial", "client story"]

  const WidgetIndicators: seq<string> := ["trustpilot", "g2crowd", "capterra", "reviews", "testimonials", "feedback"]

  /** `src or data-src`. */
  function VideoUrl(n: Node): string {
    var src := AttrOr(n, "src");
    if src != "" then src else AttrOr(n, "data-src")
  }

  /** `any(indicator in str(element).lower() ...)`. */
  predicate Mentions(n: Node, indicators: seq<string>) {
    ContainsAny(Lower(Serialize(n)), indicators)
  }

  /** The cleaned text of the first element below `parent` with one of `names`, or `''`. */
  function FirstNamedText(parent: Located, names: seq<string>): string {
    match First(Named(Inside(parent), names))
    case None => ""
    case Some(e) => CleanText(GetText(e.node))
  }

  /** The non-empty strings among `parts`. */
  function Truthy(parts: seq<string>): (r: seq<string>)
    ensures forall i :: 0 <= i < |r| ==> r[i] != ""
  {
    if parts == [] then [] else Truthy(parts[..|parts| - 1]) + if parts[|parts| - 1] != "" then [parts[|parts| - 1]] else []
  }

  /** The entry of a video player: title and description of the enclosing `div` or `section`,
      joined, when longer than 30 characters, with the customer caption's attribution. The names
      `.title`, `.video-title`, `.description` and `.video-description` are tag names to
      BeautifulSoup and so match no element. */
  function VideoEntry(l: Located): (r: Option<Testimonial>)
    ensures r.Some? ==> |r.value.text| > 30 && r.value.source == Some("video") && r.value.platform.Some?
  {
    var parent := FindParent(l, ["div", "section"]);
    var title := if parent.Some? then FirstNamedText(parent.value, ["h1", "h2", "h3", "h4", ".title", ".video-title"]) else "";
    var description := if parent.Some? then FirstNamedText(parent.value, ["p", ".description", ".video-description"]) else "";
    var caption := if parent.Some? then
        match First(NamedWithClass(Inside(parent.value), ["p", "div", "span"], ["customer", "company", "client"]))
        case None => None
        case Some(e) => Some(CleanText(GetText(e.node)))
      else None;
    var (author, company) := Attribution(caption);
    var text := Join(" ", Truthy([title, description]));
    if text != "" && |text| > 30 then
      Some(Testimonial(text, author, company, Some("video"), Some(PlatformFrom(VideoUrl(l.node), VideoPlatforms))))
    else None
  }

  /** The entry of one review element inside a widget's container: its cleaned text when longer
      than 30 characters, attributed from the next author caption in document order. */
  function ReviewEntry(review: Located): (r: Option<Testimonial>)
    ensures r.Some? ==> |r.value.text| > 30 && r.value.source == Some("review_widget") && r.value.platform.None?
  {
    var text := CleanText(GetText(review.node));
    if text != "" && |text| > 30 then
      var caption := match FindNext(review, ["div", "span", "p"], ["author", "reviewer", "customer"])
        case None => None
        case Some(e) => Some(CleanText(GetText(e)));
      var (author, company) := Attribution(caption);
      Some(Testimonial(text, author, company, Some("review_widget"), None))
    else None
  }

  function Reviews(ls: seq<Located>): (r: seq<Testimonial>)
    ensures |r| <= |ls|
  {
    if ls == [] then [] else Reviews(ls[..|ls| - 1]) + ReviewEntry(ls[|ls| - 1]).ToSeq()
  }

  lemma ReviewsSnoc(ls: seq<Located>, i: nat)
    requires i < |ls|
    ensures Reviews(ls[..i + 1]) == Reviews(ls[..i]) + ReviewEntry(ls[i]).ToSeq()
  {
    assert ls[..i + 1][..i] == ls[..i];
  }

  /** The review elements a widget's container holds, or none without a container. */
  function WidgetReviews(l: Located): seq<Located> {
    match FindParent(l, ["div", "section"])
    case None => []
    case Some(parent) => NamedWithClass(Inside(parent), ["div", "p"], ["review", "testimonial", "feedback"])
  }

  /** Whether an element is a testimonial video: a platform URL and a testimonial indicator. */
  predicate IsTestimonialVideo(n: Node) {
    IsVideoPlatform(VideoUrl(n)) && Mentions(n, TestimonialIndicators)
  }

  /** Whether an element is handled as a review widget: an `iframe` that is not a testimonial video
      and mentions a widget. */
  predicate IsWidget(n: Node) {
    !IsTestimonialVideo(n) && Name(n) == "iframe" && Mentions(n, WidgetIndicators)
  }

  /** What one `video`, `iframe` or `div` contributes. */
  function ElementEntries(l: Located): seq<Testimonial> {
    if IsTestimonialVideo(l.node) then VideoEntry(l).ToSeq()
    else if IsWidget(l.node) then Reviews(WidgetReviews(l))
    else []
  }

  function EmbeddedEntries(ls: seq<Located>): seq<Testimonial> {
    if ls == [] then [] else EmbeddedEntries(ls[..|ls| - 1]) + ElementEntries(ls[|ls| - 1])
  }

  lemma EmbeddedEntriesSnoc(ls: seq<Located>, i: nat)
    requires i < |ls|
    ensures EmbeddedEntries(ls[..i + 1]) == EmbeddedEntries(ls[..i]) + ElementEntries(ls[i])
  {
    assert ls[..i + 1][..i] == ls[..i];
  }

  /** The candidates: every `video`, `iframe` and `div` of the page. */
  function EmbeddedCandidates(doc: Node): seq<Located> {
    Named(AllOf(doc), ["video", "iframe", "div"])
  }

  /** `_get_embedded_testimonials(soup)`. */
  function Embedded(doc: Node): seq<Testimonial> {
    EmbeddedEntries(EmbeddedCandidates(doc))
  }

  /** Every review is longer than 30 characters and comes from a review widget. */
  lemma {:induction false} ReviewsValid(ls: seq<Located>)
    ensures forall t :: t in Reviews(ls) ==> |t.text| > 30 && t.source == Some("review_widget") && t.platform.None?
  {
    if ls != [] {
      ReviewsValid(ls[..|ls| - 1]);
    }
  }

  /** Every embedded testimonial is longer than 30 characters; a video one names the platform its
      URL matched, and any other comes from a review widget. */
  lemma {:induction false} EmbeddedValid(ls: seq<Located>)
    ensures forall t :: t in EmbeddedEntries(ls) ==> |t.text| > 30
    ensures forall t :: t in EmbeddedEntries(ls) && t.source == Some("video") ==>
      t.platform.Some? && t.platform.value != "unknown"
    ensures forall t :: t in EmbeddedEntries(ls) && t.source != Some("video") ==>
      t.source == Some("review_widget") && t.platform.None?
  {
    if ls != [] {
      var l := ls[|ls| - 1];
      EmbeddedValid(ls[..|ls| - 1]);
      if IsTestimonialVideo(l.node) {
        PlatformOfVideo(VideoUrl(l.node));
      } else if IsWidget(l.node) {
        ReviewsValid(WidgetReviews(l));
      }
    }
  }

  method WidgetTestimonials(reviews: seq<Located>) returns (r: seq<Testimonial>)
    ensures r == Reviews(reviews)
  {
    r := [];
    var i := 0;
    while i < |reviews|
      invariant 0 <= i <= |reviews|
      invariant r == Reviews(reviews[..i])
    {
      ReviewsSnoc(reviews, i);
      var entry := ReviewEntry(reviews[i]);
      if entry.Some? {
        r := r + [entry.value];
      }
      i := i + 1;
    }
    assert reviews[..|reviews|] == reviews;
  }

  method GetEmbeddedTestimonials(doc: Node) returns (testimonials: seq<Testimonial>)
    ensures testimonials == Embedded(doc)
  {
    var elements := EmbeddedCandidates(doc);
    testimonials := [];
    var i := 0;
    while i < |elements|
      invariant 0 <= i <= |elements|
      invariant testimonials == EmbeddedEntries(elements[..i])
    {
      EmbeddedEntriesSnoc(elements, i);
      var element := elements[i];
      if IsTestimonialVideo(element.node) {
        var entry := VideoEntry(element);
        if entry.Some? {
          testimonials := testimonials + [entry.value];
        }
      } else if Name(element.node) == "iframe" && Mentions(element.node, WidgetIndicators) {
        var found := WidgetTestimonials(WidgetReviews(element));
        testimonials := testimonials + found;
      }
      i := i + 1;
    }
    assert elements[..|elements|] == elements;
  }
}
