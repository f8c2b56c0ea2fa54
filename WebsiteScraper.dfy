/** `WebsiteScraper.scrape_website` (src/scrapers/website_scraper.py): one GET of the page, no
    retry; scripts and styles removed; the static extractors run on what is left; then the
    dynamic, case-study and embedded testimonials appended in that order. The browser's testimonials
    and every page fetch are inputs. */
module WebsiteScraper {
  import opened Wrappers
  import opened Dicts
  import opened Dom
  import opened Urls
  import opened BaseScraper
  import opened StaticExtraction
  import opened TestimonialSources

  /** The dictionary `scrape_website` returns, without its timestamp. */
  datatype SiteData = SiteData(
    url: string,
    title: string,
    metaDescription: string,
    sections: Dict<string, string>,
    testimonials: seq<Testimonial>,
    stats: seq<string>,
    valueProps: seq<string>,
    images: seq<Image>,
    links: seq<Link>)

  /** The page with its scripts and styles decomposed. */
  function Soup(page: Node): Node {
    RemoveScripts(page)
  }

  /** What the static extractors find in the cleaned page, before any testimonial is added. */
  function BaseData(url: string, soup: Node): SiteData {
    SiteData(url, ExtractTitle(soup), ExtractMetaDescription(soup), Sections(soup), [],
      Stats(StatCandidates(soup)), ValueProps(ValuePropCandidates(soup)),
      PageImages(Named(AllOf(soup), ["img"])), PageLinks(Named(AllOf(soup), ["a"])))
  }

  /** `scrape_website(url)`: `None` when the page cannot be fetched; `dynamic` stands for what
      `_get_dynamic_testimonials(url)` returns. */
  function Scrape(url: string, fetch: Fetcher, urljoin: UrlJoiner, dynamic: seq<Testimonial>): Option<SiteData> {
    match fetch(url)
    case None => None
    case Some(page) =>
      var soup := Soup(page);
      Some(BaseData(url, soup).(testimonials := Merged(url, fetch, urljoin, dynamic, soup)))
  }

  /** The browser's testimonials, then the case-study ones, then the embedded ones. */
  function Merged(url: string, fetch: Fetcher, urljoin: UrlJoiner, dynamic: seq<Testimonial>, soup: Node): seq<Testimonial> {
    dynamic + CaseStudies(url, urljoin, fetch) + Embedded(soup)
  }

  /** The merged list starts with the browser's testimonials, in order, and every later one is
      longer than 30 characters. */
  lemma MergedSpec(url: string, fetch: Fetcher, urljoin: UrlJoiner, dynamic: seq<Testimonial>, soup: Node)
    ensures var r := Merged(url, fetch, urljoin, dynamic, soup);
      && r[..|dynamic|] == dynamic
      && forall t :: t in r[|dynamic|..] ==> |t.text| > 30
  {
    CaseStudiesValid(url, urljoin, fetch, |CaseStudyPaths|);
    EmbeddedValid(EmbeddedCandidates(soup));
    AppendedLong(dynamic, CaseStudies(url, urljoin, fetch), Embedded(soup));
  }

  lemma AppendedLong(first: seq<Testimonial>, more: seq<Testimonial>, last: seq<Testimonial>)
    requires forall t :: t in more ==> |t.text| > 30
    requires forall t :: t in last ==> |t.text| > 30
    ensures (first + more + last)[..|first|] == first
    ensures forall t :: t in (first + more + last)[|first|..] ==> |t.text| > 30
  {
    assert (first + more + last)[|first|..] == more + last;
  }

  /** A page that loads gives data for that URL, with the testimonials of `Merged` and distinct
      section names; one that does not gives `None`. */
  lemma ScrapeSpec(url: string, fetch: Fetcher, urljoin: UrlJoiner, dynamic: seq<Testimonial>)
    ensures Scrape(url, fetch, urljoin, dynamic).None? <==> fetch(url).None?
    ensures Scrape(url, fetch, urljoin, dynamic).Some? ==>
      var data := Scrape(url, fetch, urljoin, dynamic).value;
      && data.url == url
      && data.testimonials[..|dynamic|] == dynamic
      && (forall t :: t in data.testimonials[|dynamic|..] ==> |t.text| > 30)
      && DistinctKeys(data.sections)
  {
    if fetch(url).Some? {
      var soup := Soup(fetch(url).value);
      MergedSpec(url, fetch, urljoin, dynamic, soup);
      SectionsDistinct(soup);
    }
  }

  /** Every case-study testimonial is longer than 30 characters and has no source. */
  lemma {:induction false} CaseStudiesValid(baseUrl: string, urljoin: UrlJoiner, fetch: Fetcher, k: nat)
    requires k <= |CaseStudyPaths|
    ensures forall t :: t in CaseStudiesUpTo(baseUrl, urljoin, fetch, k) ==> |t.text| > 30 && t.source.None?
  {
    if k > 0 {
      CaseStudiesValid(baseUrl, urljoin, fetch, k - 1);
      match fetch(urljoin(baseUrl, CaseStudyPaths[k - 1]))
      case None =>
      case Some(page) => StoriesValid(StoryElements(page));
    }
  }

  /** No element the extractors see is a script or a style. */
  lemma SoupHasNoScripts(page: Node)
    requires page.Element?
    ensures forall n :: n in Flatten(Soup(page).children) ==> !NameIn(n, ["script", "style"])
  {
    NoScriptsLeft(page.children);
  }

  /** The three `extend`s, each made only when there is something to add. */
  method MergeTestimonials(url: string, fetch: Fetcher, urljoin: UrlJoiner, dynamic: seq<Testimonial>, soup: Node)
    returns (testimonials: seq<Testimonial>)
    ensures testimonials == Merged(url, fetch, urljoin, dynamic, soup)
  {
    testimonials := [];
    if dynamic != [] {
      testimonials := testimonials + dynamic;
    }
    assert testimonials == dynamic;
    var cases := GetCaseStudyTestimonials(url, urljoin, fetch);
    if cases != [] {
      testimonials := testimonials + cases;
    }
    assert testimonials == dynamic + cases;
    var embedded := GetEmbeddedTestimonials(soup);
    if embedded != [] {
      testimonials := testimonials + embedded;
    }
  }

  method ScrapeWebsite(url: string, fetch: Fetcher, urljoin: UrlJoiner, dynamic: seq<Testimonial>) returns (r: Option<SiteData>)
    ensures r == Scrape(url, fetch, urljoin, dynamic)
  {
    var response := fetch(url);
    if response.None? {
      return None;
    }
    var soup := Soup(response.value);
    var sections := ExtractSections(soup);
    var stats := ExtractStats(soup);
    var props := ExtractValueProps(soup);
    var images := StaticExtraction.ExtractImages(soup);
    var links := StaticExtraction.ExtractLinks(soup);
    var testimonials := MergeTestimonials(url, fetch, urljoin, dynamic, soup);
    var data := SiteData(url, ExtractTitle(soup), ExtractMetaDescription(soup), sections, testimonials, stats, props, images, links);
    return Some(data);
  }
}
