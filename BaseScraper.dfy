/** `BaseScraper` (src/scrapers/base_scraper.py): the retrying GET, the URL helpers and the plain
    text, link and image extraction. The HTTP session, the sleeping clock and URL parsing are not
    modelled: each attempt's outcome is an input, the pauses come back as a list, and `urlparse` and
    `urljoin` are function parameters. */
module BaseScraper {
  import opened Wrappers
  import opened Strings
  import opened Dicts
  import opened Urls
  import opened Dom

  function Pow2(k: nat): (p: nat)
    ensures p >= 1
  {
    if k == 0 then 1 else 2 * Pow2(k - 1)
  }

  /** The pauses after the first `n` failed attempts: 1, 2, 4, ... seconds. */
  function Backoff(n: nat): (s: seq<nat>)
    ensures |s| == n
    ensures forall k :: 0 <= k < n ==> s[k] == Pow2(k)
  {
    if n == 0 then [] else Backoff(n - 1) + [Pow2(n - 1)]
  }

  function Total(s: seq<nat>): nat {
    if s == [] then 0 else Total(s[..|s| - 1]) + s[|s| - 1]
  }

  /** The pauses add up to one second less than the next pause would be. */
  lemma {:induction false} BackoffTotal(n: nat)
    ensures Total(Backoff(n)) == Pow2(n) - 1
  {
    if n > 0 {
      BackoffTotal(n - 1);
      assert Backoff(n)[..n - 1] == Backoff(n - 1);
    }
  }

  /** `max(0, n)`: `range(n)` is empty for a negative `n`. */
  function Attempts(maxRetries: int): nat {
    if maxRetries < 0 then 0 else maxRetries
  }

  /** `_make_request(url)`. Attempt `k` (from 0) of `session.get` plus `raise_for_status` yields
      `outcomes[k]`: a response, or `None` when it raised a `RequestException`. Returns the response,
      the number of attempts made and the pauses taken, in order. */
  method MakeRequest<R>(maxRetries: int, outcomes: seq<Option<R>>) returns (r: Option<R>, attempts: nat, pauses: seq<nat>)
    requires Attempts(maxRetries) <= |outcomes|
    ensures attempts <= Attempts(maxRetries)
    ensures r.Some? ==> attempts >= 1 && r == outcomes[attempts - 1]
    ensures forall k :: 0 <= k < attempts && (r.None? || k < attempts - 1) ==> outcomes[k].None?
    ensures r.None? ==> attempts == Attempts(maxRetries)
    ensures pauses == Backoff(if attempts == 0 then 0 else attempts - 1)
  {
    var attempt := 0;
    attempts := 0;
    pauses := [];
    while attempt < maxRetries
      invariant 0 <= attempt <= Attempts(maxRetries) && attempts == attempt
      invariant forall k :: 0 <= k < attempt ==> outcomes[k].None?
      invariant attempt < maxRetries ==> pauses == Backoff(attempt)
      invariant attempt == maxRetries > 0 ==> pauses == Backoff(attempt - 1)
      invariant maxRetries <= 0 ==> pauses == []
    {
      attempts := attempt + 1;
      if outcomes[attempt].Some? {
        r := outcomes[attempt];
        return;
      }
      if attempt < maxRetries - 1 {
        pauses := pauses + [Pow2(attempt)];
      }
      attempt := attempt + 1;
    }
    r := None;
  }

  /** `_is_valid_url(url)`: a scheme and a network location, and `urlparse` did not raise. */
  predicate IsValidUrl(url: string, urlparse: UrlParser) {
    match urlparse(url)
    case Success(p) => p.scheme != "" && p.netloc != ""
    case Failure(_) => false
  }

  /** `_normalize_url(url, base_url)`. */
  function NormalizeUrl(url: string, baseUrl: string, urlparse: UrlParser, urljoin: UrlJoiner): (r: string)
    ensures IsValidUrl(url, urlparse) ==> r == url
    ensures !IsValidUrl(url, urlparse) ==> r == urljoin(baseUrl, url)
  {
    if !IsValidUrl(url, urlparse) then urljoin(baseUrl, url) else url
  }

  /** Each string stripped again, as `_extract_text` does. */
  function StripEach(ts: seq<string>): (r: seq<string>)
    ensures |r| == |ts|
    ensures forall i :: 0 <= i < |ts| ==> r[i] == Strip(ts[i])
  {
    seq(|ts|, i requires 0 <= i < |ts| => Strip(ts[i]))
  }

  /** `_extract_text(element)`: `""` for a missing element (a tag is always truthy), else its
      stripped strings joined by single blanks. */
  function ExtractText(element: Option<Node>): string {
    match element
    case None => ""
    case Some(n) => Join(" ", StripEach(StrippedStrings(n)))
  }

  lemma {:induction false} StripAllStripped(ts: seq<string>)
    ensures StripEach(StripAll(ts)) == StripAll(ts)
  {
    if ts != [] {
      StripAllStripped(ts[..|ts| - 1]);
      StripIdempotent(ts[|ts| - 1]);
    }
  }

  /** The second `strip()` in `_extract_text` changes nothing: the text is the stripped strings
      joined by blanks, empty exactly when the element has no string that is not blank. */
  lemma ExtractTextSpec(n: Node)
    ensures ExtractText(Some(n)) == Join(" ", StrippedStrings(n))
    ensures ExtractText(Some(n)) == "" <==> StrippedStrings(n) == []
  {
    StripAllStripped(Texts(n));
    JoinNonEmpty(StrippedStrings(n));
  }

  /** The candidate anchors: every `a` with an `href`, in document order. */
  function Anchors(doc: Node): (r: seq<Node>)
    ensures forall i :: 0 <= i < |r| ==> NameIn(r[i], ["a"]) && Attr(r[i], "href").Some?
  {
    WithHref(Named(Inside(Root(doc)), ["a"]))
  }

  function WithHref(ls: seq<Located>): (r: seq<Node>)
    ensures forall i :: 0 <= i < |r| ==> Attr(r[i], "href").Some?
    ensures forall i :: 0 <= i < |r| ==> exists j :: 0 <= j < |ls| && r[i] == ls[j].node
  {
    if ls == [] then []
    else
      var rest := WithHref(ls[..|ls| - 1]);
      var l := ls[|ls| - 1];
      assert forall i :: 0 <= i < |rest| ==> exists j :: 0 <= j < |ls| && rest[i] == ls[j].node by {
        forall i | 0 <= i < |rest| ensures exists j :: 0 <= j < |ls| && rest[i] == ls[j].node {
          var j :| 0 <= j < |ls| - 1 && rest[i] == ls[..|ls| - 1][j].node;
          assert rest[i] == ls[j].node;
        }
      }
      rest + if Attr(l.node, "href").Some? then [l.node] else []
  }

  /** The links `_extract_links` keeps from the given anchors, in order. */
  function LinksOf(anchors: seq<Node>, baseUrl: string, urlparse: UrlParser, urljoin: UrlJoiner): (r: seq<string>)
    ensures forall i :: 0 <= i < |r| ==> IsValidUrl(r[i], urlparse)
  {
    if anchors == [] then []
    else
      var u := NormalizeUrl(AttrOr(anchors[|anchors| - 1], "href"), baseUrl, urlparse, urljoin);
      LinksOf(anchors[..|anchors| - 1], baseUrl, urlparse, urljoin) + if IsValidUrl(u, urlparse) then [u] else []
  }

  /** `_extract_links(soup, base_url)`: the normalized `href` of each anchor, when it is a valid URL. */
  method ExtractLinks(doc: Node, baseUrl: string, urlparse: UrlParser, urljoin: UrlJoiner) returns (links: seq<string>)
    ensures links == LinksOf(Anchors(doc), baseUrl, urlparse, urljoin)
    ensures forall i :: 0 <= i < |links| ==> IsValidUrl(links[i], urlparse)
  {
    links := CollectLinks(Anchors(doc), baseUrl, urlparse, urljoin);
  }

  /** The loop of `_extract_links` over the anchors found. */
  method CollectLinks(anchors: seq<Node>, baseUrl: string, urlparse: UrlParser, urljoin: UrlJoiner) returns (links: seq<string>)
    ensures links == LinksOf(anchors, baseUrl, urlparse, urljoin)
  {
    links := [];
    var i := 0;
    while i < |anchors|
      invariant 0 <= i <= |anchors|
      invariant links == LinksOf(anchors[..i], baseUrl, urlparse, urljoin)
    {
      assert anchors[..i + 1][..i] == anchors[..i];
      var normalized := NormalizeUrl(AttrOr(anchors[i], "href"), baseUrl, urlparse, urljoin);
      if IsValidUrl(normalized, urlparse) {
        links := links + [normalized];
      }
      i := i + 1;
    }
    assert anchors[..|anchors|] == anchors;
  }

  /** An image entry, `{'src': ..., 'alt': ...}`. */
  datatype Image = Image(src: string, alt: string)

  /** The images `_extract_images` keeps from the given `img` elements, in order. */
  function ImagesOf(imgs: seq<Located>, baseUrl: string, urlparse: UrlParser, urljoin: UrlJoiner): seq<Image> {
    if imgs == [] then []
    else
      var img := imgs[|imgs| - 1].node;
      var src := AttrOr(img, "src");
      ImagesOf(imgs[..|imgs| - 1], baseUrl, urlparse, urljoin)
      + if src != "" then [Image(NormalizeUrl(src, baseUrl, urlparse, urljoin), AttrOr(img, "alt"))] else []
  }

  /** The `img` elements with a non-empty `src`. */
  function WithSrc(imgs: seq<Located>): (r: seq<Node>)
    ensures forall i :: 0 <= i < |r| ==> AttrOr(r[i], "src") != ""
  {
    if imgs == [] then []
    else WithSrc(imgs[..|imgs| - 1]) + if AttrOr(imgs[|imgs| - 1].node, "src") != "" then [imgs[|imgs| - 1].node] else []
  }

  /** One entry per `img` with a non-empty `src`, in document order: its normalized `src` and its
      `alt` (empty when absent). */
  lemma {:induction false} ImagesOfSpec(imgs: seq<Located>, baseUrl: string, urlparse: UrlParser, urljoin: UrlJoiner)
    ensures |ImagesOf(imgs, baseUrl, urlparse, urljoin)| == |WithSrc(imgs)|
    ensures forall i :: 0 <= i < |WithSrc(imgs)| ==>
      ImagesOf(imgs, baseUrl, urlparse, urljoin)[i]
        == Image(NormalizeUrl(AttrOr(WithSrc(imgs)[i], "src"), baseUrl, urlparse, urljoin), AttrOr(WithSrc(imgs)[i], "alt"))
  {
    if imgs != [] {
      ImagesOfSpec(imgs[..|imgs| - 1], baseUrl, urlparse, urljoin);
    }
  }

  /** `_extract_images(soup, base_url)`. */
  method ExtractImages(doc: Node, baseUrl: string, urlparse: UrlParser, urljoin: UrlJoiner) returns (images: seq<Image>)
    ensures images == ImagesOf(Named(Inside(Root(doc)), ["img"]), baseUrl, urlparse, urljoin)
  {
    images := CollectImages(Named(Inside(Root(doc)), ["img"]), baseUrl, urlparse, urljoin);
  }

  /** The loop of `_extract_images` over the `img` elements found. */
  method CollectImages(imgs: seq<Located>, baseUrl: string, urlparse: UrlParser, urljoin: UrlJoiner) returns (images: seq<Image>)
    ensures images == ImagesOf(imgs, baseUrl, urlparse, urljoin)
  {
    images := [];
    var i := 0;
    while i < |imgs|
      invariant 0 <= i <= |imgs|
      invariant images == ImagesOf(imgs[..i], baseUrl, urlparse, urljoin)
    {
      assert imgs[..i + 1][..i] == imgs[..i];
      var src := AttrOr(imgs[i].node, "src");
      var alt := AttrOr(imgs[i].node, "alt");
      if src != "" {
        images := images + [Image(NormalizeUrl(src, baseUrl, urlparse, urljoin), alt)];
      }
      i := i + 1;
    }
    assert imgs[..|imgs|] == imgs;
  }
}
