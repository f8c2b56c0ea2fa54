/** The comparison of several sites' testimonial analyses: the min/max of their totals, the
    per-product and per-segment entries, the themes common to at least half of them and the
    lines each site contributes as insights. */
module ComparativeAnalyzer {
  import opened Wrappers
  import opened Dicts
  import opened TestimonialAnalyzer

  /** An analysis together with the `url` it was loaded for (`analysis['url'] = url`). */
  datatype Site = Site(url: string, analysis: Analysis)

  /** One comparison entry, `{'url': url, 'count': count}`. */
  datatype Entry = Entry(url: string, count: int)

  /* ---------------------------------------------------------------- min and max */

  /** `min(a['total_testimonials'] for a in analyses)`. */
  function MinTotal(sites: seq<Site>): (m: nat)
    requires sites != []
    ensures forall i :: 0 <= i < |sites| ==> m <= sites[i].analysis.total
    ensures exists i :: 0 <= i < |sites| && m == sites[i].analysis.total
    decreases |sites|
  {
    if |sites| == 1 then sites[0].analysis.total
    else
      var m := MinTotal(sites[1..]);
      assert forall i :: 1 <= i < |sites| ==> sites[i] == sites[1..][i - 1];
      if sites[0].analysis.total <= m then sites[0].analysis.total else m
  }

  /** `max(a['total_testimonials'] for a in analyses)`. */
  function MaxTotal(sites: seq<Site>): (m: nat)
    requires sites != []
    ensures forall i :: 0 <= i < |sites| ==> sites[i].analysis.total <= m
    ensures exists i :: 0 <= i < |sites| && m == sites[i].analysis.total
    decreases |sites|
  {
    if |sites| == 1 then sites[0].analysis.total
    else
      var m := MaxTotal(sites[1..]);
      assert forall i :: 1 <= i < |sites| ==> sites[i] == sites[1..][i - 1];
      if sites[0].analysis.total >= m then sites[0].analysis.total else m
  }

  lemma MinAtMostMax(sites: seq<Site>)
    requires sites != []
    ensures MinTotal(sites) <= MaxTotal(sites)
  {
    assert MinTotal(sites) <= sites[0].analysis.total <= MaxTotal(sites);
  }

  /* ---------------------------------------------------------------- per-key entries */

  /** `comparison[k].append({'url': url, 'count': c})` for each item `(k, c)`, in item order. */
  function AddEntries(d: Dict<string, seq<Entry>>, url: string, items: Dict<string, int>): Dict<string, seq<Entry>>
    decreases |items|
  {
    if items == [] then d
    else
      var e := items[|items| - 1];
      AppendTo(AddEntries(d, url, items[..|items| - 1]), e.0, Entry(url, e.1))
  }

  /** The entries after the loop over all rows, each row a url with its `(key, count)` items. */
  function Tally(rows: seq<(string, Dict<string, int>)>): Dict<string, seq<Entry>>
    decreases |rows|
  {
    if rows == [] then []
    else
      var r := rows[|rows| - 1];
      AddEntries(Tally(rows[..|rows| - 1]), r.0, r.1)
  }

  /** The entries for key `k`: one per row holding `k`, in row order, with that row's count. */
  function EntriesFor(rows: seq<(string, Dict<string, int>)>, k: string): seq<Entry>
    decreases |rows|
  {
    if rows == [] then []
    else
      var r := rows[|rows| - 1];
      EntriesFor(rows[..|rows| - 1], k) + EntryOf(r.0, r.1, k)
  }

  /** The entry one row adds for key `k`, if it holds `k`. */
  function EntryOf(url: string, items: Dict<string, int>, k: string): seq<Entry> {
    match Get(items, k)
    case Some(c) => [Entry(url, c)]
    case None => []
  }

  /** Items with distinct keys add at most one entry to each key. */
  lemma {:induction false} AddEntriesGet(d: Dict<string, seq<Entry>>, url: string, items: Dict<string, int>, k: string)
    requires DistinctKeys(items)
    ensures Get(AddEntries(d, url, items), k).GetOr([]) == Get(d, k).GetOr([]) + EntryOf(url, items, k)
    ensures Get(AddEntries(d, url, items), k).Some? <==> Get(d, k).Some? || Get(items, k).Some?
    decreases |items|
  {
    if items != [] {
      var init := items[..|items| - 1];
      var e := items[|items| - 1];
      assert items == init + [e];
      assert DistinctKeys(init);
      AddEntriesGet(d, url, init, k);
      AppendToGet(AddEntries(d, url, init), e.0, Entry(url, e.1), k);
      GetSnoc(init, e, k);
      if e.0 == k {
        forall j | 0 <= j < |init| ensures Keys(init)[j] != k {
          assert items[j] == init[j];
        }
      }
    }
  }

  /** Each key's entry list is exactly its entries, in row order; keys no row holds are absent. */
  lemma {:induction false} TallyGet(rows: seq<(string, Dict<string, int>)>, k: string)
    requires forall i :: 0 <= i < |rows| ==> DistinctKeys(rows[i].1)
    ensures Get(Tally(rows), k).GetOr([]) == EntriesFor(rows, k)
    ensures Get(Tally(rows), k).Some? <==> EntriesFor(rows, k) != []
    decreases |rows|
  {
    if rows != [] {
      var init := rows[..|rows| - 1];
      var r := rows[|rows| - 1];
      TallyGet(init, k);
      AddEntriesGet(Tally(init), r.0, r.1, k);
    }
  }

  /** A key and the length of its list, for each item (`len(testimonials)`). */
  function Sizes<V>(d: Dict<string, seq<V>>): (r: Dict<string, int>)
    ensures |r| == |d|
    ensures forall i :: 0 <= i < |d| ==> r[i] == (d[i].0, |d[i].1|)
  {
    seq(|d|, i requires 0 <= i < |d| => (d[i].0, |d[i].1|))
  }

  lemma SizesGet<V>(d: Dict<string, seq<V>>, k: string)
    ensures DistinctKeys(d) ==> DistinctKeys(Sizes(d))
    ensures Get(Sizes(d), k) == match Get(d, k) case None => None case Some(v) => Some(|v|)
  {
    IndexOfAgree(d, Sizes(d), k);
  }

  /** The rows of `_compare_product_mentions`: each site's url with its product counts. */
  function ProductRows(sites: seq<Site>): (rows: seq<(string, Dict<string, int>)>)
    ensures |rows| == |sites|
    ensures forall i :: 0 <= i < |sites| ==> rows[i] == (sites[i].url, sites[i].analysis.productMentions)
  {
    seq(|sites|, i requires 0 <= i < |sites| => (sites[i].url, sites[i].analysis.productMentions))
  }

  /** The rows of `_compare_customer_segments`: each site's url with its segment sizes. */
  function SegmentRows(sites: seq<Site>): (rows: seq<(string, Dict<string, int>)>)
    ensures |rows| == |sites|
    ensures forall i :: 0 <= i < |sites| ==> rows[i] == (sites[i].url, Sizes(sites[i].analysis.segments))
  {
    seq(|sites|, i requires 0 <= i < |sites| => (sites[i].url, Sizes(sites[i].analysis.segments)))
  }

  /** `_compare_product_mentions`. */
  method CompareProductMentions(sites: seq<Site>) returns (comparison: Dict<string, seq<Entry>>)
    ensures comparison == Tally(ProductRows(sites))
  {
    var rows := ProductRows(sites);
    comparison := [];
    for i := 0 to |sites|
      invariant comparison == Tally(rows[..i])
    {
      var url := sites[i].url;
      var items := sites[i].analysis.productMentions;
      ghost var before := comparison;
      for j := 0 to |items|
        invariant comparison == AddEntries(before, url, items[..j])
      {
        var (product, count) := items[j];
        comparison := AppendTo(comparison, product, Entry(url, count));
        assert items[..j + 1][..j] == items[..j];
      }
      assert items[..|items|] == items;
      assert rows[..i + 1][..i] == rows[..i];
    }
    assert rows[..|sites|] == rows;
  }

  /** `_compare_customer_segments`. */
  method CompareCustomerSegments(sites: seq<Site>) returns (comparison: Dict<string, seq<Entry>>)
    ensures comparison == Tally(SegmentRows(sites))
  {
    var rows := SegmentRows(sites);
    comparison := [];
    for i := 0 to |sites|
      invariant comparison == Tally(rows[..i])
    {
      var url := sites[i].url;
      var segments := sites[i].analysis.segments;
      ghost var before := comparison;
      for j := 0 to |segments|
        invariant comparison == AddEntries(before, url, Sizes(segments)[..j])
      {
        var (segment, testimonials) := segments[j];
        comparison := AppendTo(comparison, segment, Entry(url, |testimonials|));
        assert Sizes(segments)[..j + 1][..j] == Sizes(segments)[..j];
      }
      assert Sizes(segments)[..|segments|] == Sizes(segments);
      assert rows[..i + 1][..i] == rows[..i];
    }
    assert rows[..|sites|] == rows;
  }

  /** The entries of product `p`: one per site that mentions it, in site order, with that site's count. */
  function ProductEntries(sites: seq<Site>, p: string): seq<Entry>
    decreases |sites|
  {
    if sites == [] then []
    else
      var s := sites[|sites| - 1];
      ProductEntries(sites[..|sites| - 1], p) +
        match Get(s.analysis.productMentions, p) case Some(c) => [Entry(s.url, c)] case None => []
  }

  /** The entries of segment `g`: one per site with that segment, in site order, with its list's length. */
  function SegmentEntries(sites: seq<Site>, g: string): seq<Entry>
    decreases |sites|
  {
    if sites == [] then []
    else
      var s := sites[|sites| - 1];
      SegmentEntries(sites[..|sites| - 1], g) +
        match Get(s.analysis.segments, g) case Some(l) => [Entry(s.url, |l|)] case None => []
  }

  /** Sites whose dicts have distinct keys, as every analysis does. */
  predicate WellFormedSites(sites: seq<Site>) {
    forall i :: 0 <= i < |sites| ==>
      DistinctKeys(sites[i].analysis.productMentions) && DistinctKeys(sites[i].analysis.segments)
  }

  lemma {:induction false} ProductRowsEntries(sites: seq<Site>, p: string)
    ensures EntriesFor(ProductRows(sites), p) == ProductEntries(sites, p)
    decreases |sites|
  {
    if sites != [] {
      var init := sites[..|sites| - 1];
      assert ProductRows(sites)[..|sites| - 1] == ProductRows(init);
      ProductRowsEntries(init, p);
    }
  }

  lemma {:induction false} SegmentRowsEntries(sites: seq<Site>, g: string)
    ensures EntriesFor(SegmentRows(sites), g) == SegmentEntries(sites, g)
    decreases |sites|
  {
    if sites != [] {
      var init := sites[..|sites| - 1];
      assert SegmentRows(sites)[..|sites| - 1] == SegmentRows(init);
      SegmentRowsEntries(init, g);
      SizesGet(sites[|sites| - 1].analysis.segments, g);
    }
  }

  /** Each product maps to one entry per site mentioning it, in site order, carrying that site's count. */
  lemma ProductComparisonGet(sites: seq<Site>, p: string)
    requires WellFormedSites(sites)
    ensures Get(Tally(ProductRows(sites)), p).GetOr([]) == ProductEntries(sites, p)
    ensures Get(Tally(ProductRows(sites)), p).Some? <==> ProductEntries(sites, p) != []
  {
    TallyGet(ProductRows(sites), p);
    ProductRowsEntries(sites, p);
  }

  /** Each segment maps to one entry per site having it, whose count is the length of that site's list. */
  lemma SegmentComparisonGet(sites: seq<Site>, g: string)
    requires WellFormedSites(sites)
    ensures Get(Tally(SegmentRows(sites)), g).GetOr([]) == SegmentEntries(sites, g)
    ensures Get(Tally(SegmentRows(sites)), g).Some? <==> SegmentEntries(sites, g) != []
  {
    forall i | 0 <= i < |sites| ensures DistinctKeys(SegmentRows(sites)[i].1) {
      SizesGet(sites[i].analysis.segments, g);
    }
    TallyGet(SegmentRows(sites), g);
    SegmentRowsEntries(sites, g);
  }

  /* ---------------------------------------------------------------- common themes */

  /** `theme_counts[theme] += 1` for each theme of one analysis. */
  function CountThemes(d: Dict<string, int>, themes: seq<string>): Dict<string, int>
    decreases |themes|
  {
    if themes == [] then d
    else Increment(CountThemes(d, themes[..|themes| - 1]), themes[|themes| - 1])
  }

  /** The theme counts after the loop over all analyses. */
  function ThemeCounts(sites: seq<Site>): Dict<string, int>
    decreases |sites|
  {
    if sites == [] then []
    else CountThemes(ThemeCounts(sites[..|sites| - 1]), sites[|sites| - 1].analysis.keyThemes)
  }

  /** `[theme for theme, count in counts.items() if count >= n * 0.5]`. */
  function AtLeastHalf(counts: Dict<string, int>, n: nat): seq<string>
    decreases |counts|
  {
    if counts == [] then []
    else
      var e := counts[|counts| - 1];
      AtLeastHalf(counts[..|counts| - 1], n) + if 2 * e.1 >= n then [e.0] else []
  }

  /** How often `t` occurs in `xs`. */
  function Occurrences(xs: seq<string>, t: string): (n: nat)
    ensures n <= |xs|
    decreases |xs|
  {
    if xs == [] then 0
    else Occurrences(xs[..|xs| - 1], t) + if xs[|xs| - 1] == t then 1 else 0
  }

  /** How often `t` occurs in the key themes of all analyses. */
  function ThemeOccurrences(sites: seq<Site>, t: string): nat
    decreases |sites|
  {
    if sites == [] then 0
    else ThemeOccurrences(sites[..|sites| - 1], t) + Occurrences(sites[|sites| - 1].analysis.keyThemes, t)
  }

  /** How many analyses list `t` among their key themes. */
  function SitesListing(sites: seq<Site>, t: string): (n: nat)
    ensures n <= |sites|
    decreases |sites|
  {
    if sites == [] then 0
    else SitesListing(sites[..|sites| - 1], t) + if t in sites[|sites| - 1].analysis.keyThemes then 1 else 0
  }

  lemma {:induction false} CountThemesGet(d: Dict<string, int>, themes: seq<string>, t: string)
    ensures Get(CountThemes(d, themes), t).GetOr(0) == Get(d, t).GetOr(0) + Occurrences(themes, t)
    ensures Get(CountThemes(d, themes), t).Some? <==> Get(d, t).Some? || Occurrences(themes, t) > 0
    decreases |themes|
  {
    if themes != [] {
      CountThemesGet(d, themes[..|themes| - 1], t);
      IncrementGet(CountThemes(d, themes[..|themes| - 1]), themes[|themes| - 1], t);
    }
  }

  /** Each theme is counted once per occurrence in any analysis's key themes. */
  lemma {:induction false} ThemeCountsGet(sites: seq<Site>, t: string)
    ensures Get(ThemeCounts(sites), t).GetOr(0) == ThemeOccurrences(sites, t)
    ensures Get(ThemeCounts(sites), t).Some? <==> ThemeOccurrences(sites, t) > 0
    decreases |sites|
  {
    if sites != [] {
      ThemeCountsGet(sites[..|sites| - 1], t);
      CountThemesGet(ThemeCounts(sites[..|sites| - 1]), sites[|sites| - 1].analysis.keyThemes, t);
    }
  }

  lemma {:induction false} CountThemesDistinct(d: Dict<string, int>, themes: seq<string>)
    requires DistinctKeys(d)
    ensures DistinctKeys(CountThemes(d, themes))
    decreases |themes|
  {
    if themes != [] {
      CountThemesDistinct(d, themes[..|themes| - 1]);
      var before := CountThemes(d, themes[..|themes| - 1]);
      PutDistinct(before, themes[|themes| - 1], Get(before, themes[|themes| - 1]).GetOr(0) + 1);
    }
  }

  lemma {:induction false} ThemeCountsDistinct(sites: seq<Site>)
    ensures DistinctKeys(ThemeCounts(sites))
    decreases |sites|
  {
    if sites != [] {
      ThemeCountsDistinct(sites[..|sites| - 1]);
      CountThemesDistinct(ThemeCounts(sites[..|sites| - 1]), sites[|sites| - 1].analysis.keyThemes);
    }
  }

  /** The filter keeps exactly the keys whose count reaches half of `n`, with no repetition. */
  lemma AtLeastHalfMembers(counts: Dict<string, int>, n: nat, t: string)
    requires DistinctKeys(counts)
    ensures t in AtLeastHalf(counts, n) <==> Get(counts, t).Some? && 2 * Get(counts, t).value >= n
    ensures Distinct(AtLeastHalf(counts, n))
    ensures forall i :: 0 <= i < |AtLeastHalf(counts, n)| ==> AtLeastHalf(counts, n)[i] in Keys(counts)
  {
    AtLeastHalfMember(counts, n, t);
    AtLeastHalfShape(counts, n);
  }

  lemma {:induction false} AtLeastHalfMember(counts: Dict<string, int>, n: nat, t: string)
    requires DistinctKeys(counts)
    ensures t in AtLeastHalf(counts, n) <==> Get(counts, t).Some? && 2 * Get(counts, t).value >= n
    decreases |counts|
  {
    if counts != [] {
      var init := counts[..|counts| - 1];
      var e := counts[|counts| - 1];
      assert counts == init + [e];
      assert DistinctKeys(init);
      AtLeastHalfMember(init, n, t);
      GetSnoc(init, e, t);
      if t == e.0 {
        assert Get(init, t).None? by {
          forall j | 0 <= j < |init| ensures init[j].0 != t {
            assert counts[j] == init[j];
          }
        }
      }
    }
  }

  lemma {:induction false} AtLeastHalfShape(counts: Dict<string, int>, n: nat)
    requires DistinctKeys(counts)
    ensures Distinct(AtLeastHalf(counts, n))
    ensures forall i :: 0 <= i < |AtLeastHalf(counts, n)| ==> AtLeastHalf(counts, n)[i] in Keys(counts)
    decreases |counts|
  {
    if counts != [] {
      var init := counts[..|counts| - 1];
      var e := counts[|counts| - 1];
      assert DistinctKeys(init);
      AtLeastHalfShape(init, n);
      var r := AtLeastHalf(init, n);
      forall i | 0 <= i < |r| ensures r[i] != e.0 && r[i] in Keys(counts) {
        var j :| 0 <= j < |init| && Keys(init)[j] == r[i];
        assert counts[j] == init[j];
      }
    }
  }

  /** The common themes: the themes occurring in the key themes of at least half of the analyses. */
  function CommonThemes(sites: seq<Site>): seq<string> {
    AtLeastHalf(ThemeCounts(sites), |sites|)
  }

  /** A theme is common exactly when it occurs, and occurs at least `n / 2` times; none is listed twice. */
  lemma CommonThemesMembers(sites: seq<Site>, t: string)
    ensures t in CommonThemes(sites) <==> ThemeOccurrences(sites, t) > 0 && 2 * ThemeOccurrences(sites, t) >= |sites|
    ensures Distinct(CommonThemes(sites))
  {
    ThemeCountsDistinct(sites);
    ThemeCountsGet(sites, t);
    AtLeastHalfMembers(ThemeCounts(sites), |sites|, t);
  }

  /** A list without repetitions holds `t` once or not at all. */
  lemma {:induction false} OccurrencesDistinct(xs: seq<string>, t: string)
    requires Distinct(xs)
    ensures Occurrences(xs, t) == if t in xs then 1 else 0
    decreases |xs|
  {
    if xs != [] {
      var init := xs[..|xs| - 1];
      assert xs == init + [xs[|xs| - 1]];
      OccurrencesDistinct(init, t);
    }
  }

  /** When every analysis lists its themes once each (as `_extract_key_themes` does), a theme's
      occurrences are the number of analyses listing it. */
  lemma {:induction false} OccurrencesAreSites(sites: seq<Site>, t: string)
    requires forall i :: 0 <= i < |sites| ==> Distinct(sites[i].analysis.keyThemes)
    ensures ThemeOccurrences(sites, t) == SitesListing(sites, t)
    decreases |sites|
  {
    if sites != [] {
      OccurrencesAreSites(sites[..|sites| - 1], t);
      OccurrencesDistinct(sites[|sites| - 1].analysis.keyThemes, t);
    }
  }

  /** `_find_common_themes`. */
  method FindCommonThemes(sites: seq<Site>) returns (common: seq<string>)
    ensures common == CommonThemes(sites)
  {
    var counts: Dict<string, int> := [];
    for i := 0 to |sites|
      invariant counts == ThemeCounts(sites[..i])
    {
      var themes := sites[i].analysis.keyThemes;
      ghost var before := counts;
      for j := 0 to |themes|
        invariant counts == CountThemes(before, themes[..j])
      {
        counts := Increment(counts, themes[j]);
        assert themes[..j + 1][..j] == themes[..j];
      }
      assert themes[..|themes|] == themes;
      assert sites[..i + 1][..i] == sites[..i];
    }
    assert sites[..|sites|] == sites;
    common := [];
    for j := 0 to |counts|
      invariant common == AtLeastHalf(counts[..j], |sites|)
    {
      var (theme, count) := counts[j];
      if 2 * count >= |sites| {
        common := common + [theme];
      }
      assert counts[..j + 1][..j] == counts[..j];
    }
    assert counts[..|counts|] == counts;
  }

  /* ---------------------------------------------------------------- unique insights */

  /** `prefix + k` for each item whose list is non-empty, in item order. */
  function NonEmptyLines<V>(prefix: string, d: Dict<string, seq<V>>): seq<string>
    decreases |d|
  {
    if d == [] then []
    else
      var e := d[|d| - 1];
      NonEmptyLines(prefix, d[..|d| - 1]) + if e.1 != [] then [prefix + e.0] else []
  }

  /** `prefix + k` for each item whose count is positive, in item order. */
  function PositiveLines(prefix: string, d: Dict<string, int>): seq<string>
    decreases |d|
  {
    if d == [] then []
    else
      var e := d[|d| - 1];
      PositiveLines(prefix, d[..|d| - 1]) + if e.1 > 0 then [prefix + e.0] else []
  }

  /** The lines one analysis contributes: its benefits, then its pain points, then its products. */
  function InsightLines(a: Analysis): seq<string> {
    NonEmptyLines("Unique benefit: ", a.benefits) + NonEmptyLines("Unique pain point: ", a.painPoints) +
      PositiveLines("Unique product mention: ", a.productMentions)
  }

  /** `d[k].append(x)` for each `x` of `xs`, in order. */
  function AppendAll<V>(d: Dict<string, seq<V>>, k: string, xs: seq<V>): Dict<string, seq<V>>
    decreases |xs|
  {
    if xs == [] then d else AppendTo(AppendAll(d, k, xs[..|xs| - 1]), k, xs[|xs| - 1])
  }

  /** The insight lines per url after the loop over all analyses. */
  function Insights(sites: seq<Site>): Dict<string, seq<string>>
    decreases |sites|
  {
    if sites == [] then []
    else
      var s := sites[|sites| - 1];
      AppendAll(Insights(sites[..|sites| - 1]), s.url, InsightLines(s.analysis))
  }

  /** The lines of all analyses loaded for `url`, in analysis order. */
  function UrlLines(sites: seq<Site>, url: string): seq<string>
    decreases |sites|
  {
    if sites == [] then []
    else
      var s := sites[|sites| - 1];
      UrlLines(sites[..|sites| - 1], url) + if s.url == url then InsightLines(s.analysis) else []
  }

  lemma {:induction false} AppendAllGet<V>(d: Dict<string, seq<V>>, k: string, xs: seq<V>, k': string)
    ensures Get(AppendAll(d, k, xs), k').GetOr([]) == Get(d, k').GetOr([]) + if k' == k then xs else []
    ensures Get(AppendAll(d, k, xs), k').Some? <==> Get(d, k').Some? || (k' == k && xs != [])
    decreases |xs|
  {
    if xs != [] {
      var init := xs[..|xs| - 1];
      AppendAllGet(d, k, init, k');
      AppendToGet(AppendAll(d, k, init), k, xs[|xs| - 1], k');
      if k' == k {
        SnocAfter(Get(d, k).GetOr([]), xs);
      }
    }
  }

  lemma SnocAfter<V>(a: seq<V>, xs: seq<V>)
    requires xs != []
    ensures a + xs[..|xs| - 1] + [xs[|xs| - 1]] == a + xs
  {
    assert xs[..|xs| - 1] + [xs[|xs| - 1]] == xs;
  }

  lemma AppendAllSnoc<V>(d: Dict<string, seq<V>>, k: string, xs: seq<V>, x: V)
    ensures AppendAll(d, k, xs + [x]) == AppendTo(AppendAll(d, k, xs), k, x)
  {
    assert (xs + [x])[..|xs|] == xs;
  }

  lemma {:induction false} AppendAllConcat<V>(d: Dict<string, seq<V>>, k: string, xs: seq<V>, ys: seq<V>)
    ensures AppendAll(AppendAll(d, k, xs), k, ys) == AppendAll(d, k, xs + ys)
    decreases |ys|
  {
    if ys == [] {
      assert xs + ys == xs;
    } else {
      var init := ys[..|ys| - 1];
      AppendAllConcat(d, k, xs, init);
      assert (xs + ys)[..|xs + ys| - 1] == xs + init;
    }
  }

  /** Each url holds the lines of all its analyses, in analysis order; urls without lines are absent. */
  lemma {:induction false} InsightsGet(sites: seq<Site>, url: string)
    ensures Get(Insights(sites), url).GetOr([]) == UrlLines(sites, url)
    ensures Get(Insights(sites), url).Some? <==> UrlLines(sites, url) != []
    decreases |sites|
  {
    if sites != [] {
      var init := sites[..|sites| - 1];
      var s := sites[|sites| - 1];
      InsightsGet(init, url);
      AppendAllGet(Insights(init), s.url, InsightLines(s.analysis), url);
    }
  }

  /** A line names a key exactly when that key's list is non-empty. */
  lemma {:induction false} NonEmptyLinesMembers<V>(prefix: string, d: Dict<string, seq<V>>, line: string)
    ensures line in NonEmptyLines(prefix, d) <==> exists j :: 0 <= j < |d| && d[j].1 != [] && line == prefix + d[j].0
    decreases |d|
  {
    if d != [] {
      var init := d[..|d| - 1];
      NonEmptyLinesMembers(prefix, init, line);
      assert forall j :: 0 <= j < |init| ==> init[j] == d[j];
    }
  }

  /** A line names a key exactly when that key's count is positive. */
  lemma {:induction false} PositiveLinesMembers(prefix: string, d: Dict<string, int>, line: string)
    ensures line in PositiveLines(prefix, d) <==> exists j :: 0 <= j < |d| && d[j].1 > 0 && line == prefix + d[j].0
    decreases |d|
  {
    if d != [] {
      var init := d[..|d| - 1];
      PositiveLinesMembers(prefix, init, line);
      assert forall j :: 0 <= j < |init| ==> init[j] == d[j];
    }
  }

  /** The loop of `_find_unique_insights` over a dict of lists: one line per non-empty list. */
  method AddNonEmptyLines<V>(insights: Dict<string, seq<string>>, url: string, prefix: string, d: Dict<string, seq<V>>)
    returns (r: Dict<string, seq<string>>)
    ensures r == AppendAll(insights, url, NonEmptyLines(prefix, d))
  {
    r := insights;
    for j := 0 to |d|
      invariant r == AppendAll(insights, url, NonEmptyLines(prefix, d[..j]))
    {
      var (key, quotes) := d[j];
      assert d[..j + 1][..j] == d[..j];
      assert NonEmptyLines(prefix, d[..j + 1]) == NonEmptyLines(prefix, d[..j]) + if quotes != [] then [prefix + key] else [];
      if quotes != [] {
        AppendAllSnoc(insights, url, NonEmptyLines(prefix, d[..j]), prefix + key);
        r := AppendTo(r, url, prefix + key);
      } else {
        assert NonEmptyLines(prefix, d[..j]) + [] == NonEmptyLines(prefix, d[..j]);
      }
    }
    assert d[..|d|] == d;
  }

  /** The loop of `_find_unique_insights` over the product counts: one line per positive count. */
  method AddPositiveLines(insights: Dict<string, seq<string>>, url: string, prefix: string, d: Dict<string, int>)
    returns (r: Dict<string, seq<string>>)
    ensures r == AppendAll(insights, url, PositiveLines(prefix, d))
  {
    r := insights;
    for j := 0 to |d|
      invariant r == AppendAll(insights, url, PositiveLines(prefix, d[..j]))
    {
      var (key, count) := d[j];
      assert d[..j + 1][..j] == d[..j];
      assert PositiveLines(prefix, d[..j + 1]) == PositiveLines(prefix, d[..j]) + if count > 0 then [prefix + key] else [];
      if count > 0 {
        AppendAllSnoc(insights, url, PositiveLines(prefix, d[..j]), prefix + key);
        r := AppendTo(r, url, prefix + key);
      } else {
        assert PositiveLines(prefix, d[..j]) + [] == PositiveLines(prefix, d[..j]);
      }
    }
    assert d[..|d|] == d;
  }

  /** `_find_unique_insights`. */
  method FindUniqueInsights(sites: seq<Site>) returns (insights: Dict<string, seq<string>>)
    ensures insights == Insights(sites)
  {
    insights := [];
    for i := 0 to |sites|
      invariant insights == Insights(sites[..i])
    {
      var url := sites[i].url;
      var a := sites[i].analysis;
      ghost var before := insights;
      ghost var benefits := NonEmptyLines("Unique benefit: ", a.benefits);
      ghost var pains := NonEmptyLines("Unique pain point: ", a.painPoints);
      insights := AddNonEmptyLines(insights, url, "Unique benefit: ", a.benefits);
      insights := AddNonEmptyLines(insights, url, "Unique pain point: ", a.painPoints);
      AppendAllConcat(before, url, benefits, pains);
      insights := AddPositiveLines(insights, url, "Unique product mention: ", a.productMentions);
      AppendAllConcat(before, url, benefits + pains, PositiveLines("Unique product mention: ", a.productMentions));
      assert sites[..i + 1][..i] == sites[..i];
    }
    assert sites[..|sites|] == sites;
  }

  /* ---------------------------------------------------------------- compare_websites */

  /** The comparative metrics without the sentiment part and the average. */
  datatype Metrics = Metrics(
    minTotal: nat,
    maxTotal: nat,
    productMentions: Dict<string, seq<Entry>>,
    customerSegments: Dict<string, seq<Entry>>)

  /** The comparison of the loaded sites, without the timestamp. */
  datatype Comparison = Comparison(
    websites: seq<Site>,
    metrics: Metrics,
    commonThemes: seq<string>,
    uniqueInsights: Dict<string, seq<string>>)

  /** The sites whose data was found (`if data:`), in url order, each analysed. */
  function LoadedSites(urls: seq<string>, loaded: seq<Option<WebsiteData>>): (sites: seq<Site>)
    requires |loaded| == |urls|
    ensures |sites| <= |urls|
    decreases |urls|
  {
    if urls == [] then []
    else
      var n := |urls| - 1;
      LoadedSites(urls[..n], loaded[..n]) +
        match loaded[n] case None => [] case Some(data) => [Site(urls[n], AnalysisOf(data))]
  }

  /** No site is loaded exactly when no url has data. */
  lemma {:induction false} LoadedSitesEmpty(urls: seq<string>, loaded: seq<Option<WebsiteData>>)
    requires |loaded| == |urls|
    ensures LoadedSites(urls, loaded) == [] <==> forall i :: 0 <= i < |loaded| ==> loaded[i].None?
    decreases |urls|
  {
    if urls != [] {
      var n := |urls| - 1;
      LoadedSitesEmpty(urls[..n], loaded[..n]);
      assert forall i :: 0 <= i < n ==> loaded[..n][i] == loaded[i];
    }
  }

  /** Every loaded site is well formed. */
  lemma {:induction false} LoadedSitesWellFormed(urls: seq<string>, loaded: seq<Option<WebsiteData>>)
    requires |loaded| == |urls|
    ensures WellFormedSites(LoadedSites(urls, loaded))
    decreases |urls|
  {
    if urls != [] {
      var n := |urls| - 1;
      LoadedSitesWellFormed(urls[..n], loaded[..n]);
      if loaded[n].Some? {
        AnalysisWellFormed(loaded[n].value);
      }
    }
  }

  /** Each site lists each of its key themes once. */
  predicate ThemesListedOnce(sites: seq<Site>) {
    forall i :: 0 <= i < |sites| ==> Distinct(sites[i].analysis.keyThemes)
  }

  /** Every loaded site lists each of its key themes once. */
  lemma {:induction false} LoadedKeyThemesDistinct(urls: seq<string>, loaded: seq<Option<WebsiteData>>)
    requires |loaded| == |urls|
    ensures ThemesListedOnce(LoadedSites(urls, loaded))
    decreases |urls|
  {
    if urls != [] {
      var n := |urls| - 1;
      LoadedKeyThemesDistinct(urls[..n], loaded[..n]);
      if loaded[n].Some? {
        AnalysisThemesDistinct(loaded[n].value);
      }
    }
  }

  /** Over the loaded sites, a theme is common exactly when some site lists it and at least half
      of the sites do. */
  lemma CommonThemesOfLoaded(urls: seq<string>, loaded: seq<Option<WebsiteData>>, t: string)
    requires |loaded| == |urls|
    ensures var sites := LoadedSites(urls, loaded);
      t in CommonThemes(sites) <==> SitesListing(sites, t) > 0 && 2 * SitesListing(sites, t) >= |sites|
  {
    var sites := LoadedSites(urls, loaded);
    LoadedKeyThemesDistinct(urls, loaded);
    OccurrencesAreSites(sites, t);
    CommonThemesMembers(sites, t);
  }

  /** The comparison of a non-empty list of sites. */
  function ComparisonOf(sites: seq<Site>): Comparison
    requires sites != []
  {
    Comparison(sites,
      Metrics(MinTotal(sites), MaxTotal(sites), Tally(ProductRows(sites)), Tally(SegmentRows(sites))),
      CommonThemes(sites), Insights(sites))
  }

  /** `compare_websites`, given for each url what `_load_website_data` returns (`None` for no file
      or an empty record). */
  method CompareWebsites(urls: seq<string>, loaded: seq<Option<WebsiteData>>) returns (r: Result<Comparison, string>)
    requires |loaded| == |urls|
    ensures r.Failure? <==> forall i :: 0 <= i < |loaded| ==> loaded[i].None?
    ensures r.Failure? ==> r.error == "No valid data found for comparison"
    ensures r.Success? ==> LoadedSites(urls, loaded) != [] && r.value == ComparisonOf(LoadedSites(urls, loaded))
  {
    var analyses: seq<Site> := [];
    for i := 0 to |urls|
      invariant analyses == LoadedSites(urls[..i], loaded[..i])
    {
      if loaded[i].Some? {
        var analysis := AnalyzeWebsite(loaded[i].value);
        analyses := analyses + [Site(urls[i], analysis)];
      }
      assert urls[..i + 1][..i] == urls[..i];
      assert loaded[..i + 1][..i] == loaded[..i];
    }
    assert urls[..|urls|] == urls;
    assert loaded[..|loaded|] == loaded;
    LoadedSitesEmpty(urls, loaded);
    if analyses == [] {
      return Failure("No valid data found for comparison");
    }
    var products := CompareProductMentions(analyses);
    var segments := CompareCustomerSegments(analyses);
    var common := FindCommonThemes(analyses);
    var insights := FindUniqueInsights(analyses);
    var metrics := Metrics(MinTotal(analyses), MaxTotal(analyses), products, segments);
    return Success(Comparison(analyses, metrics, common, insights));
  }
}
