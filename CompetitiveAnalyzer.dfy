/** Competitive intelligence: the target's testimonial analysis set against its competitors'.
    It states which keys only one side has (the market positioning), the advantages and gaps
    that follow from them, and the customer segments both sides serve. */
module CompetitiveAnalyzer {
  import opened Wrappers
  import opened Dicts
  import opened TestimonialAnalyzer
  import ComparativeAnalyzer

  /* ---------------------------------------------------------------- key sets */

  /** `set(d.keys())`. */
  function KeySet<V>(d: Dict<string, V>): set<string> {
    set i | 0 <= i < |d| :: d[i].0
  }

  /** A key is in `set(d.keys())` exactly when `d.get` finds it. */
  lemma KeySetGet<V>(d: Dict<string, V>, k: string)
    ensures k in KeySet(d) <==> Get(d, k).Some?
  {
    GetSpec(d, k);
    if k in KeySet(d) {
      var i :| 0 <= i < |d| && d[i].0 == k;
      assert Keys(d)[i] == k;
    }
  }

  /** The parts of an analysis whose keys are compared. */
  datatype Facet = Products | Benefits | PainPoints | Segments

  /** `set(a['product_mentions'].keys())` and its like for the other parts. */
  function FacetKeys(a: Analysis, f: Facet): set<string> {
    match f
    case Products => KeySet(a.productMentions)
    case Benefits => KeySet(a.benefits)
    case PainPoints => KeySet(a.painPoints)
    case Segments => KeySet(a.segments)
  }

  /** Some competitor has key `k` in part `f`. */
  predicate AnyHas(competitors: seq<Analysis>, f: Facet, k: string) {
    exists i :: 0 <= i < |competitors| && k in FacetKeys(competitors[i], f)
  }

  /** The keys of part `f` over all competitors, in the order the `set.update` loop adds them. */
  function CompetitorKeys(competitors: seq<Analysis>, f: Facet): set<string>
    decreases |competitors|
  {
    if competitors == [] then {}
    else CompetitorKeys(competitors[..|competitors| - 1], f) + FacetKeys(competitors[|competitors| - 1], f)
  }

  /** The competitors' keys are exactly the keys some competitor has. */
  lemma {:induction false} CompetitorKeysMembers(competitors: seq<Analysis>, f: Facet, k: string)
    ensures k in CompetitorKeys(competitors, f) <==> AnyHas(competitors, f, k)
    decreases |competitors|
  {
    if competitors != [] {
      var n := |competitors| - 1;
      CompetitorKeysMembers(competitors[..n], f, k);
      assert forall i :: 0 <= i < n ==> competitors[..n][i] == competitors[i];
      if AnyHas(competitors, f, k) && k !in FacetKeys(competitors[n], f) {
        var i :| 0 <= i < |competitors| && k in FacetKeys(competitors[i], f);
        assert i < n && k in FacetKeys(competitors[..n][i], f);
      }
    }
  }

  /** `competitor_x = set()` followed by `competitor_x.update(comp[...].keys())` for every competitor. */
  method CollectCompetitorKeys(competitors: seq<Analysis>, f: Facet) returns (keys: set<string>)
    ensures keys == CompetitorKeys(competitors, f)
    ensures forall k :: k in keys <==> AnyHas(competitors, f, k)
  {
    keys := {};
    for j := 0 to |competitors|
      invariant keys == CompetitorKeys(competitors[..j], f)
    {
      assert competitors[..j + 1][..j] == competitors[..j];
      keys := keys + FacetKeys(competitors[j], f);
    }
    assert competitors[..|competitors|] == competitors;
    forall k
      ensures k in keys <==> AnyHas(competitors, f, k)
    {
      CompetitorKeysMembers(competitors, f, k);
    }
  }

  /* ---------------------------------------------------------------- market positioning */

  /** The three lists of a `_compare_*` result, kept as sets: `list(set(...))` has no fixed order. */
  datatype Partition = Partition(uniqueToTarget: set<string>, uniqueToCompetitors: set<string>, common: set<string>)

  /** Target-only, competitor-only and shared keys: three disjoint parts that cover both sides. */
  function Split(t: set<string>, c: set<string>): (p: Partition)
    ensures p.uniqueToTarget !! p.uniqueToCompetitors
    ensures p.uniqueToTarget !! p.common
    ensures p.uniqueToCompetitors !! p.common
    ensures p.uniqueToTarget + p.uniqueToCompetitors + p.common == t + c
  {
    Partition(t - c, c - t, t * c)
  }

  /** `_compare_product_focus`, `_compare_benefit_emphasis` and `_compare_customer_segment_focus`:
      the same comparison on the products, the benefits or the segments. */
  method CompareFocus(target: Analysis, competitors: seq<Analysis>, f: Facet) returns (p: Partition)
    ensures p == Split(FacetKeys(target, f), CompetitorKeys(competitors, f))
    ensures forall k :: k in p.uniqueToTarget <==> k in FacetKeys(target, f) && !AnyHas(competitors, f, k)
    ensures forall k :: k in p.uniqueToCompetitors <==> k !in FacetKeys(target, f) && AnyHas(competitors, f, k)
    ensures forall k :: k in p.common <==> k in FacetKeys(target, f) && AnyHas(competitors, f, k)
  {
    var targetKeys := FacetKeys(target, f);
    var competitorKeys := CollectCompetitorKeys(competitors, f);
    p := Partition(targetKeys - competitorKeys, competitorKeys - targetKeys, targetKeys * competitorKeys);
  }

  /** The `market_positioning` part of the insights. */
  datatype Positioning = Positioning(productFocus: Partition, benefitEmphasis: Partition, customerSegmentFocus: Partition)

  function PositioningOf(target: Analysis, competitors: seq<Analysis>): Positioning {
    Positioning(
      Split(FacetKeys(target, Products), CompetitorKeys(competitors, Products)),
      Split(FacetKeys(target, Benefits), CompetitorKeys(competitors, Benefits)),
      Split(FacetKeys(target, Segments), CompetitorKeys(competitors, Segments)))
  }

  /** `_analyze_market_positioning`: products, benefits and segments, each partitioned. */
  method AnalyzeMarketPositioning(target: Analysis, competitors: seq<Analysis>) returns (pos: Positioning)
    ensures pos == PositioningOf(target, competitors)
  {
    var products := CompareFocus(target, competitors, Products);
    var benefits := CompareFocus(target, competitors, Benefits);
    var segments := CompareFocus(target, competitors, Segments);
    pos := Positioning(products, benefits, segments);
  }

  /** Each of the three comparisons splits its keys into disjoint parts: the target-only keys,
      the keys of some competitor only, and the keys the target shares with some competitor. */
  lemma PositioningParts(target: Analysis, competitors: seq<Analysis>, f: Facet, k: string)
    requires f != PainPoints
    ensures var pos := PositioningOf(target, competitors);
      var p := if f == Products then pos.productFocus else if f == Benefits then pos.benefitEmphasis else pos.customerSegmentFocus;
      && (k in p.uniqueToTarget <==> k in FacetKeys(target, f) && !AnyHas(competitors, f, k))
      && (k in p.uniqueToCompetitors <==> k !in FacetKeys(target, f) && AnyHas(competitors, f, k))
      && (k in p.common <==> k in FacetKeys(target, f) && AnyHas(competitors, f, k))
  {
    CompetitorKeysMembers(competitors, f, k);
  }

  /* ---------------------------------------------------------------- advantages and gaps */

  /** One line of `_find_competitive_advantages`. A line that lists keys carries them as a set,
      because they are joined in set iteration order. */
  datatype Advantage =
    | HigherSatisfaction                      // 'Higher customer satisfaction'
    | UniqueBenefits(benefits: set<string>)   // 'Unique benefits: ' followed by the joined set
    | UniqueSegments(segments: set<string>)   // 'Unique customer segments: ' followed by the joined set

  /** The position of each kind of line in the list. */
  function AdvantageRank(a: Advantage): nat {
    match a
    case HigherSatisfaction => 0
    case UniqueBenefits(_) => 1
    case UniqueSegments(_) => 2
  }

  /** The keys of part `f` that the target has and no competitor has. */
  function TargetOnly(target: Analysis, competitors: seq<Analysis>, f: Facet): set<string> {
    FacetKeys(target, f) - CompetitorKeys(competitors, f)
  }

  /** The keys of part `f` that some competitor has and the target lacks. */
  function CompetitorsOnly(target: Analysis, competitors: seq<Analysis>, f: Facet): set<string> {
    CompetitorKeys(competitors, f) - FacetKeys(target, f)
  }

  lemma TargetOnlyMembers(target: Analysis, competitors: seq<Analysis>, f: Facet, k: string)
    ensures k in TargetOnly(target, competitors, f) <==> k in FacetKeys(target, f) && !AnyHas(competitors, f, k)
  {
    CompetitorKeysMembers(competitors, f, k);
  }

  lemma CompetitorsOnlyMembers(target: Analysis, competitors: seq<Analysis>, f: Facet, k: string)
    ensures k in CompetitorsOnly(target, competitors, f) <==> k !in FacetKeys(target, f) && AnyHas(competitors, f, k)
  {
    CompetitorKeysMembers(competitors, f, k);
  }

  /** The advantage lines. `higherSentiment` stands for the floating-point comparison
      `target_sentiment > max(competitor_sentiments)`. */
  function Advantages(target: Analysis, competitors: seq<Analysis>, higherSentiment: bool): seq<Advantage> {
    var benefits := TargetOnly(target, competitors, Benefits);
    var segments := TargetOnly(target, competitors, Segments);
    (if higherSentiment then [HigherSatisfaction] else [])
      + (if benefits != {} then [UniqueBenefits(benefits)] else [])
      + (if segments != {} then [UniqueSegments(segments)] else [])
  }

  /** `_find_competitive_advantages`. */
  method FindCompetitiveAdvantages(target: Analysis, competitors: seq<Analysis>, higherSentiment: bool)
    returns (advantages: seq<Advantage>)
    ensures advantages == Advantages(target, competitors, higherSentiment)
  {
    advantages := [];
    if higherSentiment {
      advantages := advantages + [HigherSatisfaction];
    }
    var competitorBenefits := CollectCompetitorKeys(competitors, Benefits);
    var uniqueBenefits := FacetKeys(target, Benefits) - competitorBenefits;
    if uniqueBenefits != {} {
      advantages := advantages + [UniqueBenefits(uniqueBenefits)];
    }
    var competitorSegments := CollectCompetitorKeys(competitors, Segments);
    var uniqueSegments := FacetKeys(target, Segments) - competitorSegments;
    if uniqueSegments != {} {
      advantages := advantages + [UniqueSegments(uniqueSegments)];
    }
  }

  /** The advantages come in the fixed order satisfaction, benefits, segments, each at most once.
      The satisfaction line is there exactly when the target's sentiment is higher; the benefit
      line exactly when some benefit is the target's only, and it carries exactly those benefits
      (`TargetOnlyMembers`); the same holds for segments. */
  lemma AdvantagesSpec(target: Analysis, competitors: seq<Analysis>, higherSentiment: bool)
    ensures var adv := Advantages(target, competitors, higherSentiment);
      && (forall i, j :: 0 <= i < j < |adv| ==> AdvantageRank(adv[i]) < AdvantageRank(adv[j]))
      && (HigherSatisfaction in adv <==> higherSentiment)
      && (UniqueBenefits(TargetOnly(target, competitors, Benefits)) in adv <==> TargetOnly(target, competitors, Benefits) != {})
      && (forall i :: 0 <= i < |adv| && adv[i].UniqueBenefits? ==> adv[i].benefits == TargetOnly(target, competitors, Benefits))
      && (UniqueSegments(TargetOnly(target, competitors, Segments)) in adv <==> TargetOnly(target, competitors, Segments) != {})
      && (forall i :: 0 <= i < |adv| && adv[i].UniqueSegments? ==> adv[i].segments == TargetOnly(target, competitors, Segments))
  {
    AdvantageLines(higherSentiment, TargetOnly(target, competitors, Benefits), TargetOnly(target, competitors, Segments));
  }

  lemma AdvantageLines(higher: bool, benefits: set<string>, segments: set<string>)
    ensures var adv := (if higher then [HigherSatisfaction] else [])
        + (if benefits != {} then [UniqueBenefits(benefits)] else [])
        + (if segments != {} then [UniqueSegments(segments)] else []);
      && (forall i, j :: 0 <= i < j < |adv| ==> AdvantageRank(adv[i]) < AdvantageRank(adv[j]))
      && (HigherSatisfaction in adv <==> higher)
      && (UniqueBenefits(benefits) in adv <==> benefits != {})
      && (forall i :: 0 <= i < |adv| && adv[i].UniqueBenefits? ==> adv[i].benefits == benefits)
      && (UniqueSegments(segments) in adv <==> segments != {})
      && (forall i :: 0 <= i < |adv| && adv[i].UniqueSegments? ==> adv[i].segments == segments)
  {
  }

  /** One line of `_identify_market_gaps`, carrying the keys it joins. */
  datatype Gap =
    | UnaddressedPainPoints(painPoints: set<string>)   // 'Unaddressed pain points: ' followed by the joined set
    | UnderservedSegments(segments: set<string>)       // 'Underserved customer segments: ' followed by the joined set

  function Gaps(target: Analysis, competitors: seq<Analysis>): seq<Gap> {
    var painPoints := CompetitorsOnly(target, competitors, PainPoints);
    var segments := CompetitorsOnly(target, competitors, Segments);
    (if painPoints != {} then [UnaddressedPainPoints(painPoints)] else [])
      + (if segments != {} then [UnderservedSegments(segments)] else [])
  }

  /** `_identify_market_gaps`. */
  method IdentifyMarketGaps(target: Analysis, competitors: seq<Analysis>) returns (gaps: seq<Gap>)
    ensures gaps == Gaps(target, competitors)
  {
    gaps := [];
    var competitorPainPoints := CollectCompetitorKeys(competitors, PainPoints);
    var unaddressed := competitorPainPoints - FacetKeys(target, PainPoints);
    if unaddressed != {} {
      gaps := gaps + [UnaddressedPainPoints(unaddressed)];
    }
    var competitorSegments := CollectCompetitorKeys(competitors, Segments);
    var underserved := competitorSegments - FacetKeys(target, Segments);
    if underserved != {} {
      gaps := gaps + [UnderservedSegments(underserved)];
    }
  }

  /** The pain-point line comes first, when there is one. It is there exactly when some
      competitor has a pain point the target lacks, and it carries exactly those pain points
      (`CompetitorsOnlyMembers`); the same holds for segments. */
  lemma GapsSpec(target: Analysis, competitors: seq<Analysis>)
    ensures var gaps := Gaps(target, competitors);
      && |gaps| <= 2
      && (forall i :: 0 < i < |gaps| ==> gaps[i].UnderservedSegments?)
      && (UnaddressedPainPoints(CompetitorsOnly(target, competitors, PainPoints)) in gaps <==> CompetitorsOnly(target, competitors, PainPoints) != {})
      && (forall i :: 0 <= i < |gaps| && gaps[i].UnaddressedPainPoints? ==> gaps[i].painPoints == CompetitorsOnly(target, competitors, PainPoints))
      && (UnderservedSegments(CompetitorsOnly(target, competitors, Segments)) in gaps <==> CompetitorsOnly(target, competitors, Segments) != {})
      && (forall i :: 0 <= i < |gaps| && gaps[i].UnderservedSegments? ==> gaps[i].segments == CompetitorsOnly(target, competitors, Segments))
  {
  }

  /* ---------------------------------------------------------------- customer segment overlap */

  /** One overlap entry, `{'competitor_url': ..., 'target_count': ..., 'competitor_count': ...}`. */
  datatype OverlapEntry = OverlapEntry(competitorUrl: string, targetCount: nat, competitorCount: nat)

  /** `set(target_segments.keys()) & set(comp_segments.keys())`. */
  function Shared(target: Analysis, comp: Analysis): set<string> {
    FacetKeys(target, Segments) * FacetKeys(comp, Segments)
  }

  /** `len(a['customer_segments'][g])`, 0 for a segment the analysis does not have. */
  function SegmentSize(a: Analysis, g: string): nat {
    |Get(a.segments, g).GetOr([])|
  }

  /** `_analyze_customer_segment_overlap` as written. The analyses it receives come from
      `_analyze_website`, which sets no `url` key. So the first shared segment of any competitor
      raises `KeyError`, and when nothing is shared the result is empty. */
  function OverlapAsWritten(target: Analysis, competitors: seq<Analysis>): Result<map<string, seq<OverlapEntry>>, string> {
    if exists i :: 0 <= i < |competitors| && Shared(target, competitors[i]) != {} then Failure("KeyError: 'url'")
    else Success(map[])
  }

  /** The loop of the source over the competitors and their shared segments; the dead lookup of
      `comp['url']` ends it at the first shared segment. */
  method AnalyzeSegmentOverlapAsWritten(target: Analysis, competitors: seq<Analysis>)
    returns (r: Result<map<string, seq<OverlapEntry>>, string>)
    ensures r == OverlapAsWritten(target, competitors)
  {
    for j := 0 to |competitors|
      invariant forall i :: 0 <= i < j ==> Shared(target, competitors[i]) == {}
    {
      var shared := Shared(target, competitors[j]);
      if shared != {} {
        return Failure("KeyError: 'url'");
      }
    }
    return Success(map[]);
  }

  /** The as-written overlap never reports an overlap: it fails exactly when some segment is
      shared, and is empty otherwise. */
  lemma OverlapAsWrittenNeverReports(target: Analysis, competitors: seq<Analysis>)
    ensures OverlapAsWritten(target, competitors).Success? ==> OverlapAsWritten(target, competitors).value == map[]
    ensures OverlapAsWritten(target, competitors).Failure? <==>
      exists i, g :: 0 <= i < |competitors| && g in KeySet(target.segments) && g in KeySet(competitors[i].segments)
  {
    if exists i, g :: 0 <= i < |competitors| && g in KeySet(target.segments) && g in KeySet(competitors[i].segments) {
      var i, g :| 0 <= i < |competitors| && g in KeySet(target.segments) && g in KeySet(competitors[i].segments);
      assert g in Shared(target, competitors[i]);
    }
  }

  /** A target and one competitor that both have an enterprise customer: the as-written
      overlap raises `KeyError` instead of reporting the shared segment. */
  lemma OverlapKeyError()
    ensures var t := Testimonial("We rely on it every day", Some("Acme Inc"));
      var a := Analysis(1, [], [], [], [], [("enterprise", [t])]);
      OverlapAsWritten(a, [a]) == Failure("KeyError: 'url'")
  {
    var t := Testimonial("We rely on it every day", Some("Acme Inc"));
    var a := Analysis(1, [], [], [], [], [("enterprise", [t])]);
    assert a.segments[0].0 == "enterprise";
    assert "enterprise" in Shared(a, [a][0]);
  }

  /** A competitor with the url it was loaded for (`competitor_data[i]['url']`). */
  type Competitor = ComparativeAnalyzer.Site

  /** The analyses of the competitors, in order. */
  function Analyses(competitors: seq<Competitor>): (r: seq<Analysis>)
    ensures |r| == |competitors|
    ensures forall i :: 0 <= i < |competitors| ==> r[i] == competitors[i].analysis
  {
    seq(|competitors|, i requires 0 <= i < |competitors| => competitors[i].analysis)
  }

  /** The entry that competitor `c` contributes for segment `g`. */
  function EntryOf(target: Analysis, c: Competitor, g: string): OverlapEntry {
    OverlapEntry(c.url, SegmentSize(target, g), SegmentSize(c.analysis, g))
  }

  /** The entries for segment `g`: one per competitor that shares it, in competitor order. */
  function OverlapEntries(target: Analysis, competitors: seq<Competitor>, g: string): seq<OverlapEntry>
    decreases |competitors|
  {
    if competitors == [] then []
    else
      var n := |competitors| - 1;
      OverlapEntries(target, competitors[..n], g)
        + if g in Shared(target, competitors[n].analysis) then [EntryOf(target, competitors[n], g)] else []
  }

  /** The entries for `g` are one per competitor sharing `g`, each naming that competitor and
      carrying the two segment sizes; there are some exactly when some competitor shares `g`. */
  lemma {:induction false} OverlapEntriesSpec(target: Analysis, competitors: seq<Competitor>, g: string)
    ensures var es := OverlapEntries(target, competitors, g);
      && |es| <= |competitors|
      && (es != [] <==> exists j :: 0 <= j < |competitors| && g in Shared(target, competitors[j].analysis))
      && forall q :: 0 <= q < |es| ==>
           exists j :: 0 <= j < |competitors| && g in Shared(target, competitors[j].analysis) && es[q] == EntryOf(target, competitors[j], g)
    decreases |competitors|
  {
    if competitors != [] {
      var n := |competitors| - 1;
      var cs := competitors[..n];
      OverlapEntriesSpec(target, cs, g);
      assert forall j :: 0 <= j < n ==> cs[j] == competitors[j];
      var es := OverlapEntries(target, competitors, g);
      var prev := OverlapEntries(target, cs, g);
      forall q | 0 <= q < |es|
        ensures exists j :: 0 <= j < |competitors| && g in Shared(target, competitors[j].analysis) && es[q] == EntryOf(target, competitors[j], g)
      {
        if q < |prev| {
          assert es[q] == prev[q];
          var j :| 0 <= j < n && g in Shared(target, cs[j].analysis) && prev[q] == EntryOf(target, cs[j], g);
          assert competitors[j] == cs[j];
        } else {
          assert es[q] == EntryOf(target, competitors[n], g);
        }
      }
    }
  }

  /** The overlap keeps the url of each competitor, as the evidently intended `competitor_url`.
      Key order is left out: the source adds keys in set iteration order. */
  function Overlap(target: Analysis, competitors: seq<Competitor>): map<string, seq<OverlapEntry>> {
    map g | g in FacetKeys(target, Segments) && OverlapEntries(target, competitors, g) != [] :: OverlapEntries(target, competitors, g)
  }

  /** A segment is in the overlap exactly when the target and some competitor both have it; its
      entries are then those of `OverlapEntriesSpec`. */
  lemma OverlapSpec(target: Analysis, competitors: seq<Competitor>, g: string)
    ensures g in Overlap(target, competitors) <==>
      g in KeySet(target.segments) && exists j :: 0 <= j < |competitors| && g in KeySet(competitors[j].analysis.segments)
    ensures g in Overlap(target, competitors) ==> Overlap(target, competitors)[g] == OverlapEntries(target, competitors, g)
  {
    OverlapEntriesSpec(target, competitors, g);
    if g in KeySet(target.segments) && exists j :: 0 <= j < |competitors| && g in KeySet(competitors[j].analysis.segments) {
      var j :| 0 <= j < |competitors| && g in KeySet(competitors[j].analysis.segments);
      assert g in Shared(target, competitors[j].analysis);
    }
  }

  /** The overlap after one more competitor `c`, restricted to the segments of `done`. */
  function Extend(m: map<string, seq<OverlapEntry>>, target: Analysis, c: Competitor, done: set<string>): map<string, seq<OverlapEntry>> {
    map g | g in m.Keys + done :: (if g in m then m[g] else []) + if g in done then [EntryOf(target, c, g)] else []
  }

  /** Adding competitor `c` adds its entry to each segment it shares with the target. */
  lemma OverlapSnoc(target: Analysis, competitors: seq<Competitor>, c: Competitor)
    ensures Overlap(target, competitors + [c]) == Extend(Overlap(target, competitors), target, c, Shared(target, c.analysis))
  {
    var cs := competitors + [c];
    assert cs[..|competitors|] == competitors;
    forall g ensures OverlapEntries(target, cs, g) ==
      OverlapEntries(target, competitors, g) + if g in Shared(target, c.analysis) then [EntryOf(target, c, g)] else []
    {
    }
    var lhs, rhs := Overlap(target, cs), Extend(Overlap(target, competitors), target, c, Shared(target, c.analysis));
    assert lhs.Keys == rhs.Keys;
    forall g | g in lhs ensures lhs[g] == rhs[g] {
    }
  }

  /** Before any segment is handled, the overlap is unchanged. */
  lemma ExtendNothing(m: map<string, seq<OverlapEntry>>, target: Analysis, c: Competitor)
    ensures Extend(m, target, c, {}) == m
  {
    var e := Extend(m, target, c, {});
    assert e.Keys == m.Keys;
    forall h | h in m ensures e[h] == m[h] {
      assert m[h] + [] == m[h];
    }
  }

  /** `overlap[g].append(entry)` on a `defaultdict(list)`. */
  function AppendEntry(m: map<string, seq<OverlapEntry>>, g: string, e: OverlapEntry): map<string, seq<OverlapEntry>> {
    m[g := (if g in m then m[g] else []) + [e]]
  }

  /** Handling one more shared segment `g` appends the competitor's entry to `g` alone. */
  lemma ExtendStep(m: map<string, seq<OverlapEntry>>, target: Analysis, c: Competitor, done: set<string>, g: string)
    requires g !in done
    ensures AppendEntry(Extend(m, target, c, done), g, EntryOf(target, c, g)) == Extend(m, target, c, done + {g})
  {
    var lhs, rhs := AppendEntry(Extend(m, target, c, done), g, EntryOf(target, c, g)), Extend(m, target, c, done + {g});
    forall h ensures (h in lhs <==> h in rhs) && (h in lhs ==> lhs[h] == rhs[h]) {
      ExtendStepAt(m, target, c, done, g, h);
    }
    assert lhs.Keys == rhs.Keys;
  }

  lemma ExtendStepAt(m: map<string, seq<OverlapEntry>>, target: Analysis, c: Competitor, done: set<string>, g: string, h: string)
    requires g !in done
    ensures var lhs, rhs := AppendEntry(Extend(m, target, c, done), g, EntryOf(target, c, g)), Extend(m, target, c, done + {g});
      (h in lhs <==> h in rhs) && (h in lhs ==> lhs[h] == rhs[h])
  {
    var r := Extend(m, target, c, done);
    if h == g {
      assert (g in r) == (g in m);
    }
  }

  /** `for segment in set(...) & set(...): overlap[segment].append({...})` for one competitor,
      over the segments `segments` in any order. */
  method AddCompetitorOverlap(m: map<string, seq<OverlapEntry>>, target: Analysis, c: Competitor, segments: set<string>)
    returns (r: map<string, seq<OverlapEntry>>)
    ensures r == Extend(m, target, c, segments)
  {
    r := m;
    var todo := segments;
    ghost var done: set<string> := {};
    ExtendNothing(m, target, c);
    while todo != {}
      invariant todo !! done && todo + done == segments
      invariant r == Extend(m, target, c, done)
      decreases |todo|
    {
      var g :| g in todo;
      ExtendStep(m, target, c, done, g);
      r := AppendEntry(r, g, EntryOf(target, c, g));
      todo := todo - {g};
      done := done + {g};
    }
  }

  /** `_analyze_customer_segment_overlap`, with the competitors' urls. */
  method AnalyzeSegmentOverlap(target: Analysis, competitors: seq<Competitor>) returns (overlap: map<string, seq<OverlapEntry>>)
    ensures overlap == Overlap(target, competitors)
  {
    overlap := map[];
    for j := 0 to |competitors|
      invariant overlap == Overlap(target, competitors[..j])
    {
      assert competitors[..j + 1] == competitors[..j] + [competitors[j]];
      OverlapSnoc(target, competitors[..j], competitors[j]);
      overlap := AddCompetitorOverlap(overlap, target, competitors[j], Shared(target, competitors[j].analysis));
    }
    assert competitors[..|competitors|] == competitors;
  }

  /* ---------------------------------------------------------------- analyze_competitor */

  /** The `competitive_insights` part of the result. */
  datatype CompetitiveInsights = CompetitiveInsights(
    positioning: Positioning,
    advantages: seq<Advantage>,
    gaps: seq<Gap>,
    overlap: map<string, seq<OverlapEntry>>)

  function InsightsOf(target: Analysis, competitors: seq<Competitor>, higherSentiment: bool): CompetitiveInsights {
    var analyses := Analyses(competitors);
    CompetitiveInsights(PositioningOf(target, analyses), Advantages(target, analyses, higherSentiment),
      Gaps(target, analyses), Overlap(target, competitors))
  }

  /** `_generate_competitive_insights`, with the corrected overlap. */
  method GenerateCompetitiveInsights(target: Analysis, competitors: seq<Competitor>, higherSentiment: bool)
    returns (insights: CompetitiveInsights)
    ensures insights == InsightsOf(target, competitors, higherSentiment)
  {
    var analyses := Analyses(competitors);
    var positioning := AnalyzeMarketPositioning(target, analyses);
    var advantages := FindCompetitiveAdvantages(target, analyses, higherSentiment);
    var gaps := IdentifyMarketGaps(target, analyses);
    var overlap := AnalyzeSegmentOverlap(target, competitors);
    insights := CompetitiveInsights(positioning, advantages, gaps, overlap);
  }

  /** What the source does with the loaded target and competitors: the as-written overlap raises
      `KeyError` exactly when the target shares a segment with some loaded competitor. When nothing
      is shared, the corrected overlap is empty too, so the two agree. */
  lemma AnalyzeCompetitorKeyError(targetData: WebsiteData, competitorUrls: seq<string>, loaded: seq<Option<WebsiteData>>)
    requires |loaded| == |competitorUrls|
    ensures var target := AnalysisOf(targetData);
      var sites := ComparativeAnalyzer.LoadedSites(competitorUrls, loaded);
      && (OverlapAsWritten(target, Analyses(sites)).Failure? <==>
           exists j, g :: 0 <= j < |sites| && g in KeySet(target.segments) && g in KeySet(sites[j].analysis.segments))
      && (OverlapAsWritten(target, Analyses(sites)).Success? ==> Overlap(target, sites) == map[])
  {
    var target := AnalysisOf(targetData);
    var sites := ComparativeAnalyzer.LoadedSites(competitorUrls, loaded);
    var analyses := Analyses(sites);
    OverlapAsWrittenNeverReports(target, analyses);
    if OverlapAsWritten(target, analyses).Success? {
      forall g
        ensures g !in Overlap(target, sites)
      {
        OverlapSpec(target, sites, g);
      }
    }
  }

  /** The competitive analysis without the timestamp and the trend analysis. */
  datatype CompetitiveAnalysis = CompetitiveAnalysis(
    target: Competitor,
    competitors: seq<Competitor>,
    insights: CompetitiveInsights)

  /** `analyze_competitor`, given what `_load_website_data` returns for the target and for each
      competitor url (`None` for no file or an empty record). */
  method AnalyzeCompetitor(targetUrl: string, targetData: Option<WebsiteData>, competitorUrls: seq<string>,
                           loaded: seq<Option<WebsiteData>>, higherSentiment: bool)
    returns (r: Result<CompetitiveAnalysis, string>)
    requires |loaded| == |competitorUrls|
    ensures targetData.None? ==> r == Failure("No data found for target company: " + targetUrl)
    ensures targetData.Some? ==> (r.Failure? <==> forall i :: 0 <= i < |loaded| ==> loaded[i].None?)
    ensures targetData.Some? && r.Failure? ==> r.error == "No valid competitor data found"
    ensures r.Success? ==> targetData.Some?
    ensures r.Success? ==> r.value == CompetitiveAnalysis(
      ComparativeAnalyzer.Site(targetUrl, AnalysisOf(targetData.value)),
      ComparativeAnalyzer.LoadedSites(competitorUrls, loaded),
      InsightsOf(AnalysisOf(targetData.value), ComparativeAnalyzer.LoadedSites(competitorUrls, loaded), higherSentiment))
  {
    if targetData.None? {
      return Failure("No data found for target company: " + targetUrl);
    }
    var competitors: seq<Competitor> := [];
    for i := 0 to |competitorUrls|
      invariant competitors == ComparativeAnalyzer.LoadedSites(competitorUrls[..i], loaded[..i])
    {
      if loaded[i].Some? {
        var analysis := AnalyzeWebsite(loaded[i].value);
        competitors := competitors + [ComparativeAnalyzer.Site(competitorUrls[i], analysis)];
      }
      assert competitorUrls[..i + 1][..i] == competitorUrls[..i];
      assert loaded[..i + 1][..i] == loaded[..i];
    }
    assert competitorUrls[..|competitorUrls|] == competitorUrls;
    assert loaded[..|loaded|] == loaded;
    ComparativeAnalyzer.LoadedSitesEmpty(competitorUrls, loaded);
    if competitors == [] {
      return Failure("No valid competitor data found");
    }
    var target := AnalyzeWebsite(targetData.value);
    var insights := GenerateCompetitiveInsights(target, competitors, higherSentiment);
    return Success(CompetitiveAnalysis(ComparativeAnalyzer.Site(targetUrl, target), competitors, insights));
  }
}
