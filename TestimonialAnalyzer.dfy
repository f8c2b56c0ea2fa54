/** The keyword-table analysis of one site's testimonials: product mentions,
    benefit and pain-point sentences, key themes and customer segments. */
module TestimonialAnalyzer {
  import opened Wrappers
  import opened Strings
  import opened Dicts

  /** A testimonial as the analyzers read it: its `text`, and its `company` when the key is present. */
  datatype Testimonial = Testimonial(text: string, company: Option<string>)

  /** A keyword table: each category with its keywords, in declaration order. */
  type Table = Dict<string, seq<string>>

  const ProductKeywords: Table := [
    ("crm", ["crm", "sales hub", "customer platform", "sales software"]),
    ("marketing", ["marketing hub", "marketing automation", "content hub"]),
    ("service", ["service hub", "customer service", "support"]),
    ("operations", ["operations hub", "operations software"]),
    ("commerce", ["commerce hub", "b2b commerce"])
  ]

  const BenefitKeywords: Table := [
    ("efficiency", ["efficient", "automation", "automate", "reduce manual work", "save time"]),
    ("visibility", ["visibility", "track", "monitor", "see", "view"]),
    ("integration", ["integrate", "connect", "combine", "unite"]),
    ("scalability", ["scale", "growing", "growth", "expand"]),
    ("user_experience", ["easy to use", "intuitive", "user-friendly", "simple"]),
    ("reporting", ["report", "analytics", "data", "insights"])
  ]

  const PainPointKeywords: Table := [
    ("manual_work", ["manual work", "manual process", "manual tasks"]),
    ("visibility_issues", ["lack of visibility", "can't see", "no visibility"]),
    ("integration_problems", ["disconnected", "separate systems", "not integrated"]),
    ("scaling_challenges", ["scaling issues", "growth challenges", "can't scale"]),
    ("complexity", ["complex", "complicated", "difficult to use"])
  ]

  const ThemeKeywords: seq<string> := [
    "automation", "efficiency", "integration", "scaling",
    "visibility", "reporting", "user experience", "customer service",
    "growth", "productivity", "collaboration", "data"
  ]

  /** The theme list read as a table in which every theme is its own only keyword. */
  const ThemeTable: Table := [
    ("automation", ["automation"]), ("efficiency", ["efficiency"]), ("integration", ["integration"]),
    ("scaling", ["scaling"]), ("visibility", ["visibility"]), ("reporting", ["reporting"]),
    ("user experience", ["user experience"]), ("customer service", ["customer service"]),
    ("growth", ["growth"]), ("productivity", ["productivity"]), ("collaboration", ["collaboration"]),
    ("data", ["data"])
  ]

  /** The characters `re.split(r'[.!?]+', ...)` splits sentences on. */
  const SentenceDelimiters: set<char> := {'.', '!', '?'}

  /** A keyword that is non-empty and neither starts nor ends with whitespace. */
  predicate TrimmedKeyword(kw: string) {
    kw != [] && !IsSpace(kw[0]) && !IsSpace(kw[|kw| - 1])
  }

  /** Every keyword of the list is trimmed. */
  predicate AllTrimmed(kws: seq<string>) {
    forall j :: 0 <= j < |kws| ==> TrimmedKeyword(kws[j])
  }

  /** Every keyword of the table is trimmed. */
  predicate Trimmed(table: Table) {
    forall i :: 0 <= i < |table| ==> AllTrimmed(table[i].1)
  }

  lemma ProductTable()
    ensures DistinctKeys(ProductKeywords)
  {
  }

  lemma BenefitTable()
    ensures DistinctKeys(BenefitKeywords) && Trimmed(BenefitKeywords)
  {
    BenefitTableTrimmed();
  }

  lemma BenefitTableTrimmed()
    ensures Trimmed(BenefitKeywords)
  {
    BenefitRowsHead();
    BenefitRowsMiddle();
    BenefitRowsTail();
  }

  lemma BenefitRowsHead()
    ensures AllTrimmed(BenefitKeywords[0].1) && AllTrimmed(BenefitKeywords[1].1)
  {
  }

  lemma BenefitRowsMiddle()
    ensures AllTrimmed(BenefitKeywords[2].1) && AllTrimmed(BenefitKeywords[3].1)
  {
  }

  lemma BenefitRowsTail()
    ensures AllTrimmed(BenefitKeywords[4].1) && AllTrimmed(BenefitKeywords[5].1)
  {
  }

  lemma PainPointTable()
    ensures DistinctKeys(PainPointKeywords) && Trimmed(PainPointKeywords)
  {
    PainPointTableTrimmed();
  }

  lemma PainPointTableTrimmed()
    ensures Trimmed(PainPointKeywords)
  {
    PainPointRowsHead();
    PainPointRowsTail();
  }

  lemma PainPointRowsHead()
    ensures AllTrimmed(PainPointKeywords[0].1) && AllTrimmed(PainPointKeywords[1].1)
  {
  }

  lemma PainPointRowsTail()
    ensures AllTrimmed(PainPointKeywords[2].1) && AllTrimmed(PainPointKeywords[3].1) && AllTrimmed(PainPointKeywords[4].1)
  {
  }

  lemma ThemeTableShape()
    ensures DistinctKeys(ThemeTable) && |ThemeTable| == |ThemeKeywords|
    ensures forall i :: 0 <= i < |ThemeTable| ==> ThemeTable[i] == (ThemeKeywords[i], [ThemeKeywords[i]])
  {
  }

  /* ---------------------------------------------------------------- counting hits */

  /** The table has category `k` and one of its keywords occurs in `text`. */
  predicate Hit(text: string, table: Table, k: string) {
    Get(table, k).Some? && ContainsAny(text, Get(table, k).value)
  }

  /** One testimonial's pass over the table: each category with a keyword in `text` is counted once. */
  function CountHits(d: Dict<string, int>, text: string, table: Table): Dict<string, int>
    decreases |table|
  {
    if table == [] then d
    else
      var e := table[|table| - 1];
      var d' := CountHits(d, text, table[..|table| - 1]);
      if ContainsAny(text, e.1) then Increment(d', e.0) else d'
  }

  /** The counts after the loop over all testimonials, each lower-cased. */
  function TableCounts(ts: seq<Testimonial>, table: Table): Dict<string, int>
    decreases |ts|
  {
    if ts == [] then []
    else CountHits(TableCounts(ts[..|ts| - 1], table), Lower(ts[|ts| - 1].text), table)
  }

  /** How many testimonials hit category `k`. */
  function HitCount(ts: seq<Testimonial>, table: Table, k: string): (n: nat)
    ensures n <= |ts|
    decreases |ts|
  {
    if ts == [] then 0
    else HitCount(ts[..|ts| - 1], table, k) + (if Hit(Lower(ts[|ts| - 1].text), table, k) then 1 else 0)
  }

  lemma {:induction false} CountHitsGet(d: Dict<string, int>, text: string, table: Table, k: string)
    requires DistinctKeys(table)
    ensures Get(CountHits(d, text, table), k).GetOr(0) == Get(d, k).GetOr(0) + if Hit(text, table, k) then 1 else 0
    ensures Get(CountHits(d, text, table), k).Some? <==> Get(d, k).Some? || Hit(text, table, k)
    decreases |table|
  {
    if table != [] {
      var init := table[..|table| - 1];
      var e := table[|table| - 1];
      assert table == init + [e];
      assert DistinctKeys(init);
      CountHitsGet(d, text, init, k);
      GetSnoc(init, e, k);
      IncrementGet(CountHits(d, text, init), e.0, k);
      if e.0 == k {
        forall j | 0 <= j < |init| ensures Keys(init)[j] != k {
          assert table[j] == init[j];
        }
      }
    }
  }

  lemma {:induction false} CountHitsDistinct(d: Dict<string, int>, text: string, table: Table)
    requires DistinctKeys(d)
    ensures DistinctKeys(CountHits(d, text, table))
    decreases |table|
  {
    if table != [] {
      var e := table[|table| - 1];
      CountHitsDistinct(d, text, table[..|table| - 1]);
      var before := CountHits(d, text, table[..|table| - 1]);
      PutDistinct(before, e.0, Get(before, e.0).GetOr(0) + 1);
    }
  }

  /** Category `k` is counted exactly as often as testimonials hit it, and absent when none does. */
  lemma {:induction false} TableCountsGet(ts: seq<Testimonial>, table: Table, k: string)
    requires DistinctKeys(table)
    ensures Get(TableCounts(ts, table), k).GetOr(0) == HitCount(ts, table, k)
    ensures Get(TableCounts(ts, table), k).Some? <==> HitCount(ts, table, k) > 0
    decreases |ts|
  {
    if ts != [] {
      var init := ts[..|ts| - 1];
      TableCountsGet(init, table, k);
      CountHitsGet(TableCounts(init, table), Lower(ts[|ts| - 1].text), table, k);
    }
  }

  lemma {:induction false} TableCountsDistinct(ts: seq<Testimonial>, table: Table)
    ensures DistinctKeys(TableCounts(ts, table))
    decreases |ts|
  {
    if ts != [] {
      TableCountsDistinct(ts[..|ts| - 1], table);
      CountHitsDistinct(TableCounts(ts[..|ts| - 1], table), Lower(ts[|ts| - 1].text), table);
    }
  }

  /** A positive count is witnessed by a testimonial whose lower-cased text hits the category. */
  lemma {:induction false} HitCountWitness(ts: seq<Testimonial>, table: Table, k: string) returns (i: nat)
    requires HitCount(ts, table, k) > 0
    ensures i < |ts| && Hit(Lower(ts[i].text), table, k)
    decreases |ts|
  {
    if Hit(Lower(ts[|ts| - 1].text), table, k) {
      i := |ts| - 1;
    } else {
      i := HitCountWitness(ts[..|ts| - 1], table, k);
      assert ts[..|ts| - 1][i] == ts[i];
    }
  }

  /** Every counted category is a table category hit by some testimonial, with a count between 1 and the number of testimonials. */
  lemma CountsBounded(ts: seq<Testimonial>, table: Table)
    requires DistinctKeys(table)
    ensures DistinctKeys(TableCounts(ts, table))
    ensures forall j :: 0 <= j < |TableCounts(ts, table)| ==>
      1 <= TableCounts(ts, table)[j].1 <= |ts| && TableCounts(ts, table)[j].0 in Keys(table) &&
      exists i :: 0 <= i < |ts| && Hit(Lower(ts[i].text), table, TableCounts(ts, table)[j].0)
  {
    var c := TableCounts(ts, table);
    TableCountsDistinct(ts, table);
    forall j | 0 <= j < |c|
      ensures 1 <= c[j].1 <= |ts| && c[j].0 in Keys(table)
      ensures exists i :: 0 <= i < |ts| && Hit(Lower(ts[i].text), table, c[j].0)
    {
      GetAt(c, j);
      TableCountsGet(ts, table, c[j].0);
      var i := HitCountWitness(ts, table, c[j].0);
    }
  }

  /* ---------------------------------------------------------------- product mentions */

  /** `_analyze_product_mentions`: for each testimonial, each product with a keyword in the lower-cased text gets one more. */
  method AnalyzeProductMentions(ts: seq<Testimonial>) returns (mentions: Dict<string, int>)
    ensures mentions == TableCounts(ts, ProductKeywords)
  {
    mentions := [];
    for i := 0 to |ts|
      invariant mentions == TableCounts(ts[..i], ProductKeywords)
    {
      var text := Lower(ts[i].text);
      ghost var before := mentions;
      for j := 0 to |ProductKeywords|
        invariant mentions == CountHits(before, text, ProductKeywords[..j])
      {
        var (product, keywords) := ProductKeywords[j];
        if ContainsAny(text, keywords) {
          mentions := Increment(mentions, product);
        }
        assert ProductKeywords[..j + 1][..j] == ProductKeywords[..j];
      }
      assert ProductKeywords[..|ProductKeywords|] == ProductKeywords;
      assert ts[..i + 1][..i] == ts[..i];
    }
    assert ts[..|ts|] == ts;
  }

  /** Each product is counted once per testimonial that mentions it, and only mentioned products appear. */
  lemma ProductMentionsCount(ts: seq<Testimonial>, product: string)
    ensures Get(TableCounts(ts, ProductKeywords), product).GetOr(0) == HitCount(ts, ProductKeywords, product)
    ensures Get(TableCounts(ts, ProductKeywords), product).Some? <==> HitCount(ts, ProductKeywords, product) > 0
  {
    ProductTable();
    TableCountsGet(ts, ProductKeywords, product);
  }

  /** Every product count lies between 1 and the number of testimonials. */
  lemma ProductMentionsBounded(ts: seq<Testimonial>)
    ensures forall j :: 0 <= j < |TableCounts(ts, ProductKeywords)| ==>
      1 <= TableCounts(ts, ProductKeywords)[j].1 <= |ts| && TableCounts(ts, ProductKeywords)[j].0 in Keys(ProductKeywords)
  {
    ProductTable();
    CountsBounded(ts, ProductKeywords);
  }

  /* ---------------------------------------------------------------- benefit and pain-point sentences */

  /** One keyword's pass over the sentences of the lower-cased text: every sentence holding the
      keyword is recorded, stripped. The sentences are already lower-case, so `.lower()` on
      them changes nothing. */
  function AddSentences(d: Dict<string, seq<string>>, kind: string, keyword: string, sentences: seq<string>): Dict<string, seq<string>>
    decreases |sentences|
  {
    if sentences == [] then d
    else
      var d' := AddSentences(d, kind, keyword, sentences[..|sentences| - 1]);
      var s := sentences[|sentences| - 1];
      if Contains(s, keyword) then AppendTo(d', kind, Strip(s)) else d'
  }

  /** The pass over one category's keywords: a keyword that occurs in the text triggers a sentence scan. */
  function AddKeywords(d: Dict<string, seq<string>>, kind: string, text: string, keywords: seq<string>): Dict<string, seq<string>>
    decreases |keywords|
  {
    if keywords == [] then d
    else
      var d' := AddKeywords(d, kind, text, keywords[..|keywords| - 1]);
      var kw := keywords[|keywords| - 1];
      if Contains(text, kw) then AddSentences(d', kind, kw, SplitRuns(text, SentenceDelimiters)) else d'
  }

  /** One testimonial's pass over the whole table. */
  function AddTable(d: Dict<string, seq<string>>, text: string, table: Table): Dict<string, seq<string>>
    decreases |table|
  {
    if table == [] then d
    else
      var e := table[|table| - 1];
      AddKeywords(AddTable(d, text, table[..|table| - 1]), e.0, text, e.1)
  }

  /** The sentences recorded per category after the loop over all testimonials. */
  function KeywordSentences(ts: seq<Testimonial>, table: Table): Dict<string, seq<string>>
    decreases |ts|
  {
    if ts == [] then []
    else AddTable(KeywordSentences(ts[..|ts| - 1], table), Lower(ts[|ts| - 1].text), table)
  }

  /** `s` may be recorded under `kind`: it holds one of the kind's keywords, has no `.`, `!` or `?`,
      and has no whitespace at either end. */
  ghost predicate Evidence(table: Table, kind: string, s: string) {
    && Get(table, kind).Some?
    && (exists kw :: kw in Get(table, kind).value && Contains(s, kw))
    && (forall i :: 0 <= i < |s| ==> s[i] !in SentenceDelimiters)
    && (s == [] || (!IsSpace(s[0]) && !IsSpace(s[|s| - 1])))
  }

  /** Every recorded category is a table category and every recorded sentence is evidence for it. */
  ghost predicate AllEvidence(d: Dict<string, seq<string>>, table: Table) {
    forall k :: Get(d, k).Some? ==>
      Get(table, k).Some? && forall i :: 0 <= i < |Get(d, k).value| ==> Evidence(table, k, Get(d, k).value[i])
  }

  lemma RecordEvidence(d: Dict<string, seq<string>>, table: Table, kind: string, v: string)
    requires AllEvidence(d, table) && Evidence(table, kind, v)
    ensures AllEvidence(AppendTo(d, kind, v), table)
  {
    var r := AppendTo(d, kind, v);
    forall k | Get(r, k).Some?
      ensures Get(table, k).Some? && forall i :: 0 <= i < |Get(r, k).value| ==> Evidence(table, k, Get(r, k).value[i])
    {
      AppendToGet(d, kind, v, k);
      if k == kind {
        var old_ := Get(d, k).GetOr([]);
        assert Get(r, k).value == old_ + [v];
        assert forall i :: 0 <= i < |old_| ==> Evidence(table, k, old_[i]);
      }
    }
  }

  lemma {:induction false} AddSentencesEvidence(d: Dict<string, seq<string>>, table: Table, kind: string, kw: string, sentences: seq<string>)
    requires AllEvidence(d, table)
    requires Get(table, kind).Some? && kw in Get(table, kind).value
    requires TrimmedKeyword(kw)
    requires forall m, i :: 0 <= m < |sentences| && 0 <= i < |sentences[m]| ==> sentences[m][i] !in SentenceDelimiters
    ensures AllEvidence(AddSentences(d, kind, kw, sentences), table)
    decreases |sentences|
  {
    if sentences != [] {
      var init := sentences[..|sentences| - 1];
      var s := sentences[|sentences| - 1];
      AddSentencesEvidence(d, table, kind, kw, init);
      if Contains(s, kw) {
        assert forall i :: 0 <= i < |s| ==> s[i] !in SentenceDelimiters by {
          forall i | 0 <= i < |s| ensures s[i] !in SentenceDelimiters {
            assert s[i] == sentences[|sentences| - 1][i];
          }
        }
        StrippedEvidence(table, kind, kw, s);
        RecordEvidence(AddSentences(d, kind, kw, init), table, kind, Strip(s));
      }
    }
  }

  /** A sentence with no delimiter that holds a trimmed keyword of `kind` is, once stripped,
      evidence for `kind`. */
  lemma StrippedEvidence(table: Table, kind: string, kw: string, s: string)
    requires Get(table, kind).Some? && kw in Get(table, kind).value
    requires TrimmedKeyword(kw) && Contains(s, kw)
    requires forall i :: 0 <= i < |s| ==> s[i] !in SentenceDelimiters
    ensures Evidence(table, kind, Strip(s))
  {
    StripKeeps(s, kw);
    var a, b := StripSlice(s);
    assert forall i :: 0 <= i < |Strip(s)| ==> Strip(s)[i] == s[a + i];
  }

  lemma {:induction false} AddKeywordsEvidence(d: Dict<string, seq<string>>, table: Table, kind: string, text: string, keywords: seq<string>)
    requires AllEvidence(d, table) && Trimmed(table)
    requires Get(table, kind).Some? && forall m :: 0 <= m < |keywords| ==> keywords[m] in Get(table, kind).value
    ensures AllEvidence(AddKeywords(d, kind, text, keywords), table)
    decreases |keywords|
  {
    if keywords != [] {
      var init := keywords[..|keywords| - 1];
      var kw := keywords[|keywords| - 1];
      AddKeywordsEvidence(d, table, kind, text, init);
      if Contains(text, kw) {
        var p := IndexOf(table, kind).value;
        assert table[p].1 == Get(table, kind).value;
        assert AllTrimmed(table[p].1);
        assert kw in table[p].1;
        SplitRunsPieces(text, SentenceDelimiters);
        AddSentencesEvidence(AddKeywords(d, kind, text, init), table, kind, kw, SplitRuns(text, SentenceDelimiters));
      }
    }
  }

  lemma {:induction false} AddTableEvidence(d: Dict<string, seq<string>>, text: string, table: Table, n: nat)
    requires AllEvidence(d, table) && Trimmed(table) && DistinctKeys(table) && n <= |table|
    ensures AllEvidence(AddTable(d, text, table[..n]), table)
    decreases n
  {
    if n > 0 {
      var e := table[n - 1];
      assert table[..n][..n - 1] == table[..n - 1];
      AddTableEvidence(d, text, table, n - 1);
      GetAt(table, n - 1);
      AddKeywordsEvidence(AddTable(d, text, table[..n - 1]), table, e.0, text, e.1);
    }
  }

  /** Every recorded sentence holds one of its category's keywords, is free of `.`, `!` and `?`,
      and is stripped; every recorded category is a table category. */
  lemma {:induction false} KeywordSentencesEvidence(ts: seq<Testimonial>, table: Table)
    requires Trimmed(table) && DistinctKeys(table)
    ensures AllEvidence(KeywordSentences(ts, table), table)
    decreases |ts|
  {
    if ts != [] {
      KeywordSentencesEvidence(ts[..|ts| - 1], table);
      AddTableEvidence(KeywordSentences(ts[..|ts| - 1], table), Lower(ts[|ts| - 1].text), table, |table|);
      assert table[..|table|] == table;
    }
  }

  /** The innermost loop of `_analyze_benefits`: record every sentence holding the keyword, stripped. */
  method AddMatchingSentences(found: Dict<string, seq<string>>, kind: string, keyword: string, sentences: seq<string>)
    returns (r: Dict<string, seq<string>>)
    ensures r == AddSentences(found, kind, keyword, sentences)
  {
    r := found;
    for n := 0 to |sentences|
      invariant r == AddSentences(found, kind, keyword, sentences[..n])
    {
      if Contains(sentences[n], keyword) {
        r := AppendTo(r, kind, Strip(sentences[n]));
      }
      assert sentences[..n + 1][..n] == sentences[..n];
    }
    assert sentences[..|sentences|] == sentences;
  }

  /** The shared loop of `_analyze_benefits` and `_analyze_pain_points`. */
  method CollectSentences(ts: seq<Testimonial>, table: Table) returns (found: Dict<string, seq<string>>)
    ensures found == KeywordSentences(ts, table)
  {
    found := [];
    for i := 0 to |ts|
      invariant found == KeywordSentences(ts[..i], table)
    {
      var text := Lower(ts[i].text);
      ghost var beforeText := found;
      for j := 0 to |table|
        invariant found == AddTable(beforeText, text, table[..j])
      {
        var (kind, keywords) := table[j];
        ghost var beforeKind := found;
        for m := 0 to |keywords|
          invariant found == AddKeywords(beforeKind, kind, text, keywords[..m])
        {
          var keyword := keywords[m];
          if Contains(text, keyword) {
            var sentences := SplitRuns(text, SentenceDelimiters);
            found := AddMatchingSentences(found, kind, keyword, sentences);
          }
          assert keywords[..m + 1][..m] == keywords[..m];
        }
        assert keywords[..|keywords|] == keywords;
        assert table[..j + 1][..j] == table[..j];
      }
      assert table[..|table|] == table;
      assert ts[..i + 1][..i] == ts[..i];
    }
    assert ts[..|ts|] == ts;
  }

  /** `_analyze_benefits`. */
  method AnalyzeBenefits(ts: seq<Testimonial>) returns (benefits: Dict<string, seq<string>>)
    ensures benefits == KeywordSentences(ts, BenefitKeywords)
    ensures AllEvidence(benefits, BenefitKeywords)
  {
    benefits := CollectSentences(ts, BenefitKeywords);
    BenefitTable();
    KeywordSentencesEvidence(ts, BenefitKeywords);
  }

  /** `_analyze_pain_points`. */
  method AnalyzePainPoints(ts: seq<Testimonial>) returns (painPoints: Dict<string, seq<string>>)
    ensures painPoints == KeywordSentences(ts, PainPointKeywords)
    ensures AllEvidence(painPoints, PainPointKeywords)
  {
    painPoints := CollectSentences(ts, PainPointKeywords);
    PainPointTable();
    KeywordSentencesEvidence(ts, PainPointKeywords);
  }

  /* ---------------------------------------------------------------- key themes */

  /** `sorted(..., key=count, reverse=True)` inserts an item after every item whose count is at least its own. */
  function InsertByCount(x: (string, int), s: Dict<string, int>): (r: Dict<string, int>)
    ensures |r| == |s| + 1
  {
    if s == [] then [x]
    else if s[0].1 >= x.1 then [s[0]] + InsertByCount(x, s[1..])
    else [x] + s
  }

  /** Python's stable `sorted(items, key=lambda x: x[1], reverse=True)`. */
  function SortByCount(s: Dict<string, int>): (r: Dict<string, int>)
    ensures |r| == |s|
  {
    if s == [] then []
    else InsertByCount(s[|s| - 1], SortByCount(s[..|s| - 1]))
  }

  lemma {:induction false} InsertByCountPermutes(x: (string, int), s: Dict<string, int>)
    ensures multiset(InsertByCount(x, s)) == multiset(s) + multiset{x}
    decreases |s|
  {
    if s != [] && s[0].1 >= x.1 {
      InsertByCountPermutes(x, s[1..]);
      assert s == [s[0]] + s[1..];
    }
  }

  /** The sort rearranges the items: it neither adds, drops nor duplicates one. */
  lemma {:induction false} SortByCountPermutes(s: Dict<string, int>)
    ensures multiset(SortByCount(s)) == multiset(s)
    decreases |s|
  {
    if s != [] {
      SortByCountPermutes(s[..|s| - 1]);
      InsertByCountPermutes(s[|s| - 1], SortByCount(s[..|s| - 1]));
      assert s == s[..|s| - 1] + [s[|s| - 1]];
    }
  }

  /** Inserting an item whose key is new keeps the keys distinct. */
  lemma {:induction false} InsertByCountDistinct(x: (string, int), s: Dict<string, int>)
    requires DistinctKeys(s) && forall i :: 0 <= i < |s| ==> s[i].0 != x.0
    ensures DistinctKeys(InsertByCount(x, s))
    decreases |s|
  {
    if s != [] && s[0].1 >= x.1 {
      var t := s[1..];
      assert forall i :: 0 <= i < |t| ==> t[i] == s[i + 1];
      InsertByCountDistinct(x, t);
      InsertByCountPermutes(x, t);
      var rest := InsertByCount(x, t);
      forall k | 0 <= k < |rest|
        ensures rest[k].0 != s[0].0
      {
        assert rest[k] in multiset(rest);
        if rest[k] != x {
          assert rest[k] in multiset(t);
          var m :| 0 <= m < |t| && t[m] == rest[k];
          assert t[m] == s[m + 1];
        }
      }
      assert InsertByCount(x, s) == [s[0]] + rest;
    }
  }

  /** Sorting keeps the keys distinct. */
  lemma {:induction false} SortByCountDistinct(s: Dict<string, int>)
    requires DistinctKeys(s)
    ensures DistinctKeys(SortByCount(s))
    decreases |s|
  {
    if s != [] {
      var n := |s| - 1;
      var init := s[..n];
      SortByCountDistinct(init);
      SortByCountPermutes(init);
      var sorted := SortByCount(init);
      forall i | 0 <= i < |sorted|
        ensures sorted[i].0 != s[n].0
      {
        assert sorted[i] in multiset(init);
        var m :| 0 <= m < n && init[m] == sorted[i];
      }
      InsertByCountDistinct(s[n], sorted);
    }
  }

  /** Counts never increase along `s`. */
  predicate NonIncreasing(s: Dict<string, int>) {
    forall i, j :: 0 <= i < j < |s| ==> s[i].1 >= s[j].1
  }

  /** The items of `s` with count `c`, in order. */
  function WithCount(s: Dict<string, int>, c: int): Dict<string, int> {
    if s == [] then []
    else (if s[0].1 == c then [s[0]] else []) + WithCount(s[1..], c)
  }

  /** Inserting into a non-increasing list keeps it non-increasing. */
  lemma {:induction false} InsertSorted(x: (string, int), s: Dict<string, int>)
    requires NonIncreasing(s)
    ensures NonIncreasing(InsertByCount(x, s))
    decreases |s|
  {
    if s == [] {
    } else if s[0].1 >= x.1 {
      InsertSorted(x, s[1..]);
      InsertBounded(x, s[1..], s[0].1);
      NonIncreasingCons(s[0], InsertByCount(x, s[1..]));
    } else {
      NonIncreasingCons(x, s);
    }
  }

  /** Inserting into a non-increasing list puts the new item after every item of its own count. */
  lemma {:induction false} InsertStable(x: (string, int), s: Dict<string, int>, c: int)
    requires NonIncreasing(s)
    ensures WithCount(InsertByCount(x, s), c) == WithCount(s, c) + (if x.1 == c then [x] else [])
    decreases |s|
  {
    if s == [] {
      WithCountCons(x, [], c);
    } else if s[0].1 >= x.1 {
      InsertStable(x, s[1..], c);
      InsertStableStep(x, s, c);
    } else {
      WithCountCons(x, s, c);
      if x.1 == c {
        WithCountBelow(s, c);
      }
    }
  }

  lemma InsertStableStep(x: (string, int), s: Dict<string, int>, c: int)
    requires s != [] && s[0].1 >= x.1
    requires WithCount(InsertByCount(x, s[1..]), c) == WithCount(s[1..], c) + (if x.1 == c then [x] else [])
    ensures WithCount(InsertByCount(x, s), c) == WithCount(s, c) + (if x.1 == c then [x] else [])
  {
    var rest := InsertByCount(x, s[1..]);
    var head: Dict<string, int> := if s[0].1 == c then [s[0]] else [];
    var tail: Dict<string, int> := if x.1 == c then [x] else [];
    WithCountCons(s[0], rest, c);
    assert WithCount(InsertByCount(x, s), c) == head + (WithCount(s[1..], c) + tail);
    assert WithCount(s, c) == head + WithCount(s[1..], c);
  }

  lemma WithCountCons(y: (string, int), s: Dict<string, int>, c: int)
    ensures WithCount([y] + s, c) == (if y.1 == c then [y] else []) + WithCount(s, c)
  {
    assert ([y] + s)[1..] == s;
  }

  /** Inserting below a bound keeps every count below it. */
  lemma {:induction false} InsertBounded(x: (string, int), s: Dict<string, int>, b: int)
    requires x.1 <= b && forall j :: 0 <= j < |s| ==> s[j].1 <= b
    ensures forall j :: 0 <= j < |InsertByCount(x, s)| ==> InsertByCount(x, s)[j].1 <= b
    decreases |s|
  {
    if s != [] && s[0].1 >= x.1 {
      InsertBounded(x, s[1..], b);
    }
  }

  lemma NonIncreasingCons(y: (string, int), s: Dict<string, int>)
    requires NonIncreasing(s) && forall j :: 0 <= j < |s| ==> s[j].1 <= y.1
    ensures NonIncreasing([y] + s)
  {
    var r := [y] + s;
    forall i, j | 0 <= i < j < |r| ensures r[i].1 >= r[j].1 {
      assert r[j] == s[j - 1];
      if i > 0 {
        assert r[i] == s[i - 1];
      }
    }
  }

  /** No item of a non-increasing list whose head count is below `c` has count `c`. */
  lemma {:induction false} WithCountBelow(s: Dict<string, int>, c: int)
    requires NonIncreasing(s) && s != [] && s[0].1 < c
    ensures WithCount(s, c) == []
    decreases |s|
  {
    if |s| > 1 {
      WithCountBelow(s[1..], c);
    } else {
      assert s[1..] == [];
    }
  }

  lemma {:induction false} WithCountSnoc(s: Dict<string, int>, x: (string, int), c: int)
    ensures WithCount(s + [x], c) == WithCount(s, c) + (if x.1 == c then [x] else [])
    decreases |s|
  {
    if s == [] {
      assert [x][1..] == [];
    } else {
      var h: Dict<string, int> := if s[0].1 == c then [s[0]] else [];
      var t: Dict<string, int> := if x.1 == c then [x] else [];
      assert (s + [x])[0] == s[0] && (s + [x])[1..] == s[1..] + [x];
      WithCountSnoc(s[1..], x, c);
      assert WithCount(s + [x], c) == h + (WithCount(s[1..], c) + t);
      AppendAssoc(h, WithCount(s[1..], c), t);
    }
  }

  lemma AppendAssoc<T>(a: seq<T>, b: seq<T>, c: seq<T>)
    ensures a + (b + c) == (a + b) + c
  {
  }

  /** The sort is a permutation with non-increasing counts that keeps items of equal count in their original order. */
  lemma {:induction false} SortByCountSorted(s: Dict<string, int>)
    ensures NonIncreasing(SortByCount(s))
    ensures forall c :: WithCount(SortByCount(s), c) == WithCount(s, c)
    decreases |s|
  {
    if s != [] {
      var init, x := s[..|s| - 1], s[|s| - 1];
      assert s == init + [x];
      SortByCountSorted(init);
      InsertSorted(x, SortByCount(init));
      forall c ensures WithCount(SortByCount(s), c) == WithCount(s, c) {
        InsertStable(x, SortByCount(init), c);
        WithCountSnoc(init, x, c);
      }
    }
  }

  function Min(a: int, b: int): int {
    if a <= b then a else b
  }

  /** The (theme, count) pairs `_extract_key_themes` selects: the first five of the sorted counts. */
  function TopThemes(ts: seq<Testimonial>): Dict<string, int> {
    Take(SortByCount(TableCounts(ts, ThemeTable)), 5)
  }

  /** The key themes name each theme once. */
  lemma KeyThemesDistinct(ts: seq<Testimonial>)
    ensures Distinct(Keys(TopThemes(ts)))
  {
    var counts := TableCounts(ts, ThemeTable);
    TableCountsDistinct(ts, ThemeTable);
    SortByCountDistinct(counts);
    var top := TopThemes(ts);
    assert forall i :: 0 <= i < |top| ==> top[i] == SortByCount(counts)[i];
  }

  /** `s[:n]`. */
  function Take<T>(s: seq<T>, n: nat): (r: seq<T>)
    ensures |r| == Min(n, |s|) && r == s[..|r|]
  {
    s[..Min(n, |s|)]
  }

  /** `_extract_key_themes`: count each theme once per testimonial that contains it, sort the counts
      in decreasing order (stably) and keep the names of the first five. */
  method ExtractKeyThemes(ts: seq<Testimonial>) returns (themes: seq<string>)
    ensures themes == Keys(TopThemes(ts))
  {
    ThemeTableShape();
    var counts: Dict<string, int> := [];
    for i := 0 to |ts|
      invariant counts == TableCounts(ts[..i], ThemeTable)
    {
      var text := Lower(ts[i].text);
      ghost var before := counts;
      for j := 0 to |ThemeKeywords|
        invariant counts == CountHits(before, text, ThemeTable[..j])
      {
        var keyword := ThemeKeywords[j];
        assert ThemeTable[j] == (keyword, [keyword]);
        assert ContainsAny(text, [keyword]) <==> Contains(text, keyword) by {
          assert keyword in [keyword];
        }
        if Contains(text, keyword) {
          counts := Increment(counts, keyword);
        }
        assert ThemeTable[..j + 1][..j] == ThemeTable[..j];
        assert ThemeTable[..j + 1][j] == ThemeTable[j];
      }
      assert ThemeTable[..|ThemeKeywords|] == ThemeTable;
      assert ts[..i + 1][..i] == ts[..i];
    }
    assert ts[..|ts|] == ts;
    var ranked := SortByCount(counts);
    themes := Keys(Take(ranked, 5));
  }

  /** At most five themes, in non-increasing order of hits, each a theme keyword found in some
      lower-cased testimonial and carrying its hit count. */
  lemma KeyThemesProperties(ts: seq<Testimonial>)
    ensures |TopThemes(ts)| <= 5
    ensures NonIncreasing(TopThemes(ts))
    ensures forall j :: 0 <= j < |TopThemes(ts)| ==>
      TopThemes(ts)[j].0 in ThemeKeywords && TopThemes(ts)[j].1 == HitCount(ts, ThemeTable, TopThemes(ts)[j].0) &&
      exists i :: 0 <= i < |ts| && Contains(Lower(ts[i].text), TopThemes(ts)[j].0)
  {
    SortByCountSorted(TableCounts(ts, ThemeTable));
    forall j | 0 <= j < |TopThemes(ts)|
      ensures TopThemes(ts)[j].0 in ThemeKeywords && TopThemes(ts)[j].1 == HitCount(ts, ThemeTable, TopThemes(ts)[j].0)
      ensures exists i :: 0 <= i < |ts| && Contains(Lower(ts[i].text), TopThemes(ts)[j].0)
    {
      TopThemeFound(ts, j);
    }
  }

  lemma TopThemeFound(ts: seq<Testimonial>, j: nat)
    requires j < |TopThemes(ts)|
    ensures TopThemes(ts)[j].0 in ThemeKeywords && TopThemes(ts)[j].1 == HitCount(ts, ThemeTable, TopThemes(ts)[j].0)
    ensures exists i :: 0 <= i < |ts| && Contains(Lower(ts[i].text), TopThemes(ts)[j].0)
  {
    ThemeTableShape();
    var counts := TableCounts(ts, ThemeTable);
    var ranked := SortByCount(counts);
    SortByCountPermutes(counts);
    assert TopThemes(ts)[j] == ranked[j];
    assert ranked[j] in multiset(counts);
    var p :| 0 <= p < |counts| && counts[p] == ranked[j];
    TableCountsDistinct(ts, ThemeTable);
    GetAt(counts, p);
    TableCountsGet(ts, ThemeTable, counts[p].0);
    var i := HitCountWitness(ts, ThemeTable, counts[p].0);
    ThemeHit(Lower(ts[i].text), counts[p].0);
  }

  /** Every counted theme left out has no more hits than any theme kept. */
  lemma KeyThemesCutoff(ts: seq<Testimonial>)
    ensures forall x :: x in TableCounts(ts, ThemeTable) && x !in TopThemes(ts) ==>
      forall j :: 0 <= j < |TopThemes(ts)| ==> TopThemes(ts)[j].1 >= x.1
  {
    var counts := TableCounts(ts, ThemeTable);
    var ranked := SortByCount(counts);
    var top := TopThemes(ts);
    SortByCountSorted(counts);
    SortByCountPermutes(counts);
    forall x | x in counts && x !in top
      ensures forall j :: 0 <= j < |top| ==> top[j].1 >= x.1
    {
      assert x in multiset(ranked);
      var p :| 0 <= p < |ranked| && ranked[p] == x;
      assert forall q :: 0 <= q < |top| ==> top[q] == ranked[q];
      assert p >= |top|;
    }
  }

  /** A hit in the theme table is an occurrence of the theme itself. */
  lemma ThemeHit(text: string, theme: string)
    requires Hit(text, ThemeTable, theme)
    ensures theme in ThemeKeywords && Contains(text, theme)
  {
    ThemeTableShape();
    var r := IndexOf(ThemeTable, theme);
    var i := r.value;
    assert ThemeTable[i] == (ThemeKeywords[i], [ThemeKeywords[i]]);
    assert Get(ThemeTable, theme).value == [theme];
  }

  /** Themes with equal hit counts keep the order of their first hits. */
  lemma KeyThemesStable(ts: seq<Testimonial>, c: int)
    ensures WithCount(SortByCount(TableCounts(ts, ThemeTable)), c) == WithCount(TableCounts(ts, ThemeTable), c)
  {
    SortByCountSorted(TableCounts(ts, ThemeTable));
  }

  /* ---------------------------------------------------------------- customer segments */

  const EnterpriseWords: seq<string> := ["inc", "llc", "corp", "corporation"]
  const SmallBusinessWords: seq<string> := ["startup", "small business"]
  const AgencyWords: seq<string> := ["agency", "consulting"]

  /** The segment of a testimonial: the first rule whose words occur in the lower-cased company,
      a missing company counting as the empty string. */
  function SegmentOf(company: Option<string>): (seg: string)
    ensures seg in {"enterprise", "small_business", "agency", "other"}
  {
    var c := Lower(company.GetOr(""));
    if ContainsAny(c, EnterpriseWords) then "enterprise"
    else if ContainsAny(c, SmallBusinessWords) then "small_business"
    else if ContainsAny(c, AgencyWords) then "agency"
    else "other"
  }

  /** The rules in order: a later segment is chosen only when no earlier rule matches. */
  lemma SegmentRules(company: Option<string>)
    ensures var c := Lower(company.GetOr(""));
      && (SegmentOf(company) == "enterprise" <==> ContainsAny(c, EnterpriseWords))
      && (SegmentOf(company) == "small_business" <==> !ContainsAny(c, EnterpriseWords) && ContainsAny(c, SmallBusinessWords))
      && (SegmentOf(company) == "agency" <==>
            !ContainsAny(c, EnterpriseWords) && !ContainsAny(c, SmallBusinessWords) && ContainsAny(c, AgencyWords))
  {
  }

  /** A missing company matches no rule and lands in `other`. */
  lemma MissingCompanyIsOther()
    ensures SegmentOf(None) == "other"
  {
    assert Lower("") == "";
    assert !Contains("", "inc") && !Contains("", "llc") && !Contains("", "corp") && !Contains("", "corporation");
    assert !Contains("", "startup") && !Contains("", "small business");
    assert !Contains("", "agency") && !Contains("", "consulting");
  }

  /** The segment lists after the loop over all testimonials. */
  function Segments(ts: seq<Testimonial>): Dict<string, seq<Testimonial>>
    decreases |ts|
  {
    if ts == [] then []
    else
      var t := ts[|ts| - 1];
      AppendTo(Segments(ts[..|ts| - 1]), SegmentOf(t.company), t)
  }

  /** The testimonials of segment `seg`, in input order. */
  function Members(ts: seq<Testimonial>, seg: string): seq<Testimonial>
    decreases |ts|
  {
    if ts == [] then []
    else Members(ts[..|ts| - 1], seg) + (if SegmentOf(ts[|ts| - 1].company) == seg then [ts[|ts| - 1]] else [])
  }

  /** `_analyze_customer_segments`: append each testimonial to the list of its segment. */
  method AnalyzeCustomerSegments(ts: seq<Testimonial>) returns (segments: Dict<string, seq<Testimonial>>)
    ensures segments == Segments(ts)
  {
    segments := [];
    for i := 0 to |ts|
      invariant segments == Segments(ts[..i])
    {
      var company := Lower(ts[i].company.GetOr(""));
      var segment;
      if ContainsAny(company, EnterpriseWords) {
        segment := "enterprise";
      } else if ContainsAny(company, SmallBusinessWords) {
        segment := "small_business";
      } else if ContainsAny(company, AgencyWords) {
        segment := "agency";
      } else {
        segment := "other";
      }
      segments := AppendTo(segments, segment, ts[i]);
      assert ts[..i + 1][..i] == ts[..i];
    }
    assert ts[..|ts|] == ts;
  }

  /** Each segment's list holds exactly that segment's testimonials in input order; segments without any are absent. */
  lemma {:induction false} SegmentsGet(ts: seq<Testimonial>, seg: string)
    ensures Get(Segments(ts), seg).GetOr([]) == Members(ts, seg)
    ensures Get(Segments(ts), seg).Some? <==> Members(ts, seg) != []
    decreases |ts|
  {
    if ts != [] {
      var init, t := ts[..|ts| - 1], ts[|ts| - 1];
      SegmentsGet(init, seg);
      AppendToGet(Segments(init), SegmentOf(t.company), t, seg);
    }
  }

  /** Every testimonial is in exactly one segment: the four lists together are as long as the input. */
  lemma {:induction false} SegmentSizes(ts: seq<Testimonial>)
    ensures |Members(ts, "enterprise")| + |Members(ts, "small_business")| + |Members(ts, "agency")| + |Members(ts, "other")| == |ts|
    ensures forall seg :: seg !in {"enterprise", "small_business", "agency", "other"} ==> Members(ts, seg) == []
    decreases |ts|
  {
    if ts != [] {
      SegmentSizes(ts[..|ts| - 1]);
    }
  }

  /* ---------------------------------------------------------------- one site's analysis */

  /** The analysis of one site, without the sentiment part and the timestamp. */
  datatype Analysis = Analysis(
    total: nat,
    productMentions: Dict<string, int>,
    benefits: Dict<string, seq<string>>,
    painPoints: Dict<string, seq<string>>,
    keyThemes: seq<string>,
    segments: Dict<string, seq<Testimonial>>)

  /** The input record of a site: its `url` and `testimonials` keys, when present. */
  datatype WebsiteData = WebsiteData(url: Option<string>, testimonials: Option<seq<Testimonial>>)

  /** The analysis of `data.get('testimonials', [])`, field by field. */
  function AnalysisOf(data: WebsiteData): Analysis {
    var ts := data.testimonials.GetOr([]);
    Analysis(|ts|, TableCounts(ts, ProductKeywords), KeywordSentences(ts, BenefitKeywords),
      KeywordSentences(ts, PainPointKeywords), Keys(TopThemes(ts)), Segments(ts))
  }
  /** The analysis of a site lists each key theme once. */
  lemma AnalysisThemesDistinct(data: WebsiteData)
    ensures Distinct(AnalysisOf(data).keyThemes)
  {
    KeyThemesDistinct(data.testimonials.GetOr([]));
  }


  /** `_analyze_website`: every part computed by its own loop. */
  method AnalyzeWebsite(data: WebsiteData) returns (a: Analysis)
    ensures a == AnalysisOf(data)
  {
    var ts := data.testimonials.GetOr([]);
    var mentions := AnalyzeProductMentions(ts);
    var benefits := AnalyzeBenefits(ts);
    var painPoints := AnalyzePainPoints(ts);
    var themes := ExtractKeyThemes(ts);
    var segments := AnalyzeCustomerSegments(ts);
    a := Analysis(|ts|, mentions, benefits, painPoints, themes, segments);
  }

  /** The analysis's dicts, like every Python dict, have distinct keys; its total is 0 without testimonials. */
  lemma AnalysisWellFormed(data: WebsiteData)
    ensures DistinctKeys(AnalysisOf(data).productMentions) && DistinctKeys(AnalysisOf(data).segments)
    ensures data.testimonials.None? ==> AnalysisOf(data).total == 0
  {
    var ts := data.testimonials.GetOr([]);
    TableCountsDistinct(ts, ProductKeywords);
    SegmentsDistinct(ts);
  }

  lemma {:induction false} SegmentsDistinct(ts: seq<Testimonial>)
    ensures DistinctKeys(Segments(ts))
    decreases |ts|
  {
    if ts != [] {
      var t := ts[|ts| - 1];
      SegmentsDistinct(ts[..|ts| - 1]);
      var before := Segments(ts[..|ts| - 1]);
      PutDistinct(before, SegmentOf(t.company), Get(before, SegmentOf(t.company)).GetOr([]) + [t]);
    }
  }

  /** `analyze_testimonials`: the analysis, or the `KeyError` raised when the record has no `url` to save it under. */
  method AnalyzeTestimonials(data: WebsiteData) returns (r: Result<Analysis, string>)
    ensures data.url.None? <==> r.Failure?
    ensures r.Failure? ==> r.error == "KeyError: 'url'"
    ensures r.Success? ==> r.value == AnalysisOf(data) && r.value.total == |data.testimonials.GetOr([])|
  {
    var a := AnalyzeWebsite(data);
    if data.url.None? {
      return Failure("KeyError: 'url'");
    }
    return Success(a);
  }
}
