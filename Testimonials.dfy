/** `WebsiteScraper._extract_testimonials` (src/scrapers/website_scraper.py): quotes found under
    seven class/id patterns and in `blockquote` and `q` elements, deduplicated across all patterns
    by their lower-cased text, with the author and company split out of the attribution line. */
module Testimonials {
  import opened Wrappers
  import opened Strings
  import opened Dicts
  import opened Dom
  import opened Cleaning
  import opened StaticExtraction

  /** `self._is_css_content(text)`, which no class of the repository defines: a parameter. */
  type CssTest = string -> bool

  /** A testimonial entry, `{'quote': ..., 'author': ..., 'company': ...}`. */
  datatype Quote = Quote(quote: string, author: string, company: string)

  const Patterns: seq<string> :=
    ["testimonial", "review", "quote", "customer-story", "success-story", "case-study", "customer-quote"]

  /** The sections searched for one pattern: class matches, then id matches, then every `blockquote`
      and every `q` of the page. */
  function Candidates(doc: Node, pattern: string): seq<Located> {
    var all := AllOf(doc);
    WithClass(all, [pattern]) + WithId(all, pattern) + Named(all, ["blockquote"]) + Named(all, ["q"])
  }

  /** The candidates of the first `k` patterns, in order. */
  function CandidatesUpTo(doc: Node, k: nat): seq<Located>
    requires k <= |Patterns|
  {
    if k == 0 then [] else CandidatesUpTo(doc, k - 1) + Candidates(doc, Patterns[k - 1])
  }

  lemma CandidatesStep(doc: Node, k: nat)
    requires k < |Patterns|
    ensures CandidatesUpTo(doc, k + 1) == CandidatesUpTo(doc, k) + Candidates(doc, Patterns[k])
  {
  }

  // ---------------------------------------------------------------- author and company

  const PositionIndicators: seq<string> := ["Director", "Manager", "VP", "CEO", "President", "Head"]

  const PositionWords: seq<string> :=
    ["Director", "Manager", "VP", "CEO", "President", "Head", "of", "Marketing", "Sales"]

  /** The split at one indicator: the author is the stripped first piece followed by a blank and
      the indicator, the company the last piece with ` `, `o` and `f` trimmed, then stripped. */
  function IndicatorSplit(author: string, indicator: string): (string, string)
    requires indicator != []
  {
    var parts := Split(author, indicator);
    (Strip(parts[0]) + " " + indicator, Strip(StripChars(parts[|parts| - 1], {' ', 'o', 'f'})))
  }

  /** The loop over position indicators: the first one the author contains, and that splits it
      into more than one piece, decides the split. */
  function SplitAtIndicator(author: string, indicators: seq<string>): (r: (string, string))
    requires forall i :: 0 <= i < |indicators| ==> indicators[i] != []
  {
    if indicators == [] then (author, "")
    else
      var indicator := indicators[0];
      if Contains(author, indicator) && |Split(author, indicator)| > 1 then IndicatorSplit(author, indicator)
      else SplitAtIndicator(author, indicators[1..])
  }

  /** With no indicator in the author, the split leaves it alone and finds no company. */
  lemma {:induction false} SplitAtIndicatorNone(author: string, indicators: seq<string>)
    requires forall i :: 0 <= i < |indicators| ==> indicators[i] != []
    requires forall i :: 0 <= i < |indicators| ==> !Contains(author, indicators[i])
    ensures SplitAtIndicator(author, indicators) == (author, "")
  {
    if indicators != [] {
      SplitAtIndicatorNone(author, indicators[1..]);
    }
  }

  /** At the first indicator the author contains, the new author ends with it. */
  lemma {:induction false} SplitAtIndicatorFirst(author: string, indicators: seq<string>, k: nat)
    requires forall i :: 0 <= i < |indicators| ==> indicators[i] != []
    requires k < |indicators| && Contains(author, indicators[k])
    requires forall i :: 0 <= i < k ==> !Contains(author, indicators[i])
    ensures var (a, _) := SplitAtIndicator(author, indicators);
      |a| > |indicators[k]| && a[|a| - |indicators[k]|..] == indicators[k]
  {
    if k > 0 {
      SplitAtIndicatorFirst(author, indicators[1..], k - 1);
    } else {
      SplitMoreThanOne(author, indicators[0]);
    }
  }

  /** The first indicator the author contains decides the split. */
  lemma {:induction false} SplitAtIndicatorValue(author: string, indicators: seq<string>, k: nat)
    requires forall i :: 0 <= i < |indicators| ==> indicators[i] != []
    requires k < |indicators| && Contains(author, indicators[k])
    requires forall i :: 0 <= i < k ==> !Contains(author, indicators[i])
    ensures SplitAtIndicator(author, indicators) == IndicatorSplit(author, indicators[k])
  {
    if k > 0 {
      var rest := indicators[1..];
      assert !Contains(author, indicators[0]);
      assert SplitAtIndicator(author, indicators) == SplitAtIndicator(author, rest);
      assert forall i :: 0 <= i < |rest| ==> rest[i] == indicators[i + 1];
      SplitAtIndicatorValue(author, rest, k - 1);
    } else {
      SplitMoreThanOne(author, indicators[0]);
    }
  }

  /** The split at an indicator the author contains: the author is the stripped text before its
      first occurrence followed by the indicator, the company the text after its last occurrence
      with ` `, `o`, `f` and then blanks stripped. */
  lemma IndicatorSplitPieces(author: string, indicator: string) returns (i: nat, start: nat)
    requires indicator != [] && Contains(author, indicator)
    ensures Find(author, indicator) == Some(i)
    ensures i + |indicator| <= start <= |author|
    ensures !Contains(author[start..], indicator)
    ensures IndicatorSplit(author, indicator) ==
      (Strip(author[..i]) + " " + indicator, Strip(StripChars(author[start..], {' ', 'o', 'f'})))
  {
    i := Find(author, indicator).value;
    start := LastPieceStart(author, indicator);
    assert i + |indicator| <= start <= |author| && !Contains(author[start..], indicator)
      && Split(author, indicator)[0] == author[..i]
      && Split(author, indicator)[|Split(author, indicator)| - 1] == author[start..] by {
      OuterPieces(author, indicator);
    }
  }

  /** `if author and not company:` the comma split, then the split on the substring `at`, then the
      position indicators. */
  function Attribute(author: string, company: string): (r: (string, string))
  {
    if author != "" && company == "" then
      if |Split(author, ",")| > 1 then CommaSplit(author)
      else if |Split(author, "at")| > 1 then AtSplit(author)
      else SplitAtIndicator(author, PositionIndicators)
    else (author, company)
  }

  /** The comma split: the stripped first and last pieces of `author.split(',')`. */
  function CommaSplit(author: string): (string, string)
  {
    var parts := Split(author, ",");
    (Strip(parts[0]), Strip(parts[|parts| - 1]))
  }

  /** The `at` split: the stripped first and second pieces of `author.split('at')`. */
  function AtSplit(author: string): (string, string)
    requires |Split(author, "at")| > 1
  {
    var pieces := Split(author, "at");
    (Strip(pieces[0]), Strip(pieces[1]))
  }

  /** The split steps in order: a known company or a missing author leaves both alone; a comma
      splits at the first and last comma; otherwise `at` splits at its first occurrence. */
  lemma AttributeSpec(author: string, company: string)
    ensures author == "" || company != "" ==> Attribute(author, company) == (author, company)
    ensures author != "" && company == "" && Contains(author, ",") ==>
      !Contains(Attribute(author, company).0, ",") && !Contains(Attribute(author, company).1, ",")
    ensures author != "" && company == "" && !Contains(author, ",") && Contains(author, "at") ==>
      !Contains(Attribute(author, company).0, "at")
    ensures (author != "" && company == "" && !Contains(author, ",") && !Contains(author, "at")
             && forall i :: 0 <= i < |PositionIndicators| ==> !Contains(author, PositionIndicators[i])) ==>
      Attribute(author, company) == (author, "")
  {
    if author != "" && company == "" {
      SplitMoreThanOne(author, ",");
      if Contains(author, ",") {
        var parts := Split(author, ",");
        AttributeCommaPieces(author);
        SplitPiecesFree(author, ",");
        StripNoSep(parts[0], ",");
        StripNoSep(parts[|parts| - 1], ",");
      } else {
        SplitMoreThanOne(author, "at");
        if Contains(author, "at") {
          var pieces := Split(author, "at");
          AttributeAtPieces(author);
          SplitPiecesFree(author, "at");
          StripNoSep(pieces[0], "at");
        } else if forall i :: 0 <= i < |PositionIndicators| ==> !Contains(author, PositionIndicators[i]) {
          SplitAtIndicatorNone(author, PositionIndicators);
        }
      }
    }
  }

  /** With a comma, the author is the stripped text before the first comma and the company the
      stripped text after the last one. */
  lemma AttributeComma(author: string) returns (i: nat, j: nat)
    requires Contains(author, ",")
    ensures Find(author, ",") == Some(i)
    ensures i <= j < |author| && author[j] == ',' && !Contains(author[j + 1..], ",")
    ensures Attribute(author, "") == (Strip(author[..i]), Strip(author[j + 1..]))
  {
    i, j := OuterPiecesAt(author, ",");
    AttributeCommaPieces(author);
  }

  /** Which branch of the split applies, in terms of the number of pieces. */
  lemma AttributeBranch(author: string)
    requires author != ""
    ensures |Split(author, ",")| > 1 ==> Attribute(author, "") == CommaSplit(author)
    ensures |Split(author, ",")| == 1 && |Split(author, "at")| > 1 ==> Attribute(author, "") == AtSplit(author)
  {
  }

  lemma AttributeAtPieces(author: string)
    requires !Contains(author, ",") && Contains(author, "at")
    ensures |Split(author, "at")| > 1 && Attribute(author, "") == AtSplit(author)
  {
    assert author != "";
    SplitMoreThanOne(author, ",");
    SplitMoreThanOne(author, "at");
    AttributeBranch(author);
  }

  lemma AttributeCommaPieces(author: string)
    requires Contains(author, ",")
    ensures |Split(author, ",")| > 1 && Attribute(author, "") == CommaSplit(author)
  {
    assert author != "";
    SplitMoreThanOne(author, ",");
    AttributeBranch(author);
  }

  /** Without a comma but with `at`, the author is the stripped text before the first `at` and the
      company the stripped text after it, up to the next `at` or the end. */
  lemma AttributeAt(author: string) returns (p: nat, q: nat)
    requires !Contains(author, ",") && Contains(author, "at")
    ensures Find(author, "at") == Some(p)
    ensures p + 2 <= q <= |author| && !Contains(author[p + 2..q], "at")
    ensures q == |author| || OccursAt(author, "at", q)
    ensures Attribute(author, "") == (Strip(author[..p]), Strip(author[p + 2..q]))
  {
    AttributeAtPieces(author);
    p, q := AtSplitSlices(author);
  }

  /** The `at` split as slices of the author: before the first `at`, and from after it up to the
      next `at` or the end. */
  lemma AtSplitSlices(author: string) returns (p: nat, q: nat)
    requires Contains(author, "at")
    ensures |Split(author, "at")| > 1
    ensures Find(author, "at") == Some(p)
    ensures p + 2 <= q <= |author| && !Contains(author[p + 2..q], "at")
    ensures q == |author| || OccursAt(author, "at", q)
    ensures AtSplit(author) == (Strip(author[..p]), Strip(author[p + 2..q]))
  {
    FirstPieceAt(author, "at");
    var start, end := SecondPieceSlice(author, "at");
    p, q := start - 2, end;
  }

  lemma AttributeFallsThrough(author: string)
    requires author != "" && !Contains(author, ",") && !Contains(author, "at")
    ensures Attribute(author, "") == SplitAtIndicator(author, PositionIndicators)
  {
    SplitMoreThanOne(author, ",");
    SplitMoreThanOne(author, "at");
  }

  /** With neither a comma nor `at`, the first position indicator the author holds splits it:
      the author is the stripped text before its first occurrence followed by the indicator, and
      the company the text after its last occurrence with ` `, `o` and `f` stripped. */
  lemma AttributeIndicator(author: string, k: nat) returns (i: nat, start: nat)
    requires author != "" && !Contains(author, ",") && !Contains(author, "at")
    requires k < |PositionIndicators| && Contains(author, PositionIndicators[k])
    requires forall m :: 0 <= m < k ==> !Contains(author, PositionIndicators[m])
    ensures Find(author, PositionIndicators[k]) == Some(i)
    ensures i + |PositionIndicators[k]| <= start <= |author|
    ensures !Contains(author[start..], PositionIndicators[k])
    ensures Attribute(author, "") ==
      (Strip(author[..i]) + " " + PositionIndicators[k], Strip(StripChars(author[start..], {' ', 'o', 'f'})))
  {
    AttributeAtIndicator(author, k);
    i, start := IndicatorSplitPieces(author, PositionIndicators[k]);
  }

  /** With neither a comma nor `at`, the first position indicator the author holds decides. */
  lemma AttributeAtIndicator(author: string, k: nat)
    requires author != "" && !Contains(author, ",") && !Contains(author, "at")
    requires k < |PositionIndicators| && Contains(author, PositionIndicators[k])
    requires forall m :: 0 <= m < k ==> !Contains(author, PositionIndicators[m])
    ensures PositionIndicators[k] != [] && Attribute(author, "") == IndicatorSplit(author, PositionIndicators[k])
  {
    AttributeFallsThrough(author);
    PositionIndicatorsNonEmpty();
    SplitAtIndicatorValue(author, PositionIndicators, k);
  }

  lemma PositionIndicatorsNonEmpty()
    ensures forall m :: 0 <= m < |PositionIndicators| ==> PositionIndicators[m] != []
  {
  }

  /** Stripping never creates an occurrence. */
  lemma StripNoSep(s: string, sep: string)
    requires !Contains(s, sep)
    ensures !Contains(Strip(s), sep)
  {
    var a, b := StripSlice(s);
    NotContainsSlice(s, sep, a, b);
  }

  /** The words of `company` that are not position words. */
  function KeepWords(ws: seq<string>): (r: seq<string>)
    ensures forall i :: 0 <= i < |r| ==> r[i] !in PositionWords && r[i] in ws
  {
    if ws == [] then []
    else KeepWords(ws[..|ws| - 1]) + if ws[|ws| - 1] in PositionWords then [] else [ws[|ws| - 1]]
  }

  /** `# Clean up company name`: the position words dropped from a non-empty company. */
  function CleanCompany(company: string): string {
    if company != "" then Strip(Join(" ", KeepWords(SplitWs(company)))) else company
  }

  /** What the cleanup keeps is exactly the non-position words, in order, joined by blanks. */
  lemma CleanCompanySpec(company: string)
    requires company != ""
    ensures SplitWs(CleanCompany(company)) == KeepWords(SplitWs(company))
  {
    var kept := KeepWords(SplitWs(company));
    SplitWsWords(company);
    assert forall i :: 0 <= i < |kept| ==> IsWord(kept[i]);
    SplitWsJoin(kept);
    JoinWordsStripped(kept);
  }

  /** Words joined by blanks have no surrounding whitespace. */
  lemma {:induction false} JoinWordsStripped(ws: seq<string>)
    requires forall i :: 0 <= i < |ws| ==> IsWord(ws[i])
    ensures Strip(Join(" ", ws)) == Join(" ", ws)
  {
    var j := Join(" ", ws);
    if ws != [] {
      JoinWordsEdges(ws);
      StripNoEdgeSpace(j);
    }
  }

  /** Words joined by blanks start with the first word and end with the last. */
  lemma {:induction false} JoinWordsEdges(ws: seq<string>)
    requires ws != [] && forall i :: 0 <= i < |ws| ==> IsWord(ws[i])
    ensures var j := Join(" ", ws); j != [] && !IsSpace(j[0]) && !IsSpace(j[|j| - 1])
  {
    assert IsWord(ws[0]) && IsWord(ws[|ws| - 1]);
    if |ws| > 1 {
      JoinWordsEdges(ws[1..]);
      var rest := Join(" ", ws[1..]);
      JoinCons(ws);
      assert Join(" ", ws) == ws[0] + " " + rest;
    }
  }

  // ---------------------------------------------------------------- quotes

  const AuthorClasses: seq<string> := ["author", "name", "title"]
  const CompanyClasses: seq<string> := ["company", "organization", "firm"]

  /** The cleaned text of the first descendant with a class matching `words`, or `''`. */
  function FirstClassText(section: Located, words: seq<string>): string {
    match First(WithClass(Inside(section), words))
    case None => ""
    case Some(e) => CleanText(GetText(e.node))
  }

  /** The entry a section would add, before the duplicate check: none when its text is styling or
      its cleaned text is shorter than 30 characters. */
  function QuoteOf(section: Located, isCss: CssTest): (r: Option<Quote>)
    ensures r.Some? ==> |r.value.quote| >= 30
  {
    if isCss(GetText(section.node)) then None
    else
      var quote := CleanText(GetText(section.node));
      if quote == "" || |quote| < 30 then None
      else
        var (author, company) := Attribute(FirstClassText(section, AuthorClasses), FirstClassText(section, CompanyClasses));
        Some(Quote(quote, author, CleanCompany(company)))
  }

  /** `quote_text.lower().strip()`, the key of `seen_quotes`. */
  function Key(quote: string): string {
    Strip(Lower(quote))
  }

  /** The keys of the entries collected so far. */
  function Seen(qs: seq<Quote>): set<string> {
    set i | 0 <= i < |qs| :: Key(qs[i].quote)
  }

  /** One section: its entry is added unless it has none or its key was seen. */
  function Step(qs: seq<Quote>, section: Located, isCss: CssTest): seq<Quote> {
    match QuoteOf(section, isCss)
    case None => qs
    case Some(q) => if Key(q.quote) in Seen(qs) then qs else qs + [q]
  }

  /** The entries after `sections`, starting from `qs`. */
  function Collect(qs: seq<Quote>, sections: seq<Located>, isCss: CssTest): seq<Quote> {
    if sections == [] then qs
    else Step(Collect(qs, sections[..|sections| - 1], isCss), sections[|sections| - 1], isCss)
  }

  /** `_extract_testimonials(soup)`: one `seen_quotes` set across all patterns. */
  function ExtractedQuotes(doc: Node, isCss: CssTest): seq<Quote> {
    Collect([], CandidatesUpTo(doc, |Patterns|), isCss)
  }

  lemma CollectSnoc(qs: seq<Quote>, sections: seq<Located>, isCss: CssTest, j: nat)
    requires j < |sections|
    ensures Collect(qs, sections[..j + 1], isCss) == Step(Collect(qs, sections[..j], isCss), sections[j], isCss)
  {
    assert sections[..j + 1][..j] == sections[..j];
  }

  /** Collecting over two lists in a row is collecting over their concatenation. */
  lemma {:induction false} CollectAppend(qs: seq<Quote>, xs: seq<Located>, ys: seq<Located>, isCss: CssTest)
    ensures Collect(qs, xs + ys, isCss) == Collect(Collect(qs, xs, isCss), ys, isCss)
  {
    if ys == [] {
      assert xs + ys == xs;
    } else {
      var n := |ys| - 1;
      assert (xs + ys)[..|xs + ys| - 1] == xs + ys[..n];
      CollectAppend(qs, xs, ys[..n], isCss);
    }
  }

  /** A step adds at most one entry, and only a new key. */
  lemma StepSpec(qs: seq<Quote>, section: Located, isCss: CssTest)
    ensures var r := Step(qs, section, isCss);
      r == qs || (QuoteOf(section, isCss).Some? && r == qs + [QuoteOf(section, isCss).value]
                  && Key(QuoteOf(section, isCss).value.quote) !in Seen(qs))
    ensures QuoteOf(section, isCss).Some? ==> Key(QuoteOf(section, isCss).value.quote) in Seen(Step(qs, section, isCss))
    ensures Seen(qs) <= Seen(Step(qs, section, isCss))
  {
    var r := Step(qs, section, isCss);
    match QuoteOf(section, isCss)
    case None =>
    case Some(q) =>
      if Key(q.quote) !in Seen(qs) {
        assert r[|qs|] == q;
        assert forall i :: 0 <= i < |qs| ==> r[i] == qs[i];
      }
  }

  /** Distinct keys: no two entries have the same quote up to case and surrounding whitespace. */
  predicate DistinctQuotes(qs: seq<Quote>) {
    forall i, j :: 0 <= i < j < |qs| ==> Key(qs[i].quote) != Key(qs[j].quote)
  }

  /** Collecting keeps the keys distinct and every quote at least 30 characters long. */
  lemma {:induction false} CollectSpec(qs: seq<Quote>, sections: seq<Located>, isCss: CssTest)
    requires DistinctQuotes(qs) && forall i :: 0 <= i < |qs| ==> |qs[i].quote| >= 30
    ensures var r := Collect(qs, sections, isCss);
      DistinctQuotes(r) && forall i :: 0 <= i < |r| ==> |r[i].quote| >= 30
  {
    if sections != [] {
      var init := sections[..|sections| - 1];
      CollectSpec(qs, init, isCss);
      var prev := Collect(qs, init, isCss);
      StepSpec(prev, sections[|sections| - 1], isCss);
      var r := Collect(qs, sections, isCss);
      if r != prev {
        var q := QuoteOf(sections[|sections| - 1], isCss).value;
        forall i, j | 0 <= i < j < |r| ensures Key(r[i].quote) != Key(r[j].quote) {
          if j == |prev| {
            assert Key(r[i].quote) in Seen(prev);
          }
        }
      }
    }
  }

  /** Every section with an entry has its key among the collected ones: an entry is dropped only
      as a duplicate of one already kept, under any pattern. */
  lemma {:induction false} CollectComplete(qs: seq<Quote>, sections: seq<Located>, isCss: CssTest, k: nat)
    requires k < |sections| && QuoteOf(sections[k], isCss).Some?
    ensures Key(QuoteOf(sections[k], isCss).value.quote) in Seen(Collect(qs, sections, isCss))
  {
    var init := sections[..|sections| - 1];
    var prev := Collect(qs, init, isCss);
    StepSpec(prev, sections[|sections| - 1], isCss);
    if k < |sections| - 1 {
      assert init[k] == sections[k];
      CollectComplete(qs, init, isCss, k);
    }
  }

  /** Entry `q` is the one of section `k`, and no earlier section has an entry with its key. */
  predicate FirstWith(sections: seq<Located>, isCss: CssTest, q: Quote, k: int) {
    && 0 <= k < |sections| && QuoteOf(sections[k], isCss) == Some(q)
    && forall j :: 0 <= j < k && QuoteOf(sections[j], isCss).Some? ==>
         Key(QuoteOf(sections[j], isCss).value.quote) != Key(q.quote)
  }

  /** Each of `news` is a first occurrence from the section at the same place in `idx`, with a
      key not in `before`. */
  predicate EntriesFrom(sections: seq<Located>, isCss: CssTest, before: set<string>, news: seq<Quote>, idx: seq<int>) {
    && |news| == |idx|
    && forall i :: 0 <= i < |idx| ==> FirstWith(sections, isCss, news[i], idx[i]) && Key(news[i].quote) !in before
  }

  predicate Increasing(idx: seq<int>) {
    forall i, l :: 0 <= i < l < |idx| ==> idx[i] < idx[l]
  }

  /** `r` extends `qs`, and its new entries, in order, are first occurrences from the sections
      at the strictly increasing indices `idx`, each with a key not in `qs`. */
  predicate Sourced(qs: seq<Quote>, sections: seq<Located>, isCss: CssTest, r: seq<Quote>, idx: seq<int>) {
    && |qs| <= |r| && r[..|qs|] == qs
    && EntriesFrom(sections, isCss, Seen(qs), r[|qs|..], idx)
    && Increasing(idx)
  }

  /** Sections added after the last source index do not change what was sourced. */
  lemma EntriesExtend(init: seq<Located>, sections: seq<Located>, isCss: CssTest, before: set<string>,
                      news: seq<Quote>, idx: seq<int>)
    requires |init| <= |sections| && init == sections[..|init|]
    requires EntriesFrom(init, isCss, before, news, idx)
    ensures EntriesFrom(sections, isCss, before, news, idx)
  {
    forall i | 0 <= i < |idx| ensures FirstWith(sections, isCss, news[i], idx[i]) {
      FirstWithExtend(init, sections, isCss, news[i], idx[i]);
    }
  }

  lemma FirstWithExtend(init: seq<Located>, sections: seq<Located>, isCss: CssTest, q: Quote, k: int)
    requires |init| <= |sections| && init == sections[..|init|]
    requires FirstWith(init, isCss, q, k)
    ensures FirstWith(sections, isCss, q, k)
  {
    assert sections[k] == init[k];
    forall j | 0 <= j < k && QuoteOf(sections[j], isCss).Some?
      ensures Key(QuoteOf(sections[j], isCss).value.quote) != Key(q.quote)
    {
      assert sections[j] == init[j];
    }
  }

  lemma EntriesSnoc(sections: seq<Located>, isCss: CssTest, before: set<string>,
                    news: seq<Quote>, idx: seq<int>, q: Quote, n: int)
    requires EntriesFrom(sections, isCss, before, news, idx)
    requires FirstWith(sections, isCss, q, n) && Key(q.quote) !in before
    ensures EntriesFrom(sections, isCss, before, news + [q], idx + [n])
  {
    var news', idx' := news + [q], idx + [n];
    forall i | 0 <= i < |idx'|
      ensures FirstWith(sections, isCss, news'[i], idx'[i]) && Key(news'[i].quote) !in before
    {
      if i < |idx| {
        assert news'[i] == news[i] && idx'[i] == idx[i];
      }
    }
  }

  lemma IncreasingSnoc(idx: seq<int>, n: int)
    requires Increasing(idx) && forall i :: 0 <= i < |idx| ==> idx[i] < n
    ensures Increasing(idx + [n])
  {
    var idx' := idx + [n];
    forall i, l | 0 <= i < l < |idx'| ensures idx'[i] < idx'[l] {
      if l < |idx| {
        assert idx'[i] == idx[i] && idx'[l] == idx[l];
      }
    }
  }

  /** A first occurrence from a section after all earlier ones extends what was sourced. */
  lemma SourcedSnoc(qs: seq<Quote>, sections: seq<Located>, isCss: CssTest,
                    r: seq<Quote>, idx: seq<int>, q: Quote, n: int)
    requires Sourced(qs, sections, isCss, r, idx)
    requires FirstWith(sections, isCss, q, n) && Key(q.quote) !in Seen(qs)
    requires forall i :: 0 <= i < |idx| ==> idx[i] < n
    ensures Sourced(qs, sections, isCss, r + [q], idx + [n])
  {
    SlicesSnoc(qs, r, q);
    EntriesSnoc(sections, isCss, Seen(qs), r[|qs|..], idx, q, n);
    IncreasingSnoc(idx, n);
  }

  lemma SlicesSnoc(qs: seq<Quote>, r: seq<Quote>, q: Quote)
    requires |qs| <= |r| && r[..|qs|] == qs
    ensures (r + [q])[..|qs|] == qs && (r + [q])[|qs|..] == r[|qs|..] + [q]
  {
    assert (r + [q])[..|qs|] == r[..|qs|];
  }

  /** Every collected entry is sound: it is the entry of a section, the first one with its key
      unless that key was already in `qs`, and the entries keep the order of their sections. */
  lemma {:induction false} CollectSound(qs: seq<Quote>, sections: seq<Located>, isCss: CssTest)
    ensures exists idx :: Sourced(qs, sections, isCss, Collect(qs, sections, isCss), idx)
    decreases |sections|
  {
    if sections == [] {
      assert Collect(qs, sections, isCss) == qs;
      assert Sourced(qs, sections, isCss, qs, []);
    } else {
      var n := |sections| - 1;
      var init := sections[..n];
      CollectSound(qs, init, isCss);
      var prev := Collect(qs, init, isCss);
      var idx :| Sourced(qs, init, isCss, prev, idx);
      assert forall i :: 0 <= i < |idx| ==> idx[i] < n;
      EntriesExtend(init, sections, isCss, Seen(qs), prev[|qs|..], idx);
      var r := Collect(qs, sections, isCss);
      assert r == Step(prev, sections[n], isCss);
      match QuoteOf(sections[n], isCss)
      case None =>
        assert Sourced(qs, sections, isCss, r, idx);
      case Some(q) =>
        if Key(q.quote) in Seen(prev) {
          assert Sourced(qs, sections, isCss, r, idx);
        } else {
          FirstFromUnseen(qs, sections, isCss, q);
          SeenPrefix(qs, prev);
          SourcedSnoc(qs, sections, isCss, prev, idx, q, n);
          assert Sourced(qs, sections, isCss, r, idx + [n]);
        }
    }
  }

  /** The last section's entry is a first occurrence when its key was not collected before it. */
  lemma FirstFromUnseen(qs: seq<Quote>, sections: seq<Located>, isCss: CssTest, q: Quote)
    requires |sections| > 0 && QuoteOf(sections[|sections| - 1], isCss) == Some(q)
    requires Key(q.quote) !in Seen(Collect(qs, sections[..|sections| - 1], isCss))
    ensures FirstWith(sections, isCss, q, |sections| - 1)
  {
    var init := sections[..|sections| - 1];
    forall j | 0 <= j < |sections| - 1 && QuoteOf(sections[j], isCss).Some?
      ensures Key(QuoteOf(sections[j], isCss).value.quote) != Key(q.quote)
    {
      assert init[j] == sections[j];
      CollectComplete(qs, init, isCss, j);
    }
  }

  /** A list has every key of its prefix. */
  lemma SeenPrefix(qs: seq<Quote>, r: seq<Quote>)
    requires |qs| <= |r| && r[..|qs|] == qs
    ensures Seen(qs) <= Seen(r)
  {
    forall x | x in Seen(qs) ensures x in Seen(r) {
      var i :| 0 <= i < |qs| && x == Key(qs[i].quote);
      assert r[i] == qs[i];
    }
  }

  /** The quotes of `_extract_testimonials` are at least 30 characters long, no two share a key,
      every candidate section of any pattern with an entry has its key among them, and each of
      them is the entry of the first candidate with its key, in candidate order. */
  lemma ExtractedQuotesSpec(doc: Node, isCss: CssTest)
    ensures var r := ExtractedQuotes(doc, isCss);
      DistinctQuotes(r) && forall i :: 0 <= i < |r| ==> |r[i].quote| >= 30
    ensures forall k :: 0 <= k < |CandidatesUpTo(doc, |Patterns|)| && QuoteOf(CandidatesUpTo(doc, |Patterns|)[k], isCss).Some? ==>
      Key(QuoteOf(CandidatesUpTo(doc, |Patterns|)[k], isCss).value.quote) in Seen(ExtractedQuotes(doc, isCss))
    ensures exists idx :: Sourced([], CandidatesUpTo(doc, |Patterns|), isCss, ExtractedQuotes(doc, isCss), idx)
  {
    CollectSound([], CandidatesUpTo(doc, |Patterns|), isCss);
    CollectSpec([], CandidatesUpTo(doc, |Patterns|), isCss);
    forall k | 0 <= k < |CandidatesUpTo(doc, |Patterns|)| && QuoteOf(CandidatesUpTo(doc, |Patterns|)[k], isCss).Some?
      ensures Key(QuoteOf(CandidatesUpTo(doc, |Patterns|)[k], isCss).value.quote) in Seen(ExtractedQuotes(doc, isCss))
    {
      CollectComplete([], CandidatesUpTo(doc, |Patterns|), isCss, k);
    }
  }

  lemma SeenSnoc(qs: seq<Quote>, q: Quote)
    ensures Seen(qs + [q]) == Seen(qs) + {Key(q.quote)}
  {
    SeenSnocWithin(qs, q);
    SeenSnocCovers(qs, q);
  }

  lemma SeenSnocWithin(qs: seq<Quote>, q: Quote)
    ensures Seen(qs + [q]) <= Seen(qs) + {Key(q.quote)}
  {
    var r := qs + [q];
    forall i | 0 <= i < |r| ensures Key(r[i].quote) in Seen(qs) + {Key(q.quote)} {
      if i < |qs| {
        assert r[i] == qs[i];
      }
    }
  }

  lemma SeenSnocCovers(qs: seq<Quote>, q: Quote)
    ensures Seen(qs) + {Key(q.quote)} <= Seen(qs + [q])
  {
    var r := qs + [q];
    forall x | x in Seen(qs) ensures x in Seen(r) {
      var i :| 0 <= i < |qs| && x == Key(qs[i].quote);
      assert r[i] == qs[i];
    }
    assert r[|qs|] == q;
  }

  /** The inner loop over the sections of one pattern. */
  method AddQuotes(testimonials: seq<Quote>, seen: set<string>, sections: seq<Located>, isCss: CssTest)
    returns (r: seq<Quote>, seenAfter: set<string>)
    requires seen == Seen(testimonials)
    ensures r == Collect(testimonials, sections, isCss) && seenAfter == Seen(r)
  {
    r, seenAfter := testimonials, seen;
    var j := 0;
    while j < |sections|
      invariant 0 <= j <= |sections|
      invariant r == Collect(testimonials, sections[..j], isCss) && seenAfter == Seen(r)
    {
      CollectSnoc(testimonials, sections, isCss, j);
      var entry := QuoteOf(sections[j], isCss);
      if entry.Some? {
        var key := Key(entry.value.quote);
        if key !in seenAfter {
          SeenSnoc(r, entry.value);
          seenAfter := seenAfter + {key};
          r := r + [entry.value];
        }
      }
      j := j + 1;
    }
    assert sections[..|sections|] == sections;
  }

  /** One pass of the outer loop: the sections of pattern `k`, with the `seen_quotes` of the
      earlier patterns. */
  method AddPattern(doc: Node, isCss: CssTest, k: nat, testimonials: seq<Quote>, seen: set<string>)
    returns (r: seq<Quote>, seenAfter: set<string>)
    requires k < |Patterns|
    requires testimonials == Collect([], CandidatesUpTo(doc, k), isCss) && seen == Seen(testimonials)
    ensures r == Collect([], CandidatesUpTo(doc, k + 1), isCss) && seenAfter == Seen(r)
  {
    var sections := Candidates(doc, Patterns[k]);
    CandidatesStep(doc, k);
    CollectAppend([], CandidatesUpTo(doc, k), sections, isCss);
    r, seenAfter := AddQuotes(testimonials, seen, sections, isCss);
  }

  method ExtractTestimonials(doc: Node, isCss: CssTest) returns (testimonials: seq<Quote>)
    ensures testimonials == ExtractedQuotes(doc, isCss)
  {
    testimonials := [];
    var seen: set<string> := {};
    assert Seen(testimonials) == {};
    var k := 0;
    while k < |Patterns|
      invariant 0 <= k <= |Patterns|
      invariant testimonials == Collect([], CandidatesUpTo(doc, k), isCss)
      invariant seen == Seen(testimonials)
    {
      testimonials, seen := AddPattern(doc, isCss, k, testimonials, seen);
      k := k + 1;
    }
  }
}
