/** The extractors `WebsiteScraper.scrape_website` runs over the fetched page
    (src/scrapers/website_scraper.py): title, meta description, keyword sections with the content
    that follows matching headings, statistics, value propositions, images and links. */
module StaticExtraction {
  import opened Wrappers
  import opened Strings
  import opened Dicts
  import opened Dom
  import opened Cleaning
  import opened BaseScraper

  /** Every element of the page, with its place, in document order (`soup.find_all(...)`). */
  function AllOf(doc: Node): seq<Located> {
    Inside(Root(doc))
  }

  /** `_extract_title`: the stripped text of the first `title`, or `''`. */
  function ExtractTitle(doc: Node): string {
    match First(Named(AllOf(doc), ["title"]))
    case None => ""
    case Some(t) => Strip(GetText(t.node))
  }

  /** The title is `''` when the page has no `title` element. Otherwise it is the slice
      `[a, b)` of the first title's text with the whitespace around it cut off: every character
      outside the slice is whitespace and the slice does not start or end with any. */
  lemma TitleSpec(doc: Node) returns (a: nat, b: nat)
    ensures Named(AllOf(doc), ["title"]) == [] ==> ExtractTitle(doc) == ""
    ensures Named(AllOf(doc), ["title"]) != [] ==>
      var t := GetText(Named(AllOf(doc), ["title"])[0].node);
      StrippedAt(t, a, b) && ExtractTitle(doc) == t[a..b]
    ensures var r := ExtractTitle(doc); r == [] || (!IsSpace(r[0]) && !IsSpace(r[|r| - 1]))
    ensures Strip(ExtractTitle(doc)) == ExtractTitle(doc)
  {
    if Named(AllOf(doc), ["title"]) != [] {
      a, b := TitleText(doc);
    } else {
      a, b := 0, 0;
    }
  }

  /** A present title is the stripped text of the first `title`. */
  lemma TitleText(doc: Node) returns (a: nat, b: nat)
    requires Named(AllOf(doc), ["title"]) != []
    ensures var t := GetText(Named(AllOf(doc), ["title"])[0].node);
      StrippedAt(t, a, b) && ExtractTitle(doc) == t[a..b] && Strip(t[a..b]) == t[a..b]
  {
    var text := GetText(Named(AllOf(doc), ["title"])[0].node);
    assert ExtractTitle(doc) == Strip(text);
    a, b := StripSlice(text);
    StripClean(text);
  }

  /** `find('meta', attrs={'name': 'description'})`: the elements among `ls` that are `meta` with
      that exact `name`. */
  function DescriptionMetas(ls: seq<Located>): (r: seq<Located>)
    ensures forall i :: 0 <= i < |r| ==> NameIn(r[i].node, ["meta"]) && Attr(r[i].node, "name") == Some("description")
  {
    if ls == [] then []
    else
      var l := ls[|ls| - 1];
      DescriptionMetas(ls[..|ls| - 1]) + if NameIn(l.node, ["meta"]) && Attr(l.node, "name") == Some("description") then [l] else []
  }

  /** `_extract_meta_description`: the stripped `content` of the first description `meta`, or `''`. */
  function ExtractMetaDescription(doc: Node): string {
    match First(DescriptionMetas(AllOf(doc)))
    case None => ""
    case Some(m) => Strip(AttrOr(m.node, "content"))
  }

  /** The description is `''` without a description `meta`. Otherwise it is the slice `[a, b)`
      of the first one's `content` (or of `''` when it has none) with the whitespace around it cut
      off. */
  lemma MetaDescriptionSpec(doc: Node) returns (a: nat, b: nat)
    ensures DescriptionMetas(AllOf(doc)) == [] ==> ExtractMetaDescription(doc) == ""
    ensures DescriptionMetas(AllOf(doc)) != [] ==>
      var c := AttrOr(DescriptionMetas(AllOf(doc))[0].node, "content");
      StrippedAt(c, a, b) && ExtractMetaDescription(doc) == c[a..b]
    ensures var r := ExtractMetaDescription(doc); r == [] || (!IsSpace(r[0]) && !IsSpace(r[|r| - 1]))
    ensures Strip(ExtractMetaDescription(doc)) == ExtractMetaDescription(doc)
  {
    if DescriptionMetas(AllOf(doc)) != [] {
      a, b := MetaDescriptionText(doc);
    } else {
      a, b := 0, 0;
    }
  }

  /** A present description is the stripped `content` of the first description `meta`. */
  lemma MetaDescriptionText(doc: Node) returns (a: nat, b: nat)
    requires DescriptionMetas(AllOf(doc)) != []
    ensures var c := AttrOr(DescriptionMetas(AllOf(doc))[0].node, "content");
      StrippedAt(c, a, b) && ExtractMetaDescription(doc) == c[a..b] && Strip(c[a..b]) == c[a..b]
  {
    var content := AttrOr(DescriptionMetas(AllOf(doc))[0].node, "content");
    assert ExtractMetaDescription(doc) == Strip(content);
    a, b := StripSlice(content);
    StripClean(content);
  }

  /** `len(re.findall(r'[{};]', str(element))) > 10`: markup that is mostly styling. */
  predicate Dense(n: Node) {
    CountIn(Serialize(n), {'{', '}', ';'}) > 10
  }

  // ---------------------------------------------------------------- sections

  /** The keys of `self.content_sections`, in dict order, ... */
  const SectionKinds: seq<string> := ["about", "products", "pricing", "testimonials", "contact"]

  /** ... and the keywords of each. */
  const SectionKeywords: seq<seq<string>> := [
    ["about", "company", "mission", "team", "story"],
    ["products", "solutions", "features", "platform", "tools"],
    ["pricing", "plans", "packages", "subscription"],
    ["testimonials", "reviews", "customers", "success stories"],
    ["contact", "support", "help"]
  ]

  const Headings: seq<string> := ["h1", "h2", "h3"]

  /** The lambda of `_extract_sections`: the lower-cased `id` or one lower-cased class contains the
      keyword, and the element's stripped text is longer than 50 characters. */
  predicate KeywordElement(n: Node, keyword: string) {
    && n.Element?
    && (Contains(Lower(AttrOr(n, "id")), keyword)
        || exists i :: 0 <= i < |Classes(n)| && Contains(Lower(Classes(n)[i]), keyword))
    && |Strip(GetText(n))| > 50
  }

  function KeywordElements(ls: seq<Located>, keyword: string): (r: seq<Node>)
    ensures forall i :: 0 <= i < |r| ==> KeywordElement(r[i], keyword)
  {
    if ls == [] then []
    else
      var n := ls[|ls| - 1].node;
      KeywordElements(ls[..|ls| - 1], keyword) + if KeywordElement(n, keyword) then [n] else []
  }

  /** What a keyword-matched element contributes: its cleaned text, unless the element is mostly
      styling or the text is 50 characters or fewer. */
  function ElementFragment(n: Node): Option<string> {
    if Dense(n) then None
    else
      var text := CleanText(GetText(n));
      if text != "" && |text| > 50 then Some(text) else None
  }

  /** The fragments of the given elements, in order. */
  function Fragments(ns: seq<Node>): seq<string> {
    if ns == [] then []
    else
      Fragments(ns[..|ns| - 1]) + ElementFragment(ns[|ns| - 1]).ToSeq()
  }

  /** Every fragment is the cleaned text, longer than 50 characters, of an element that is not mostly
      styling. */
  lemma {:induction false} FragmentsFrom(ns: seq<Node>, x: string)
    requires x in Fragments(ns)
    ensures exists k :: 0 <= k < |ns| && !Dense(ns[k]) && x == CleanText(GetText(ns[k])) && |x| > 50
  {
    var init := ns[..|ns| - 1];
    if x in Fragments(init) {
      FragmentsFrom(init, x);
      var k :| 0 <= k < |init| && !Dense(init[k]) && x == CleanText(GetText(init[k])) && |x| > 50;
      assert ns[k] == init[k];
    } else {
      assert ElementFragment(ns[|ns| - 1]) == Some(x);
    }
  }

  lemma FragmentsSnoc(ns: seq<Node>, j: nat)
    requires j < |ns|
    ensures Fragments(ns[..j + 1]) == Fragments(ns[..j]) + ElementFragment(ns[j]).ToSeq()
  {
    assert ns[..j + 1][..j] == ns[..j];
  }

  /** The inner loop over the elements a keyword matches. */
  method KeywordElementFragments(ns: seq<Node>) returns (r: seq<string>)
    ensures r == Fragments(ns)
  {
    r := [];
    var j := 0;
    while j < |ns|
      invariant 0 <= j <= |ns|
      invariant r == Fragments(ns[..j])
    {
      FragmentsSnoc(ns, j);
      var fragment := ElementFragment(ns[j]);
      r := r + fragment.ToSeq();
      j := j + 1;
    }
    assert ns[..|ns|] == ns;
  }

  /** What one sibling after a heading contributes: the cleaned text of a `p`, `div` or `section`
      outside any `nav`, unless mostly styling, when longer than 30 characters and not starting with
      `var`, `function` or `class`. */
  function SiblingFragment(n: Node, inNav: bool): Option<string> {
    if NameIn(n, ["p", "div", "section"]) && !inNav && !Dense(n) then
      var text := CleanText(GetText(n));
      if text != "" && |text| > 30 && !StartsWithAny(text, CodePrefixes) then Some(text) else None
    else None
  }

  function SiblingFragments(ns: seq<Node>, inNav: bool): seq<string> {
    if ns == [] then []
    else
      SiblingFragments(ns[..|ns| - 1], inNav)
      + SiblingFragment(ns[|ns| - 1], inNav).ToSeq()
  }

  /** The sibling elements before the first `h1`, `h2` or `h3`. */
  function UntilHeading(ns: seq<Node>): seq<Node> {
    if ns == [] || NameIn(ns[0], Headings) then [] else [ns[0]] + UntilHeading(ns[1..])
  }

  /** The siblings kept are a prefix with no heading, followed by a heading or by nothing. */
  lemma {:induction false} UntilHeadingSpec(ns: seq<Node>)
    ensures var r := UntilHeading(ns); |r| <= |ns| && r == ns[..|r|]
    ensures forall i :: 0 <= i < |UntilHeading(ns)| ==> !NameIn(UntilHeading(ns)[i], Headings)
    ensures |UntilHeading(ns)| < |ns| ==> NameIn(ns[|UntilHeading(ns)|], Headings)
  {
    if ns != [] && !NameIn(ns[0], Headings) {
      UntilHeadingSpec(ns[1..]);
      assert UntilHeading(ns) == [ns[0]] + UntilHeading(ns[1..]);
    }
  }

  /** One loop step: a sibling that is not a heading is kept, and the loop goes on after it. */
  lemma UntilHeadingStep(ns: seq<Node>, i: nat, kept: seq<Node>)
    requires i < |ns| && !NameIn(ns[i], Headings)
    requires kept == ns[..i] + UntilHeading(ns[i..])
    ensures kept == ns[..i + 1] + UntilHeading(ns[i + 1..])
  {
    assert ns[i..][1..] == ns[i + 1..];
    assert ns[..i + 1] == ns[..i] + [ns[i]];
  }

  lemma SiblingFragmentsSnoc(ns: seq<Node>, inNav: bool, j: nat)
    requires j < |ns|
    ensures SiblingFragments(ns[..j + 1], inNav) == SiblingFragments(ns[..j], inNav) + SiblingFragment(ns[j], inNav).ToSeq()
  {
    assert ns[..j + 1][..j] == ns[..j];
  }

  /** `_get_content_after_heading(heading)`: the fragments of the sibling elements up to the next
      heading, joined by blanks, or `None` when there are none. Siblings share the heading's
      ancestors, so one `find_parent('nav')` answers for all of them. */
  function AfterHeading(heading: Located): Option<string> {
    var inNav := FindParent(heading, ["nav"]).Some?;
    var parts := SiblingFragments(UntilHeading(SiblingElements(heading.nextSiblings)), inNav);
    if parts == [] then None else Some(Join(" ", parts))
  }

  method ContentAfterHeading(heading: Located) returns (r: Option<string>)
    ensures r == AfterHeading(heading)
  {
    var inNav := FindParent(heading, ["nav"]).Some?;
    var siblings := SiblingElements(heading.nextSiblings);
    var content := FragmentsUntilHeading(siblings, inNav);
    r := if content == [] then None else Some(Join(" ", content));
  }

  /** The loop of `_get_content_after_heading` over the sibling elements, up to the next heading. */
  method FragmentsUntilHeading(siblings: seq<Node>, inNav: bool) returns (content: seq<string>)
    ensures content == SiblingFragments(UntilHeading(siblings), inNav)
  {
    content := [];
    var i := 0;
    while i < |siblings| && !NameIn(siblings[i], Headings)
      invariant 0 <= i <= |siblings|
      invariant UntilHeading(siblings) == siblings[..i] + UntilHeading(siblings[i..])
      invariant content == SiblingFragments(siblings[..i], inNav)
    {
      SiblingFragmentsSnoc(siblings, inNav, i);
      UntilHeadingStep(siblings, i, UntilHeading(siblings));
      content := content + SiblingFragment(siblings[i], inNav).ToSeq();
      i := i + 1;
    }
    assert UntilHeading(siblings[i..]) == [];
    assert UntilHeading(siblings) == siblings[..i];
  }

  /** Each part of the content after a heading is the cleaned text, longer than 30 characters, of a
      `p`, `div` or `section` sibling before the next heading and outside any `nav`. */
  lemma {:induction false} SiblingFragmentsFrom(ns: seq<Node>, inNav: bool, x: string)
    requires x in SiblingFragments(ns, inNav)
    ensures !inNav
    ensures exists k :: 0 <= k < |ns| && NameIn(ns[k], ["p", "div", "section"]) && !Dense(ns[k])
              && x == CleanText(GetText(ns[k])) && |x| > 30 && !StartsWithAny(x, CodePrefixes)
  {
    var init := ns[..|ns| - 1];
    if x in SiblingFragments(init, inNav) {
      SiblingFragmentsFrom(init, inNav, x);
      var k :| 0 <= k < |init| && NameIn(init[k], ["p", "div", "section"]) && !Dense(init[k])
                && x == CleanText(GetText(init[k])) && |x| > 30 && !StartsWithAny(x, CodePrefixes);
      assert ns[k] == init[k];
    } else {
      assert SiblingFragment(ns[|ns| - 1], inNav) == Some(x);
    }
  }

  /** What one heading contributes: when its lower-cased text contains a keyword, the content after
      it, if that is not empty. */
  function HeadingFragment(h: Located, keywords: seq<string>): Option<string> {
    if ContainsAny(Lower(GetText(h.node)), keywords) then
      match AfterHeading(h)
      case Some(c) => if c != "" then Some(c) else None
      case None => None
    else None
  }

  /** The heading fragments of one section kind, heading by heading. */
  function HeadingFragments(hs: seq<Located>, keywords: seq<string>): seq<string> {
    if hs == [] then []
    else HeadingFragments(hs[..|hs| - 1], keywords) + HeadingFragment(hs[|hs| - 1], keywords).ToSeq()
  }

  lemma HeadingFragmentsSnoc(hs: seq<Located>, keywords: seq<string>, j: nat)
    requires j < |hs|
    ensures HeadingFragments(hs[..j + 1], keywords) == HeadingFragments(hs[..j], keywords) + HeadingFragment(hs[j], keywords).ToSeq()
  {
    assert hs[..j + 1][..j] == hs[..j];
  }

  /** The attribute fragments of one section kind, keyword by keyword. */
  function KeywordFragments(all: seq<Located>, keywords: seq<string>): seq<string> {
    if keywords == [] then []
    else KeywordFragments(all, keywords[..|keywords| - 1]) + Fragments(KeywordElements(all, keywords[|keywords| - 1]))
  }

  lemma KeywordFragmentsSnoc(all: seq<Located>, keywords: seq<string>, k: nat)
    requires k < |keywords|
    ensures KeywordFragments(all, keywords[..k + 1]) == KeywordFragments(all, keywords[..k]) + Fragments(KeywordElements(all, keywords[k]))
  {
    assert keywords[..k + 1][..k] == keywords[..k];
  }

  /** `section_content` for one kind: attribute fragments, then heading fragments. */
  function SectionContent(doc: Node, keywords: seq<string>): seq<string> {
    KeywordFragments(AllOf(doc), keywords) + HeadingFragments(Named(AllOf(doc), Headings), keywords)
  }

  method CollectHeadingFragments(hs: seq<Located>, keywords: seq<string>) returns (r: seq<string>)
    ensures r == HeadingFragments(hs, keywords)
  {
    r := [];
    var j := 0;
    while j < |hs|
      invariant 0 <= j <= |hs|
      invariant r == HeadingFragments(hs[..j], keywords)
    {
      HeadingFragmentsSnoc(hs, keywords, j);
      var heading := hs[j];
      if ContainsAny(Lower(GetText(heading.node)), keywords) {
        var c := ContentAfterHeading(heading);
        if c.Some? && c.value != "" {
          r := r + [c.value];
        }
      }
      assert r == HeadingFragments(hs[..j], keywords) + HeadingFragment(heading, keywords).ToSeq();
      j := j + 1;
    }
    assert hs[..|hs|] == hs;
  }

  method CollectSectionContent(doc: Node, keywords: seq<string>) returns (content: seq<string>)
    ensures content == SectionContent(doc, keywords)
  {
    var all := AllOf(doc);
    content := CollectKeywordFragments(all, keywords);
    var headed := CollectHeadingFragments(Named(all, Headings), keywords);
    content := content + headed;
  }

  method CollectKeywordFragments(all: seq<Located>, keywords: seq<string>) returns (content: seq<string>)
    ensures content == KeywordFragments(all, keywords)
  {
    content := [];
    var k := 0;
    while k < |keywords|
      invariant 0 <= k <= |keywords|
      invariant content == KeywordFragments(all, keywords[..k])
    {
      KeywordFragmentsSnoc(all, keywords, k);
      var fragments := KeywordElementFragments(KeywordElements(all, keywords[k]));
      content := content + fragments;
      k := k + 1;
    }
    assert keywords[..|keywords|] == keywords;
  }

  /** The fragments kept from `section_content`: the first occurrence of each, in order, skipping
      those that start with `var`, `function` or `class`. */
  function Unique(xs: seq<string>): seq<string> {
    if xs == [] then []
    else
      var u := Unique(xs[..|xs| - 1]);
      var x := xs[|xs| - 1];
      if x !in u && !StartsWithAny(x, CodePrefixes) then u + [x] else u
  }

  /** Kept fragments are distinct, and a fragment is kept exactly when it occurs and does not start
      with a script keyword. */
  lemma {:induction false} UniqueSpec(xs: seq<string>)
    ensures Distinct(Unique(xs))
    ensures forall x :: x in Unique(xs) <==> x in xs && !StartsWithAny(x, CodePrefixes)
  {
    if xs != [] {
      var init := xs[..|xs| - 1];
      UniqueSpec(init);
      assert xs == init + [xs[|xs| - 1]];
    }
  }

  /** `idx` places each kept fragment of `u` at the first occurrence of it in `xs`, with the
      places increasing: `u` is a subsequence of `xs` in first-seen order. */
  predicate FirstOccurrences(xs: seq<string>, u: seq<string>, idx: seq<int>) {
    && |idx| == |u|
    && (forall k :: 0 <= k < |idx| ==> 0 <= idx[k] < |xs| && xs[idx[k]] == u[k])
    && (forall k, j :: 0 <= k < |idx| && 0 <= j < idx[k] ==> xs[j] != u[k])
    && (forall k, l :: 0 <= k < l < |idx| ==> idx[k] < idx[l])
  }

  /** The kept fragments keep the order in which they were first seen. */
  lemma {:induction false} UniqueOrder(xs: seq<string>) returns (idx: seq<int>)
    ensures FirstOccurrences(xs, Unique(xs), idx)
  {
    if xs == [] {
      idx := [];
    } else {
      var n := |xs| - 1;
      var init := xs[..n];
      var x := xs[n];
      var idx0 := UniqueOrder(init);
      var u := Unique(init);
      assert xs == init + [x];
      if x !in u && !StartsWithAny(x, CodePrefixes) {
        UniqueSpec(init);
        assert x !in init;
        idx := idx0 + [n];
        assert Unique(xs) == u + [x];
      } else {
        idx := idx0;
        assert Unique(xs) == u;
      }
    }
  }

  lemma UniqueSnoc(xs: seq<string>, i: nat)
    requires i < |xs|
    ensures Unique(xs[..i + 1]) == if xs[i] !in Unique(xs[..i]) && !StartsWithAny(xs[i], CodePrefixes) then Unique(xs[..i]) + [xs[i]] else Unique(xs[..i])
  {
    assert xs[..i + 1][..i] == xs[..i];
  }

  /** The loop with the `seen` set. */
  method UniqueContent(content: seq<string>) returns (unique: seq<string>)
    ensures unique == Unique(content)
  {
    var seen: set<string> := {};
    unique := [];
    var i := 0;
    while i < |content|
      invariant 0 <= i <= |content|
      invariant unique == Unique(content[..i])
      invariant seen == set x | x in unique
    {
      UniqueSnoc(content, i);
      var c := content[i];
      if c !in seen && !StartsWithAny(c, CodePrefixes) {
        seen := seen + {c};
        unique := unique + [c];
      }
      i := i + 1;
    }
    assert content[..|content|] == content;
  }

  /** The `section_content` of each kind, in table order. */
  function Contents(doc: Node): (cs: seq<seq<string>>)
    ensures |cs| == |SectionKeywords|
  {
    seq(|SectionKeywords|, i requires 0 <= i < |SectionKeywords| => SectionContent(doc, SectionKeywords[i]))
  }

  /** The dictionary built from the contents of the first kinds: a kind with content maps to its
      kept fragments joined by blanks. */
  function Assemble(contents: seq<seq<string>>): Dict<string, string>
    requires |contents| <= |SectionKinds|
  {
    if contents == [] then []
    else
      var n := |contents| - 1;
      Assemble(contents[..n]) + if contents[n] != [] then [(SectionKinds[n], Join(" ", Unique(contents[n])))] else []
  }

  /** `_extract_sections(soup)`. */
  function Sections(doc: Node): Dict<string, string> {
    Assemble(Contents(doc))
  }

  lemma AssembleSnoc(contents: seq<seq<string>>, n: nat)
    requires n < |contents| <= |SectionKinds|
    ensures Assemble(contents[..n + 1]) == Assemble(contents[..n])
      + if contents[n] != [] then [(SectionKinds[n], Join(" ", Unique(contents[n])))] else []
  {
    assert contents[..n + 1][..n] == contents[..n];
  }

  lemma ContentsAt(doc: Node, n: nat)
    requires n < |SectionKinds|
    ensures n < |Contents(doc)| && Contents(doc)[n] == SectionContent(doc, SectionKeywords[n])
  {
  }

  method ExtractSections(doc: Node) returns (sections: Dict<string, string>)
    ensures sections == Sections(doc)
  {
    sections := [];
    var n := 0;
    while n < |SectionKinds|
      invariant 0 <= n <= |SectionKinds|
      invariant sections == Assemble(Contents(doc)[..n])
    {
      var content := CollectSectionContent(doc, SectionKeywords[n]);
      ContentsAt(doc, n);
      AssembleSnoc(Contents(doc), n);
      if content != [] {
        var unique := UniqueContent(content);
        sections := sections + [(SectionKinds[n], Join(" ", unique))];
      }
      n := n + 1;
    }
    assert Contents(doc)[..n] == Contents(doc);
  }

  /** The five kinds are different keys. */
  lemma KindsDistinct()
    ensures Distinct(SectionKinds)
  {
    assert SectionKinds[0][0] == 'a' && SectionKinds[1][1] == 'r' && SectionKinds[2][1] == 'r';
    assert SectionKinds[3][0] == 't' && SectionKinds[4][0] == 'c';
    assert SectionKinds[1][2] == 'o' && SectionKinds[2][2] == 'i';
  }

  /** A kind not among the first `|contents|` is not a key of what they assemble. */
  lemma {:induction false} AssembleAbsent(contents: seq<seq<string>>, kind: string)
    requires |contents| <= |SectionKinds|
    requires kind !in SectionKinds[..|contents|]
    ensures Get(Assemble(contents), kind).None?
  {
    if contents != [] {
      var n := |contents| - 1;
      assert SectionKinds[..n] == SectionKinds[..|contents|][..n];
      AssembleAbsent(contents[..n], kind);
      if contents[n] != [] {
        GetSnoc(Assemble(contents[..n]), (SectionKinds[n], Join(" ", Unique(contents[n]))), kind);
      }
    }
  }

  /** Kind `i` is a key exactly when its content is not empty, and then maps to the blank-joined
      kept fragments. */
  lemma {:induction false} AssembleSpec(contents: seq<seq<string>>, i: nat)
    requires |contents| <= |SectionKinds| && i < |contents|
    ensures Get(Assemble(contents), SectionKinds[i]).Some? <==> contents[i] != []
    ensures Get(Assemble(contents), SectionKinds[i]).Some? ==>
      Get(Assemble(contents), SectionKinds[i]).value == Join(" ", Unique(contents[i]))
  {
    var n := |contents| - 1;
    var init := contents[..n];
    if contents[n] != [] {
      GetSnoc(Assemble(init), (SectionKinds[n], Join(" ", Unique(contents[n]))), SectionKinds[i]);
    } else {
      assert Assemble(contents) == Assemble(init);
    }
    KindsDistinct();
    if i < n {
      AssembleSpec(init, i);
      assert init[i] == contents[i];
      assert SectionKinds[i] != SectionKinds[n];
    } else {
      assert SectionKinds[n] !in SectionKinds[..n];
      AssembleAbsent(init, SectionKinds[n]);
    }
  }

  /** No kind is assembled twice. */
  lemma {:induction false} AssembleDistinct(contents: seq<seq<string>>)
    requires |contents| <= |SectionKinds|
    ensures DistinctKeys(Assemble(contents))
  {
    if contents != [] {
      var n := |contents| - 1;
      var d := Assemble(contents[..n]);
      AssembleDistinct(contents[..n]);
      if contents[n] != [] {
        KindsDistinct();
        assert SectionKinds[n] !in SectionKinds[..n];
        AssembleAbsent(contents[..n], SectionKinds[n]);
        GetSpec(d, SectionKinds[n]);
        var x := (SectionKinds[n], Join(" ", Unique(contents[n])));
        assert forall j :: 0 <= j < |d| ==> d[j].0 != x.0 by {
          forall j | 0 <= j < |d| ensures d[j].0 != x.0 {
            assert Keys(d)[j] == d[j].0;
          }
        }
        assert Assemble(contents) == d + [x];
      } else {
        assert Assemble(contents) == d;
      }
    }
  }

  /** `_extract_sections` never lists a kind twice. */
  lemma SectionsDistinct(doc: Node)
    ensures DistinctKeys(Sections(doc))
  {
    AssembleDistinct(Contents(doc));
  }

  /** A section kind is a key of `_extract_sections` exactly when it found fragments; its value is
      the blank-joined first occurrences, code-like fragments dropped. */
  lemma SectionsSpec(doc: Node, i: nat)
    requires i < |SectionKinds|
    ensures Get(Sections(doc), SectionKinds[i]).Some? <==> SectionContent(doc, SectionKeywords[i]) != []
    ensures Get(Sections(doc), SectionKinds[i]).Some? ==>
      Get(Sections(doc), SectionKinds[i]).value == Join(" ", Unique(SectionContent(doc, SectionKeywords[i])))
  {
    AssembleSpec(Contents(doc), i);
  }

  // ---------------------------------------------------------------- stats and value propositions

  /** What one statistics candidate contributes: its cleaned text when not mostly styling, non-empty,
      holding a digit and not starting with `var`, `function` or `class`. */
  function StatOf(n: Node): Option<string> {
    if Dense(n) then None
    else
      var text := CleanText(GetText(n));
      if text != "" && HasDigit(text) && !StartsWithAny(text, CodePrefixes) then Some(text) else None
  }

  function Stats(ns: seq<Located>): (r: seq<string>)
    ensures forall i :: 0 <= i < |r| ==> r[i] != "" && HasDigit(r[i]) && !StartsWithAny(r[i], CodePrefixes)
  {
    if ns == [] then []
    else Stats(ns[..|ns| - 1]) + StatOf(ns[|ns| - 1].node).ToSeq()
  }

  lemma StatsSnoc(ns: seq<Located>, i: nat)
    requires i < |ns|
    ensures Stats(ns[..i + 1]) == Stats(ns[..i]) + StatOf(ns[i].node).ToSeq()
  {
    assert ns[..i + 1][..i] == ns[..i];
  }

  /** The `div`, `p` and `span` elements whose class mentions a statistic. */
  function StatCandidates(doc: Node): seq<Located> {
    NamedWithClass(AllOf(doc), ["div", "p", "span"], ["stat", "metric", "number", "figure"])
  }

  /** `_extract_stats(soup)`. */
  method ExtractStats(doc: Node) returns (stats: seq<string>)
    ensures stats == Stats(StatCandidates(doc))
  {
    var elements := StatCandidates(doc);
    stats := [];
    var i := 0;
    while i < |elements|
      invariant 0 <= i <= |elements|
      invariant stats == Stats(elements[..i])
    {
      StatsSnoc(elements, i);
      stats := stats + StatOf(elements[i].node).ToSeq();
      i := i + 1;
    }
    assert elements[..|elements|] == elements;
  }

  /** What one heading, `strong` or paragraph inside a value-proposition element contributes. */
  function PropOf(n: Node): Option<string> {
    var text := CleanText(GetText(n));
    if text != "" && |text| > 10 && !StartsWithAny(text, CodePrefixes) then Some(text) else None
  }

  function Props(ps: seq<Located>): (r: seq<string>)
    ensures forall i :: 0 <= i < |r| ==> |r[i]| > 10 && !StartsWithAny(r[i], CodePrefixes)
  {
    if ps == [] then []
    else Props(ps[..|ps| - 1]) + PropOf(ps[|ps| - 1].node).ToSeq()
  }

  lemma PropsSnoc(ps: seq<Located>, j: nat)
    requires j < |ps|
    ensures Props(ps[..j + 1]) == Props(ps[..j]) + PropOf(ps[j].node).ToSeq()
  {
    assert ps[..j + 1][..j] == ps[..j];
  }

  const PropParts: seq<string> := ["h2", "h3", "h4", "strong", "p"]

  /** The propositions of the given candidate elements, skipping those that are mostly styling. */
  function ValueProps(es: seq<Located>): (r: seq<string>)
    ensures forall i :: 0 <= i < |r| ==> |r[i]| > 10 && !StartsWithAny(r[i], CodePrefixes)
  {
    if es == [] then []
    else
      var e := es[|es| - 1];
      ValueProps(es[..|es| - 1]) + if Dense(e.node) then [] else Props(Named(Inside(e), PropParts))
  }

  function ValuePropCandidates(doc: Node): seq<Located> {
    NamedWithClass(AllOf(doc), ["div", "section", "li"], ["feature", "benefit", "value", "advantage"])
  }

  /** The inner `find_all` loop over one candidate's headings, `strong`s and paragraphs. */
  method PropsIn(ps: seq<Located>) returns (r: seq<string>)
    ensures r == Props(ps)
  {
    r := [];
    var j := 0;
    while j < |ps|
      invariant 0 <= j <= |ps|
      invariant r == Props(ps[..j])
    {
      PropsSnoc(ps, j);
      r := r + PropOf(ps[j].node).ToSeq();
      j := j + 1;
    }
    assert ps[..|ps|] == ps;
  }

  lemma ValuePropsSnoc(es: seq<Located>, i: nat)
    requires i < |es|
    ensures ValueProps(es[..i + 1]) == ValueProps(es[..i]) + if Dense(es[i].node) then [] else Props(Named(Inside(es[i]), PropParts))
  {
    assert es[..i + 1][..i] == es[..i];
  }

  /** One candidate of `_extract_value_props`: its propositions, unless it is mostly styling. */
  method AddProps(props: seq<string>, e: Located) returns (r: seq<string>)
    ensures r == props + if Dense(e.node) then [] else Props(Named(Inside(e), PropParts))
  {
    r := props;
    if !Dense(e.node) {
      var found := PropsIn(Named(Inside(e), PropParts));
      r := r + found;
    }
  }

  /** `_extract_value_props(soup)`. */
  method ExtractValueProps(doc: Node) returns (props: seq<string>)
    ensures props == ValueProps(ValuePropCandidates(doc))
  {
    var elements := ValuePropCandidates(doc);
    props := [];
    var i := 0;
    while i < |elements|
      invariant 0 <= i <= |elements|
      invariant props == ValueProps(elements[..i])
    {
      ValuePropsSnoc(elements, i);
      props := AddProps(props, elements[i]);
      i := i + 1;
    }
    assert elements[..|elements|] == elements;
  }

  // ---------------------------------------------------------------- images and links

  /** What one `img` contributes: its `src` as written and its `alt`, when the `src` is not empty
      and not a `data:` URL. */
  function PageImage(img: Node): (r: Option<Image>)
    ensures r.Some? ==> r.value.src != "" && !StartsWith(r.value.src, "data:")
  {
    var src := AttrOr(img, "src");
    if src != "" && !StartsWith(src, "data:") then Some(Image(src, AttrOr(img, "alt"))) else None
  }

  /** The images `_extract_images` keeps, in document order. */
  function PageImages(imgs: seq<Located>): (r: seq<Image>)
    ensures |r| <= |imgs|
    ensures forall i :: 0 <= i < |r| ==> r[i].src != "" && !StartsWith(r[i].src, "data:")
  {
    if imgs == [] then []
    else PageImages(imgs[..|imgs| - 1]) + PageImage(imgs[|imgs| - 1].node).ToSeq()
  }

  lemma PageImagesSnoc(imgs: seq<Located>, i: nat)
    requires i < |imgs|
    ensures PageImages(imgs[..i + 1]) == PageImages(imgs[..i]) + PageImage(imgs[i].node).ToSeq()
  {
    assert imgs[..i + 1][..i] == imgs[..i];
  }

  method ExtractImages(doc: Node) returns (images: seq<Image>)
    ensures images == PageImages(Named(AllOf(doc), ["img"]))
  {
    var imgs := Named(AllOf(doc), ["img"]);
    images := [];
    var i := 0;
    while i < |imgs|
      invariant 0 <= i <= |imgs|
      invariant images == PageImages(imgs[..i])
    {
      PageImagesSnoc(imgs, i);
      var src := AttrOr(imgs[i].node, "src");
      if src != "" && !StartsWith(src, "data:") {
        images := images + [Image(src, AttrOr(imgs[i].node, "alt"))];
      }
      assert images == PageImages(imgs[..i]) + PageImage(imgs[i].node).ToSeq();
      i := i + 1;
    }
    assert imgs[..|imgs|] == imgs;
  }

  /** A link entry, `{'href': ..., 'text': ...}`. */
  datatype Link = Link(href: string, text: string)

  const SkippedSchemes: seq<string> := ["#", "javascript:", "mailto:", "tel:"]

  /** What one anchor contributes: its `href` and cleaned text, when both are non-empty and the
      `href` is not a fragment, script, mail or phone link. */
  function PageLink(a: Node): (r: Option<Link>)
    ensures r.Some? ==> r.value.href != "" && r.value.text != "" && !StartsWithAny(r.value.href, SkippedSchemes)
  {
    var href := AttrOr(a, "href");
    var text := CleanText(GetText(a));
    if href != "" && text != "" && !StartsWithAny(href, SkippedSchemes) then Some(Link(href, text)) else None
  }

  /** The links `_extract_links` keeps, in document order. */
  function PageLinks(anchors: seq<Located>): (r: seq<Link>)
    ensures |r| <= |anchors|
  {
    if anchors == [] then []
    else PageLinks(anchors[..|anchors| - 1]) + PageLink(anchors[|anchors| - 1].node).ToSeq()
  }

  /** Every link kept has a non-empty `href` that is not a fragment, script, mail or phone link,
      and non-empty text. */
  lemma {:induction false} PageLinksValid(anchors: seq<Located>)
    ensures forall l :: l in PageLinks(anchors) ==> l.href != "" && l.text != "" && !StartsWithAny(l.href, SkippedSchemes)
  {
    if anchors != [] {
      var init := anchors[..|anchors| - 1];
      PageLinksValid(init);
      var last := PageLink(anchors[|anchors| - 1].node);
      assert PageLinks(anchors) == PageLinks(init) + last.ToSeq();
    }
  }

  lemma PageLinksSnoc(anchors: seq<Located>, i: nat)
    requires i < |anchors|
    ensures PageLinks(anchors[..i + 1]) == PageLinks(anchors[..i]) + PageLink(anchors[i].node).ToSeq()
  {
    assert anchors[..i + 1][..i] == anchors[..i];
  }

  method ExtractLinks(doc: Node) returns (links: seq<Link>)
    ensures links == PageLinks(Named(AllOf(doc), ["a"]))
  {
    var anchors := Named(AllOf(doc), ["a"]);
    links := [];
    var i := 0;
    while i < |anchors|
      invariant 0 <= i <= |anchors|
      invariant links == PageLinks(anchors[..i])
    {
      PageLinksSnoc(anchors, i);
      links := links + PageLink(anchors[i].node).ToSeq();
      i := i + 1;
    }
    assert anchors[..|anchors|] == anchors;
  }
}
