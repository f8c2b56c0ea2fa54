# icp-analyzer: a verified model of the scraping and analysis core

icp-analyzer collects customer testimonials and page content from company websites and turns
them into an Ideal Customer Profile. This project models, in Dafny, the deterministic core of
that pipeline:

- **Website scraper** (`WebsiteScraper`). One GET of the page with no retry. Scripts and styles
  are removed. Then the static extractors run:
  - title and meta description;
  - keyword sections, plus the content that follows matching headings;
  - statistics, value propositions, images and links.

  Then the testimonials are merged in a fixed order: the browser's, then the case-study pages',
  then the ones embedded around video players and review widgets. `_extract_testimonials` is
  modelled on its own (`Testimonials`), because `scrape_website` never calls it.
- **Text cleaner** (`Cleaning`). `_clean_text` is a chain of regular-expression substitutions.
  Each one is written out as a left-to-right scanner that follows the leftmost-match behaviour of
  `re.sub`.
- **Base scraper** (`BaseScraper`). The retrying GET with exponential back-off, the URL helpers,
  and the plain text, link and image extraction.
- **Testimonial analyzer** (`TestimonialAnalyzer`). It uses keyword tables to count product
  mentions, collect benefit and pain-point sentences, choose the top five themes and sort
  testimonials into customer segments.
- **Comparative analyzer** (`ComparativeAnalyzer`). min/max of the totals, tables per product
  and per segment, themes shared by at least half of the sites, and per-site insight lines.
- **Competitive analyzer** (`CompetitiveAnalyzer`). Splits keys three ways between a target and
  its competitors, and derives advantages, market gaps and the customer-segment overlap.
- **Content processor** (`Processor`). The `ICPAttributes` record, `_combine_content`, per-label
  entity de-duplication, and parsing of the language model's numbered reply.
- **Configuration** (`Config`). Every setting `Config()` reads from the environment, the Redis
  and MongoDB URLs built from them, `validate` and `to_dict`.

Library modules model what the source takes from Python and BeautifulSoup:

- `Strings`: `str` methods;
- `Dicts`: insertion-ordered `dict` / `defaultdict`;
- `Dom`: the parsed document as an immutable tree, with the `find_all`, `find_parent`,
  `find_next`, sibling, `get_text` and `str(tag)` queries the scrapers use;
- `Urls`: the parts of `urlparse`'s result;
- `Numerals`: `int()` and `str()` on integers;
- `Wrappers`: `Option` and `Result`.

Everything outside the program becomes an input:

- A fetched page is a function `string -> Option<Node>`: `None` for any exception, a tree
  otherwise.
- `urlparse` and `urljoin` are function parameters.
- The outcome of each request attempt is an element of an input sequence.
- The environment is a `map<string, string>`.
- Selenium's testimonials are an input sequence.
- spaCy's entities are an input list.
- The language model's reply is an input string.
- `_is_css_content`, which no class of the repository defines, is a predicate parameter.

Code that loops and appends is written as methods with loop invariants. Each method is proved
equal to a specification function, and the listed properties are lemmas about those functions.

## Model

All paths are relative to the repository root.

| member | source | states |
|---|---|---|
| BaseScraper.Backoff | src/scrapers/base_scraper.py:27-28 | after the k-th failed attempt (counting from 0) the pause is 2^k seconds |
| BaseScraper.BackoffTotal | src/scrapers/base_scraper.py:27-28 | n successive pauses add up to 2^n − 1 seconds |
| BaseScraper.MakeRequest | src/scrapers/base_scraper.py:18-30 | at most max(0, max_retries) attempts are made. A response is returned only from the first attempt that succeeds, and every earlier attempt failed. None is returned only when every allowed attempt failed, or when none was allowed. A pause of 2^k follows each failed attempt k except the last attempt allowed |
| BaseScraper.NormalizeUrl | src/scrapers/base_scraper.py:39-51 | a URL with a scheme and a network location comes back unchanged; any other is joined onto the base URL |
| BaseScraper.StripAllStripped | src/scrapers/base_scraper.py:57 | stripping the stripped strings again changes nothing |
| Dom.NoPlainInside | src/scrapers/website_scraper.py:263 | inside a `script`, `style`, `template`, `rt` or `rp` element no string is a plain string, so `get_text()` on a tag that is no such element does not see it |
| Dom.ContainerChildSkipped | src/scrapers/website_scraper.py:263 | removing a `script`, `style`, `template`, `rt` or `rp` child leaves the strings of a tag that is no such element unchanged |
| Dom.ContainerTexts | src/scrapers/base_scraper.py:57 | the strings of a `script`, `style`, `template`, `rt` or `rp` element itself are the strings inside it |
| Dom.PlainTexts | src/scrapers/base_scraper.py:57 | a tag that is no string container and holds one string has that string as its text |
| Dom.ScriptTextSkipped | src/scrapers/website_scraper.py:260-263 | a testimonial `div` holding a paragraph and a tracking script reads as the paragraph alone |
| BaseScraper.ExtractTextSpec | src/scrapers/base_scraper.py:53-57 | the text of an element is its stripped strings joined by single blanks; it is empty exactly when the element has no non-blank string |
| BaseScraper.Anchors | src/scrapers/base_scraper.py:62 | only `a` elements carrying an `href` are visited |
| BaseScraper.LinksOf | src/scrapers/base_scraper.py:62-66 | every link produced is a valid URL |
| BaseScraper.ExtractLinks | src/scrapers/base_scraper.py:59-67 | the loop yields exactly the normalized hrefs that are valid, in document order, so every link is a valid URL |
| BaseScraper.CollectLinks | src/scrapers/base_scraper.py:62-66 | the append loop over the anchors equals the specification of the link list |
| BaseScraper.WithSrc | src/scrapers/base_scraper.py:72-75 | only images with a non-empty `src` are kept |
| BaseScraper.ImagesOfSpec | src/scrapers/base_scraper.py:72-80 | there is one entry per `img` with a non-empty `src`, in document order, carrying the normalized `src` and the `alt` text |
| BaseScraper.ExtractImages | src/scrapers/base_scraper.py:69-81 | the method yields the image list of every `img` of the document |
| BaseScraper.CollectImages | src/scrapers/base_scraper.py:72-80 | the append loop equals the specification of the image list |
| Cleaning.RemoveSpans | src/scrapers/website_scraper.py:106-107 | removing `<script…</script>` / `<style…</style>` spans never lengthens the text |
| Cleaning.ReplaceTags | src/scrapers/website_scraper.py:110 | replacing each tag by a blank never lengthens the text |
| Cleaning.RemoveBraces | src/scrapers/website_scraper.py:113 | deleting `{…}` blocks never lengthens the text |
| Cleaning.PropertyRun | src/scrapers/website_scraper.py:114 | gives the length of the longest leading run of `[a-z-]` |
| Cleaning.DeclarationLength | src/scrapers/website_scraper.py:114 | a `prop: value;` match is at least 4 characters long and lies inside the text |
| Cleaning.RemoveDeclarations | src/scrapers/website_scraper.py:114 | deleting declarations never lengthens the text |
| Cleaning.DropRun | src/scrapers/website_scraper.py:117-118 | the rest of the text after a whitespace run is a suffix that starts outside the class |
| Cleaning.Collapse | src/scrapers/website_scraper.py:117-118 | collapsing runs never lengthens the text |
| Cleaning.CollapseSingleSpaced | src/scrapers/website_scraper.py:118 | after `\s+` → blank, no two whitespace characters are adjacent and every whitespace character is a blank |
| Cleaning.CleanTextShape | src/scrapers/website_scraper.py:100-125 | falsy input gives `''`. Otherwise the result has no leading or trailing whitespace and no double whitespace. Its lower-cased form starts with none of `var `, `function `, `class ` |
| Cleaning.RemoveSpansPlain | src/scrapers/website_scraper.py:106-107 | text holding no `<`, `{` or `:` has no `<…` span to remove and comes back unchanged |
| Cleaning.ReplaceTagsPlain | src/scrapers/website_scraper.py:110 | text holding no `<`, `{` or `:` has no tag and comes back unchanged |
| Cleaning.RemoveBracesPlain | src/scrapers/website_scraper.py:113 | text holding no `<`, `{` or `:` has no brace block and comes back unchanged |
| Cleaning.RemoveDeclarationsPlain | src/scrapers/website_scraper.py:114 | text holding no `<`, `{` or `:` has no declaration and comes back unchanged |
| Cleaning.CollapseSingle | src/scrapers/website_scraper.py:117-118 | single-spaced text is unchanged by either collapse |
| Cleaning.CleanProse | src/scrapers/website_scraper.py:100-125 | plain, trimmed, single-spaced prose that does not open with a script keyword is a fixed point of `_clean_text` |
| StaticExtraction.TitleSpec | src/scrapers/website_scraper.py:90-93 | with no `title` element the result is `''`; otherwise it is the slice of the first title's text left after cutting off the whitespace at both ends (all outside characters are whitespace, the slice has no edge whitespace), and it is its own strip |
| StaticExtraction.TitleText | src/scrapers/website_scraper.py:92-93 | a present title is the first title's text with the whitespace at both ends cut off |
| StaticExtraction.DescriptionMetas | src/scrapers/website_scraper.py:97 | only `meta` elements named `description` are considered |
| StaticExtraction.MetaDescriptionSpec | src/scrapers/website_scraper.py:95-98 | with no description `meta` the result is `''`; otherwise it is the slice of the first one's `content` (`''` when absent) left after cutting off the whitespace at both ends, and it is its own strip |
| StaticExtraction.MetaDescriptionText | src/scrapers/website_scraper.py:97-98 | a present description is the first description `meta`'s `content` with the whitespace at both ends cut off |
| StaticExtraction.KeywordElements | src/scrapers/website_scraper.py:137-140 | every element selected matches the keyword in its id or a class, and has more than 50 characters of stripped text |
| StaticExtraction.FragmentsFrom | src/scrapers/website_scraper.py:142-149 | every attribute-matched fragment is the cleaned text of one of the elements. That element is not dense: no more than 10 `{`, `}`, `;` in its markup. The fragment is longer than 50 characters |
| StaticExtraction.KeywordElementFragments | src/scrapers/website_scraper.py:142-149 | the loop over the elements equals the fragment specification |
| StaticExtraction.UntilHeadingSpec | src/scrapers/website_scraper.py:173-175 | the siblings walked are the longest prefix without an `h1`–`h3`; the walk stops exactly at the first heading |
| StaticExtraction.ContentAfterHeading | src/scrapers/website_scraper.py:170-187 | the while-loop yields the joined content after the heading, or None when nothing was collected |
| StaticExtraction.FragmentsUntilHeading | src/scrapers/website_scraper.py:172-185 | the loop body, over the walked siblings, equals the sibling-fragment specification |
| StaticExtraction.SiblingFragmentsFrom | src/scrapers/website_scraper.py:176-184 | every fragment after a heading comes from a `p`, `div` or `section` outside any `nav`. That element is not dense. Its cleaned text is longer than 30 and does not start with `var`, `function` or `class` |
| StaticExtraction.CollectHeadingFragments | src/scrapers/website_scraper.py:152-156 | the heading loop adds the content after each heading whose text holds a keyword |
| StaticExtraction.CollectSectionContent | src/scrapers/website_scraper.py:132-156 | a section's content is its attribute-matched fragments, keyword by keyword, followed by its heading content |
| StaticExtraction.CollectKeywordFragments | src/scrapers/website_scraper.py:135-149 | the keyword loop concatenates each keyword's fragments in keyword order |
| StaticExtraction.UniqueSpec | src/scrapers/website_scraper.py:159-165 | the de-duplicated list has no repeats. A fragment is in it exactly when it occurs in the content and does not start with `var`, `function` or `class` |
| StaticExtraction.UniqueOrder | src/scrapers/website_scraper.py:159-165 | the kept fragments are a subsequence of the content in first-seen order: each sits at its first occurrence, at increasing places |
| StaticExtraction.UniqueContent | src/scrapers/website_scraper.py:160-165 | the `seen`-set loop keeps first occurrences in order |
| StaticExtraction.Contents | src/scrapers/website_scraper.py:131-156 | gives one content list per section kind |
| StaticExtraction.ExtractSections | src/scrapers/website_scraper.py:127-168 | the nested loops give the sections dictionary of the specification |
| StaticExtraction.KindsDistinct | src/scrapers/website_scraper.py:23-29 | the section kinds are distinct |
| StaticExtraction.AssembleAbsent | src/scrapers/website_scraper.py:158-166 | a kind not yet processed has no entry |
| StaticExtraction.AssembleSpec | src/scrapers/website_scraper.py:158-166 | a kind has an entry exactly when its content is non-empty, and the value is the blank-joined de-duplicated content |
| StaticExtraction.AssembleDistinct | src/scrapers/website_scraper.py:158-166 | the dictionary holds each kind at most once |
| StaticExtraction.SectionsDistinct | src/scrapers/website_scraper.py:127-168 | the sections dictionary of a page holds each kind at most once |
| StaticExtraction.SectionsSpec | src/scrapers/website_scraper.py:127-168 | a section is present exactly when its collected content is non-empty, and its value is the de-duplicated content joined by blanks |
| StaticExtraction.Stats | src/scrapers/website_scraper.py:460-467 | every statistic is non-empty, holds a digit and does not start with `var`, `function`, `class` |
| StaticExtraction.ExtractStats | src/scrapers/website_scraper.py:452-469 | the loop yields the statistic list of the specification |
| StaticExtraction.Props | src/scrapers/website_scraper.py:487-491 | every value proposition is longer than 10 characters and does not start with a code prefix |
| StaticExtraction.ValueProps | src/scrapers/website_scraper.py:481-491 | the same holds over all non-dense candidate elements |
| StaticExtraction.PropsIn | src/scrapers/website_scraper.py:487-491 | the inner loop yields the proposition list of one element |
| StaticExtraction.AddProps | src/scrapers/website_scraper.py:481-491 | a dense element adds nothing; otherwise its propositions are appended |
| StaticExtraction.ExtractValueProps | src/scrapers/website_scraper.py:471-493 | the nested loops yield the value-proposition list of the specification |
| StaticExtraction.PageImage | src/scrapers/website_scraper.py:499-502 | a kept image has a non-empty `src` that does not start with `data:` |
| StaticExtraction.PageImages | src/scrapers/website_scraper.py:498-502 | at most one image per `img`, each with a non-empty, non-`data:` `src` |
| StaticExtraction.ExtractImages | src/scrapers/website_scraper.py:495-503 | the loop yields the image list of every `img` |
| StaticExtraction.PageLink | src/scrapers/website_scraper.py:509-512 | a kept link has a non-empty `href` and non-empty text, and the `href` does not start with `#`, `javascript:`, `mailto:` or `tel:` |
| StaticExtraction.PageLinks | src/scrapers/website_scraper.py:508-512 | at most one link per anchor |
| StaticExtraction.PageLinksValid | src/scrapers/website_scraper.py:508-512 | every link on the list satisfies the three link conditions |
| StaticExtraction.ExtractLinks | src/scrapers/website_scraper.py:505-513 | the loop yields the link list of every `a` |
| Testimonials.CandidatesStep | src/scrapers/website_scraper.py:541-545 | the candidates of the first k+1 patterns are those of the first k, followed by the class matches, id matches, `blockquote`s and `q`s of pattern k |
| Testimonials.SplitAtIndicatorNone | src/scrapers/website_scraper.py:590-597 | when no position word occurs, author and company are left as they were |
| Testimonials.SplitAtIndicatorFirst | src/scrapers/website_scraper.py:590-597 | the first position word that occurs decides the split, and the author then ends with that word |
| Testimonials.SplitAtIndicatorValue | src/scrapers/website_scraper.py:590-596 | when the k-th position word is the first the author contains, the loop's result is the split at that word |
| Testimonials.IndicatorSplitPieces | src/scrapers/website_scraper.py:592-595 | the split at a word the author contains gives the stripped text before its first occurrence plus a blank and the word, and the text after its last occurrence with ` `, `o`, `f` trimmed, then stripped |
| Testimonials.AttributeCommaPieces | src/scrapers/website_scraper.py:576-580 | with a comma, the split has more than one piece and the result is `CommaSplit`, the stripped first and last pieces of the comma split |
| Testimonials.AttributeAtPieces | src/scrapers/website_scraper.py:581-585 | with no comma but an `at`, the split has more than one piece and the result is `AtSplit`, the stripped first and second pieces of the `at` split |
| Testimonials.AttributeAtIndicator | src/scrapers/website_scraper.py:586-596 | with neither a comma nor `at`, the first position word the author contains decides the split |
| Testimonials.AttributeFallsThrough | src/scrapers/website_scraper.py:576-590 | with neither a comma nor `at`, the result is that of the position-word loop |
| Testimonials.AttributeComma | src/scrapers/website_scraper.py:577-580 | with a comma in the author and no company, the author becomes the stripped text before the first comma and the company the stripped text after the last comma |
| Testimonials.AttributeAt | src/scrapers/website_scraper.py:581-585 | with no comma but an `at`, the author becomes the stripped text before the first `at` and the company the stripped text from there up to the next `at` or the end |
| Testimonials.AtSplitSlices | src/scrapers/website_scraper.py:581-585 | when the author holds `at`, the first two pieces of its split are the text before the first `at` and the text from there up to the next `at` or the end, and `AtSplit` strips those two slices |
| Testimonials.AttributeIndicator | src/scrapers/website_scraper.py:586-597 | with no comma and no `at`, the first position word that occurs splits the author: the text before its first occurrence plus the word, and the company from after its last occurrence, stripped of ` `, `o`, `f` and blanks |
| Testimonials.AttributeSpec | src/scrapers/website_scraper.py:577-597 | an empty author or a non-empty company is left alone. With a comma, neither part holds a comma. Otherwise, with `at`, the author part holds no `at`. With no comma, no `at` and no position word, the pair is unchanged |
| Testimonials.StripNoSep | src/scrapers/website_scraper.py:580-587 | stripping cannot bring a separator into a part |
| Testimonials.KeepWords | src/scrapers/website_scraper.py:602-604 | every word kept comes from the company, and none is a position word |
| Testimonials.CleanCompanySpec | src/scrapers/website_scraper.py:600-605 | the cleaned company's words are exactly the company's words without the position words, in order |
| Testimonials.JoinWordsStripped | src/scrapers/website_scraper.py:604-605 | the final `strip()` changes nothing |
| Testimonials.JoinWordsEdges | src/scrapers/website_scraper.py:604-605 | a non-empty join of words has no edge whitespace |
| Testimonials.QuoteOf | src/scrapers/website_scraper.py:549-555 | a candidate that passes yields a quote of at least 30 characters |
| Testimonials.CollectAppend | src/scrapers/website_scraper.py:541-547 | processing two lists of sections in turn equals processing their concatenation, so `seen_quotes` carries across patterns |
| Testimonials.StepSpec | src/scrapers/website_scraper.py:547-611 | one section either adds nothing or appends its quote, whose key was unseen; after the step the key is seen, and the seen set only grows |
| Testimonials.CollectSpec | src/scrapers/website_scraper.py:547-611 | the output has pairwise distinct `lower().strip()` keys and every quote is at least 30 long |
| Testimonials.CollectComplete | src/scrapers/website_scraper.py:553-561 | every section that yields a quote has its key in the seen set at the end |
| Testimonials.CollectSound | src/scrapers/website_scraper.py:547-611 | the entries already held are kept as a prefix. Each new entry is the quote of some section, the first section whose quote has that key, and that key was not held before. New entries keep the order of their sections |
| Testimonials.ExtractedQuotesSpec | src/scrapers/website_scraper.py:529-613 | over all seven patterns, the quotes have distinct keys and length at least 30. The key of every qualifying candidate is seen. Each quote comes from the first candidate with its key, in candidate order |
| Testimonials.SeenSnoc | src/scrapers/website_scraper.py:561 | appending a quote adds exactly its key to the seen set |
| Testimonials.AddQuotes | src/scrapers/website_scraper.py:547-611 | the section loop, with `seen` kept equal to the keys so far, yields the specification |
| Testimonials.AddPattern | src/scrapers/website_scraper.py:541-611 | one pass of the pattern loop extends the result from k to k+1 patterns |
| Testimonials.ExtractTestimonials | src/scrapers/website_scraper.py:529-613 | the nested loops yield the quote list of the specification |
| TestimonialSources.StoryOf | src/scrapers/website_scraper.py:263-282 | a case-study entry's text is the element's cleaned text, longer than 30 characters; it has no source and no platform |
| TestimonialSources.Stories | src/scrapers/website_scraper.py:260-282 | at most one entry per candidate element |
| TestimonialSources.StoriesValid | src/scrapers/website_scraper.py:260-282 | every entry is longer than 30 characters, has no source or platform, and is the cleaned text of some candidate |
| TestimonialSources.StoriesComplete | src/scrapers/website_scraper.py:263-264 | every candidate whose cleaned text is longer than 30 characters yields an entry |
| TestimonialSources.CaseStudiesOffline | src/scrapers/website_scraper.py:250-285 | when none of the five paths loads, there are no case-study testimonials |
| TestimonialSources.PageStories | src/scrapers/website_scraper.py:260-282 | the element loop of one page yields its entries |
| TestimonialSources.GetCaseStudyTestimonials | src/scrapers/website_scraper.py:245-290 | the path loop yields the entries of each page that loads, page after page |
| TestimonialSources.Attribution | src/scrapers/website_scraper.py:366-377 | no label gives Anonymous / Unknown. Otherwise the label is split at its first ` at `, else at its first ` from `, joining back to the label; with neither, the company is Unknown |
| TestimonialSources.PlatformFromSpec | src/scrapers/website_scraper.py:393-397 | the platform is the first table entry whose pattern matches, and it is `unknown` exactly when none matches |
| TestimonialSources.PlatformOfVideo | src/scrapers/website_scraper.py:324-327 | a known platform is found exactly for the URLs that pass the video test |
| TestimonialSources.Truthy | src/scrapers/website_scraper.py:380-386 | only non-empty title and description parts are joined |
| TestimonialSources.VideoEntry | src/scrapers/website_scraper.py:340-398 | a video entry is longer than 30 characters, has source `video` and a platform |
| TestimonialSources.ReviewEntry | src/scrapers/website_scraper.py:417-444 | a widget entry is longer than 30 characters, has source `review_widget` and no platform |
| TestimonialSources.Reviews | src/scrapers/website_scraper.py:417-444 | at most one entry per review element |
| TestimonialSources.ReviewsValid | src/scrapers/website_scraper.py:417-444 | every widget entry is longer than 30 characters with source `review_widget` and no platform |
| TestimonialSources.EmbeddedValid | src/scrapers/website_scraper.py:306-444 | every embedded entry is longer than 30 characters. A video entry has a platform other than `unknown`. Every other entry is a widget entry without a platform |
| TestimonialSources.WidgetTestimonials | src/scrapers/website_scraper.py:417-444 | the review loop yields the widget entries |
| TestimonialSources.GetEmbeddedTestimonials | src/scrapers/website_scraper.py:292-450 | the element loop yields the embedded entries |
| WebsiteScraper.MergedSpec | src/scrapers/website_scraper.py:67-80 | the merged list starts with the browser's testimonials in order, and every later one is longer than 30 characters |
| WebsiteScraper.ScrapeSpec | src/scrapers/website_scraper.py:38-88 | with the save step outside the model, the result is None exactly when the page does not load. Otherwise the data carries the URL, the browser's testimonials first, only longer ones after them, and distinct section names |
| WebsiteScraper.CaseStudiesValid | src/scrapers/website_scraper.py:250-282 | every case-study testimonial over the paths is longer than 30 characters and has no source |
| WebsiteScraper.SoupHasNoScripts | src/scrapers/website_scraper.py:49-51 | after the decomposition no `script` or `style` element is left anywhere in the page |
| WebsiteScraper.MergeTestimonials | src/scrapers/website_scraper.py:67-80 | the three guarded `extend`s yield dynamic + case study + embedded |
| WebsiteScraper.ScrapeWebsite | src/scrapers/website_scraper.py:38-88 | the method yields the scrape specification |
| TestimonialAnalyzer.ProductTable | src/analyzers/testimonial_analyzer.py:15-21 | the product table has distinct categories |
| TestimonialAnalyzer.BenefitTable | src/analyzers/testimonial_analyzer.py:23-30 | the benefit table has distinct categories, and every keyword is non-empty with no edge whitespace |
| TestimonialAnalyzer.PainPointTable | src/analyzers/testimonial_analyzer.py:32-38 | the same holds for the pain-point table |
| TestimonialAnalyzer.ThemeTableShape | src/analyzers/testimonial_analyzer.py:135-139 | each theme is a category whose only keyword is itself, and the themes are distinct |
| TestimonialAnalyzer.HitCount | src/analyzers/testimonial_analyzer.py:64-68 | a category is hit by at most as many testimonials as there are |
| TestimonialAnalyzer.CountHitsGet | src/analyzers/testimonial_analyzer.py:66-68 | one testimonial adds exactly 1 to each category it hits and 0 to the others |
| TestimonialAnalyzer.TableCountsGet | src/analyzers/testimonial_analyzer.py:62-70 | a category's count is the number of testimonials that hit it, and it is present exactly when that number is positive |
| TestimonialAnalyzer.TableCountsDistinct | src/analyzers/testimonial_analyzer.py:62-70 | each category appears at most once |
| TestimonialAnalyzer.HitCountWitness | src/analyzers/testimonial_analyzer.py:64-68 | a positive count has a testimonial that hits the category |
| TestimonialAnalyzer.CountsBounded | src/analyzers/testimonial_analyzer.py:62-70 | every count lies between 1 and the number of testimonials, belongs to a category of the table, and is witnessed by a hit |
| TestimonialAnalyzer.AnalyzeProductMentions | src/analyzers/testimonial_analyzer.py:60-70 | the nested loops yield the per-product counts of the specification |
| TestimonialAnalyzer.ProductMentionsCount | src/analyzers/testimonial_analyzer.py:64-70 | each product counts each testimonial at most once: its count is the number of testimonials mentioning it, and it is present exactly then |
| TestimonialAnalyzer.ProductMentionsBounded | src/analyzers/testimonial_analyzer.py:64-70 | every product count is between 1 and the number of testimonials, and names a product of the table |
| TestimonialAnalyzer.RecordEvidence | src/analyzers/testimonial_analyzer.py:85 | appending a sentence that holds a keyword of its category keeps every recorded sentence backed by a keyword |
| TestimonialAnalyzer.AddSentencesEvidence | src/analyzers/testimonial_analyzer.py:82-85 | the sentences a keyword adds are stripped pieces, free of delimiters, that contain the keyword |
| TestimonialAnalyzer.StrippedEvidence | src/analyzers/testimonial_analyzer.py:84-85 | stripping a delimiter-free sentence keeps the trimmed keyword inside it |
| TestimonialAnalyzer.AddKeywordsEvidence | src/analyzers/testimonial_analyzer.py:79-85 | the keyword loop keeps the evidence invariant |
| TestimonialAnalyzer.AddTableEvidence | src/analyzers/testimonial_analyzer.py:78-85 | the category loop keeps the evidence invariant |
| TestimonialAnalyzer.KeywordSentencesEvidence | src/analyzers/testimonial_analyzer.py:76-87 | every sentence recorded under a category contains one of that category's keywords and no `.`, `!`, `?`, with no edge whitespace |
| TestimonialAnalyzer.AddMatchingSentences | src/analyzers/testimonial_analyzer.py:83-85 | the sentence loop appends exactly the matching stripped sentences |
| TestimonialAnalyzer.CollectSentences | src/analyzers/testimonial_analyzer.py:76-85 | the three nested loops yield the sentence dictionary of the specification |
| TestimonialAnalyzer.AnalyzeBenefits | src/analyzers/testimonial_analyzer.py:72-87 | gives the benefit sentences, each backed by a keyword of its benefit type |
| TestimonialAnalyzer.AnalyzePainPoints | src/analyzers/testimonial_analyzer.py:89-104 | gives the pain-point sentences, each backed by a keyword of its pain type |
| TestimonialAnalyzer.InsertByCountPermutes | src/analyzers/testimonial_analyzer.py:148 | inserting an item adds exactly that item to the multiset of entries |
| TestimonialAnalyzer.SortByCountPermutes | src/analyzers/testimonial_analyzer.py:148 | sorting permutes the theme counts |
| TestimonialAnalyzer.InsertByCountDistinct | src/analyzers/testimonial_analyzer.py:148 | inserting an item with a new key keeps the keys distinct |
| TestimonialAnalyzer.SortByCountDistinct | src/analyzers/testimonial_analyzer.py:148 | sorting keeps the keys distinct |
| TestimonialAnalyzer.KeyThemesDistinct | src/analyzers/testimonial_analyzer.py:130-149 | the key themes name each theme at most once |
| TestimonialAnalyzer.AnalysisThemesDistinct | src/analyzers/testimonial_analyzer.py:40-51 | an analysis lists each key theme at most once |
| TestimonialAnalyzer.InsertSorted | src/analyzers/testimonial_analyzer.py:148 | insertion keeps the list in non-increasing count order |
| TestimonialAnalyzer.InsertStable | src/analyzers/testimonial_analyzer.py:148 | insertion keeps the entries of equal count in their original order |
| TestimonialAnalyzer.SortByCountSorted | src/analyzers/testimonial_analyzer.py:148 | the sort is by non-increasing count and stable: for every count, the entries with that count keep their order |
| TestimonialAnalyzer.Take | src/analyzers/testimonial_analyzer.py:149 | `[:5]` is the prefix of length min(5, n) |
| TestimonialAnalyzer.ExtractKeyThemes | src/analyzers/testimonial_analyzer.py:130-149 | the counting loop and the sort yield the names of the top themes |
| TestimonialAnalyzer.KeyThemesProperties | src/analyzers/testimonial_analyzer.py:141-149 | at most five themes, in non-increasing order of hits. Each is a theme keyword with its true hit count, and occurs in some testimonial |
| TestimonialAnalyzer.TopThemeFound | src/analyzers/testimonial_analyzer.py:141-149 | each chosen theme is a theme keyword with its true count, contained in some testimonial's text |
| TestimonialAnalyzer.KeyThemesCutoff | src/analyzers/testimonial_analyzer.py:148-149 | no theme left out has more hits than a chosen one |
| TestimonialAnalyzer.ThemeHit | src/analyzers/testimonial_analyzer.py:143-145 | a theme is hit only by text that contains it |
| TestimonialAnalyzer.KeyThemesStable | src/analyzers/testimonial_analyzer.py:148 | ties keep their first-counted order |
| TestimonialAnalyzer.SegmentOf | src/analyzers/testimonial_analyzer.py:156-166 | every testimonial is put in one of the four segments |
| TestimonialAnalyzer.SegmentRules | src/analyzers/testimonial_analyzer.py:156-166 | the first rule that matches wins, in the order enterprise, small_business, agency; each case is stated as an if-and-only-if |
| TestimonialAnalyzer.MissingCompanyIsOther | src/analyzers/testimonial_analyzer.py:156 | a testimonial without a company goes to `other` |
| TestimonialAnalyzer.AnalyzeCustomerSegments | src/analyzers/testimonial_analyzer.py:151-168 | the loop yields the segment dictionary of the specification |
| TestimonialAnalyzer.SegmentsGet | src/analyzers/testimonial_analyzer.py:155-168 | a segment's list is exactly its members in input order, and the segment is present exactly when it has members |
| TestimonialAnalyzer.SegmentSizes | src/analyzers/testimonial_analyzer.py:155-168 | the four segment sizes add up to the number of testimonials; no other segment has members |
| TestimonialAnalyzer.AnalyzeWebsite | src/analyzers/comparative_analyzer.py:87-99 | gives the analysis of one site's data |
| TestimonialAnalyzer.AnalysisWellFormed | src/analyzers/testimonial_analyzer.py:42-52 | the product and segment dictionaries have distinct keys; with no `testimonials` key the total is 0 |
| TestimonialAnalyzer.SegmentsDistinct | src/analyzers/testimonial_analyzer.py:151-168 | each segment appears at most once |
| TestimonialAnalyzer.AnalyzeTestimonials | src/analyzers/testimonial_analyzer.py:40-58 | fails with `KeyError: 'url'` exactly when the data has no url; otherwise it gives the analysis, whose total is the length of the testimonial list (0 when absent) |
| ComparativeAnalyzer.MinTotal | src/analyzers/comparative_analyzer.py:105 | the minimum total is at most every site's total, and is attained by some site |
| ComparativeAnalyzer.MaxTotal | src/analyzers/comparative_analyzer.py:106 | the maximum total is at least every site's total, and is attained by some site |
| ComparativeAnalyzer.MinAtMostMax | src/analyzers/comparative_analyzer.py:105-106 | min ≤ max |
| ComparativeAnalyzer.AddEntriesGet | src/analyzers/comparative_analyzer.py:125-129 | one site adds exactly its own entry to each key it has |
| ComparativeAnalyzer.TallyGet | src/analyzers/comparative_analyzer.py:121-131 | a key's list is the entries of the sites that have the key, in site order, and the key is present exactly when that list is non-empty |
| ComparativeAnalyzer.Sizes | src/analyzers/comparative_analyzer.py:139-142 | each segment is paired with the length of its testimonial list |
| ComparativeAnalyzer.SizesGet | src/analyzers/comparative_analyzer.py:139-142 | a segment's size is the length of its list; distinct keys stay distinct |
| ComparativeAnalyzer.ProductRows | src/analyzers/comparative_analyzer.py:123-125 | gives one row per site, carrying its url and product counts |
| ComparativeAnalyzer.ProductRowsEntries | src/analyzers/comparative_analyzer.py:121-129 | the entries gathered from the product rows for a product are its entries per site, in site order |
| ComparativeAnalyzer.SegmentRowsEntries | src/analyzers/comparative_analyzer.py:135-143 | the entries gathered from the segment rows for a segment are its entries per site, in site order |
| ComparativeAnalyzer.SegmentRows | src/analyzers/comparative_analyzer.py:137-139 | gives one row per site, carrying its url and segment sizes |
| ComparativeAnalyzer.CompareProductMentions | src/analyzers/comparative_analyzer.py:119-131 | the nested loops yield the product tally |
| ComparativeAnalyzer.CompareCustomerSegments | src/analyzers/comparative_analyzer.py:133-145 | the nested loops yield the segment tally |
| ComparativeAnalyzer.ProductComparisonGet | src/analyzers/comparative_analyzer.py:121-131 | each product maps to one entry per site mentioning it, in site order, carrying that site's count |
| ComparativeAnalyzer.SegmentComparisonGet | src/analyzers/comparative_analyzer.py:135-145 | each segment maps to one entry per site having it, in site order, whose count is that site's list length |
| ComparativeAnalyzer.Occurrences | src/analyzers/comparative_analyzer.py:152-153 | a theme occurs at most as often as the list is long |
| ComparativeAnalyzer.SitesListing | src/analyzers/comparative_analyzer.py:151-153 | at most one count per site |
| ComparativeAnalyzer.CountThemesGet | src/analyzers/comparative_analyzer.py:152-153 | one site adds its number of occurrences of each theme |
| ComparativeAnalyzer.ThemeCountsGet | src/analyzers/comparative_analyzer.py:149-153 | a theme's count is its total number of occurrences over all sites, present exactly when positive |
| ComparativeAnalyzer.ThemeCountsDistinct | src/analyzers/comparative_analyzer.py:149-153 | each theme appears at most once |
| ComparativeAnalyzer.AtLeastHalfMembers | src/analyzers/comparative_analyzer.py:156-157 | a theme is kept exactly when its count c satisfies 2c ≥ n, and each is kept once |
| ComparativeAnalyzer.AtLeastHalfMember | src/analyzers/comparative_analyzer.py:156-157 | a theme passes the filter exactly when its count c satisfies 2c ≥ n |
| ComparativeAnalyzer.AtLeastHalfShape | src/analyzers/comparative_analyzer.py:156-157 | the filtered themes have no repeats and are keys of the counts |
| ComparativeAnalyzer.CommonThemesMembers | src/analyzers/comparative_analyzer.py:147-157 | the common themes are exactly those occurring in the key themes with 2·occurrences ≥ number of sites; there are no repeats |
| ComparativeAnalyzer.OccurrencesDistinct | src/analyzers/comparative_analyzer.py:152-153 | in a list without repeats a theme occurs once or not at all |
| ComparativeAnalyzer.OccurrencesAreSites | src/analyzers/comparative_analyzer.py:149-157 | since each site's key themes are distinct, a theme's count is the number of sites listing it |
| ComparativeAnalyzer.FindCommonThemes | src/analyzers/comparative_analyzer.py:147-157 | the counting loop and the filter yield the common themes |
| ComparativeAnalyzer.AppendAllGet | src/analyzers/comparative_analyzer.py:161-179 | appending lines under one url leaves every other url's list as it was |
| ComparativeAnalyzer.AppendAllConcat | src/analyzers/comparative_analyzer.py:166-179 | appending two batches in turn equals appending their concatenation |
| ComparativeAnalyzer.InsightsGet | src/analyzers/comparative_analyzer.py:159-181 | a url's insights are the lines its sites contribute, in order, and the url is present exactly when there is one |
| ComparativeAnalyzer.NonEmptyLinesMembers | src/analyzers/comparative_analyzer.py:167-174 | a line is added exactly for each benefit or pain type with a non-empty list |
| ComparativeAnalyzer.PositiveLinesMembers | src/analyzers/comparative_analyzer.py:177-179 | a line is added exactly for each product with a positive count |
| ComparativeAnalyzer.AddNonEmptyLines | src/analyzers/comparative_analyzer.py:167-174 | the loop appends that specification |
| ComparativeAnalyzer.AddPositiveLines | src/analyzers/comparative_analyzer.py:177-179 | the loop appends that specification |
| ComparativeAnalyzer.FindUniqueInsights | src/analyzers/comparative_analyzer.py:159-181 | per url, the benefit lines come first, then the pain-point lines, then the product lines |
| ComparativeAnalyzer.LoadedSites | src/analyzers/comparative_analyzer.py:45-50 | at most one site per url |
| ComparativeAnalyzer.LoadedSitesEmpty | src/analyzers/comparative_analyzer.py:45-53 | no site is loaded exactly when every load returned nothing |
| ComparativeAnalyzer.LoadedSitesWellFormed | src/analyzers/comparative_analyzer.py:45-50 | every loaded analysis has distinct product and segment keys |
| ComparativeAnalyzer.LoadedKeyThemesDistinct | src/analyzers/comparative_analyzer.py:45-50 | every loaded analysis lists each key theme at most once |
| ComparativeAnalyzer.CommonThemesOfLoaded | src/analyzers/comparative_analyzer.py:147-157 | over the loaded sites, a theme is common exactly when some site lists it and at least half of the sites do |
| ComparativeAnalyzer.CompareWebsites | src/analyzers/comparative_analyzer.py:40-67 | fails with `No valid data found for comparison` exactly when nothing loads; otherwise it gives the comparison of the loaded sites |
| CompetitiveAnalyzer.KeySetGet | src/analyzers/competitive_analyzer.py:143 | `set(d.keys())` holds exactly the keys of the dictionary |
| CompetitiveAnalyzer.CompetitorKeysMembers | src/analyzers/competitive_analyzer.py:144-146 | the union over competitors holds exactly the keys some competitor has |
| CompetitiveAnalyzer.CollectCompetitorKeys | src/analyzers/competitive_analyzer.py:144-146 | the `update` loop yields that union |
| CompetitiveAnalyzer.Split | src/analyzers/competitive_analyzer.py:148-152 | the three parts are pairwise disjoint, and their union is the target's keys plus the competitors' keys |
| CompetitiveAnalyzer.CompareFocus | src/analyzers/competitive_analyzer.py:141-178 | a key is unique to the target, unique to the competitors or common, each as an if-and-only-if |
| CompetitiveAnalyzer.AnalyzeMarketPositioning | src/analyzers/competitive_analyzer.py:131-139 | gives the positioning of the three facets |
| CompetitiveAnalyzer.PositioningParts | src/analyzers/competitive_analyzer.py:131-178 | products, benefits and segments each get the three-way split of their keys |
| CompetitiveAnalyzer.TargetOnlyMembers | src/analyzers/competitive_analyzer.py:196 | a key is target-only exactly when the target has it and no competitor does |
| CompetitiveAnalyzer.CompetitorsOnlyMembers | src/analyzers/competitive_analyzer.py:222 | a key is competitor-only exactly when some competitor has it and the target does not |
| CompetitiveAnalyzer.FindCompetitiveAdvantages | src/analyzers/competitive_analyzer.py:180-210 | the method yields the advantage list of the specification |
| CompetitiveAnalyzer.AdvantagesSpec | src/analyzers/competitive_analyzer.py:180-210 | the lines come in source order. Higher satisfaction is listed exactly when the sentiment comparison holds. A unique-benefits line appears exactly when the target has a benefit no competitor has, and lists exactly those; likewise for segments |
| CompetitiveAnalyzer.AdvantageLines | src/analyzers/competitive_analyzer.py:187-208 | each guarded `append` adds its line exactly when its guard holds |
| CompetitiveAnalyzer.IdentifyMarketGaps | src/analyzers/competitive_analyzer.py:212-236 | the method yields the gap list of the specification |
| CompetitiveAnalyzer.GapsSpec | src/analyzers/competitive_analyzer.py:212-236 | at most two lines, pain points before segments. Each appears exactly when its competitor-only set is non-empty, and lists exactly that set |
| CompetitiveAnalyzer.AnalyzeSegmentOverlapAsWritten | src/analyzers/competitive_analyzer.py:238-252 | the loop as written stops with `KeyError: 'url'` at the first shared segment |
| CompetitiveAnalyzer.OverlapAsWrittenNeverReports | src/analyzers/competitive_analyzer.py:238-252 | as written, the overlap is never reported: it fails exactly when target and a competitor share a segment, and is empty otherwise |
| CompetitiveAnalyzer.OverlapKeyError | src/analyzers/competitive_analyzer.py:247 | a target and a competitor that share the `enterprise` segment make it raise |
| CompetitiveAnalyzer.Analyses | src/analyzers/competitive_analyzer.py:75 | gives the competitors' analyses in order |
| CompetitiveAnalyzer.OverlapEntriesSpec | src/analyzers/competitive_analyzer.py:243-250 | a segment's entries come one per competitor sharing it, each carrying that competitor's url and both list lengths; the list is non-empty exactly when someone shares the segment |
| CompetitiveAnalyzer.OverlapSpec | src/analyzers/competitive_analyzer.py:238-252 | a segment is in the overlap exactly when the target and some competitor both have it, and its value is the list of entries |
| CompetitiveAnalyzer.OverlapSnoc | src/analyzers/competitive_analyzer.py:243-250 | another competitor extends the overlap by its shared segments |
| CompetitiveAnalyzer.ExtendNothing | src/analyzers/competitive_analyzer.py:245 | a competitor sharing nothing changes nothing |
| CompetitiveAnalyzer.ExtendStep | src/analyzers/competitive_analyzer.py:245-250 | one shared segment appends one entry |
| CompetitiveAnalyzer.ExtendStepAt | src/analyzers/competitive_analyzer.py:245-250 | the same, key by key |
| CompetitiveAnalyzer.AddCompetitorOverlap | src/analyzers/competitive_analyzer.py:245-250 | the loop over the shared segments yields the extension |
| CompetitiveAnalyzer.AnalyzeSegmentOverlap | src/analyzers/competitive_analyzer.py:238-252 | the corrected loop yields the overlap of the specification |
| CompetitiveAnalyzer.GenerateCompetitiveInsights | src/analyzers/competitive_analyzer.py:117-129 | gives the four insight parts |
| CompetitiveAnalyzer.AnalyzeCompetitor | src/analyzers/competitive_analyzer.py:40-83 | a missing target fails with its message. Otherwise it fails with `No valid competitor data found` exactly when no competitor loads. Otherwise the result holds the target, the loaded competitors in order, and their insights with the corrected overlap |
| CompetitiveAnalyzer.AnalyzeCompetitorKeyError | src/analyzers/competitive_analyzer.py:74-76 | with the target and the competitors loaded, the as-written overlap raises `KeyError: 'url'` exactly when the target shares a segment with a loaded competitor; otherwise the corrected overlap is empty as well |
| Processor.DefaultsByField | icp_analyzer/src/processor.py:30-36 | the defaults are `''` for industry focus, key decision makers and geographic focus, and `Unknown` for the other four |
| Processor.ToDict | icp_analyzer/src/processor.py:38-40 | the dictionary has exactly the seven field names, in declaration order |
| Processor.FieldNamesDistinct | icp_analyzer/src/processor.py:30-36 | the field names are distinct |
| Processor.ToDictRoundTrip | icp_analyzer/src/processor.py:38-40 | the dictionary has distinct keys and rebuilds the same attributes |
| Processor.NonEmpty | icp_analyzer/src/processor.py:124 | `filter(None, …)` keeps only non-empty sections |
| Processor.NonEmptyKeeps | icp_analyzer/src/processor.py:124 | a section is kept exactly when it is non-empty |
| Processor.NonEmptyConcat | icp_analyzer/src/processor.py:124 | filtering keeps the order: the non-empty strings of a concatenation are those of the first part followed by those of the second |
| Processor.CombineContentSpec | icp_analyzer/src/processor.py:111-124 | the text is empty exactly when every section is. The sections kept are the non-empty ones, and the text starts with the first of them |
| Processor.CombineTitleOnly | icp_analyzer/src/processor.py:111-124 | a page with only a title gives that title |
| Processor.LabelledMembers | icp_analyzer/src/processor.py:135-141 | the entities collected for a label are exactly those with that label |
| Processor.Dedup | icp_analyzer/src/processor.py:143 | `list(set(v))` has no repeats and the same members |
| Processor.ExtractEntities | icp_analyzer/src/processor.py:126-143 | organizations, locations and products are exactly the ORG, GPE and PRODUCT texts, without repeats; job titles is always empty |
| Processor.FieldSlice | icp_analyzer/src/processor.py:186-191 | answer k is the stripped slice that starts right after the first `k.` and holds neither `k.` nor `(k+1).`; the slice ends at the end of the reply or right before one of them |
| Processor.BuyingCycleSlice | icp_analyzer/src/processor.py:192 | the buying cycle is the stripped slice after the first `7.`, up to the next `7.` or the end |
| Processor.UnnumberedReply | icp_analyzer/src/processor.py:185-193 | a reply without markers leaves every attribute at its default |
| Config.LStripSlashes | src/core/config.py:37 | `lstrip('/')` drops exactly the leading slashes |
| Config.Load | src/core/config.py:19-112 | FLASK_DEBUG holds iff FLASK_ENV is `development`. The broker is REDIS_URL when it is truthy, else `get_redis_url()`. The result backend and the rate-limit storage equal the broker |
| Config.MissingVarsSpec | src/core/config.py:127-141 | a required name is reported exactly when its value is empty, and `validate` holds exactly when none is empty |
| Config.LoadFields | src/core/config.py:22-60 | FLASK_ENV, SECRET_KEY, JWT_SECRET_KEY (falling back to SECRET_KEY), REDIS_URL and MONGODB_URI are read with their defaults; MONGODB_DB follows the URI path or its default |
| Config.FlaskDebugEnv | src/core/config.py:22-23 | debug is on exactly when FLASK_ENV is unset or `development` |
| Config.BrokerEnv | src/core/config.py:63 | the broker is REDIS_URL when it is set and non-empty, else the assembled Redis URL |
| Config.ValidateEnv | src/core/config.py:127-141 | `validate` fails exactly when SECRET_KEY or JWT_SECRET_KEY is set to empty, or when MONGODB_DB is set to empty without a MONGODB_URI |
| Config.BadPort | src/core/config.py:26 | a PORT that is not a decimal numeral makes construction raise ValueError with its text |
| Config.Defaults | src/core/config.py:19-112 | an empty environment gives the documented defaults: Redis on localhost:6379 db 0 without password, MongoDB on localhost:27017 `icp_analyzer`, the dev secret for both keys, debug on |
| Config.LocalRedisUrl | src/core/config.py:114-117 | the default settings give `redis://localhost:6379/0` |
| Config.LocalMongodbUrl | src/core/config.py:119-125 | the default settings give `mongodb://localhost:27017/icp_analyzer`, with no credentials |
| Config.DefaultUrls | src/core/config.py:63-125 | with an empty environment, the Redis URL and the broker are `redis://localhost:6379/0`, the MongoDB URL is `mongodb://localhost:27017/icp_analyzer`, and `validate` holds |
| Config.RedisUrlAuth | src/core/config.py:114-117 | the Redis URL starts with `redis://`, followed by `:password@` when a password is set |
| Config.RedisUrlAt | src/core/config.py:114-117 | when neither host nor password holds an `@`, the URL holds one exactly when a password is set |
| Config.MongodbUrlAuth | src/core/config.py:119-125 | a set URI is returned verbatim. Otherwise the URL starts with `mongodb://`, followed by `user:password@` when both are set |
| Config.MongodbUrlAt | src/core/config.py:119-125 | without a URI, and with no `@` in host, database, user or password, the URL holds an `@` exactly when both user and password are set |
| Config.RedisUrlDb | src/core/config.py:114-117 | the text after the URL's last `/` parses back to the configured db |
| Config.FlaskItems | src/core/config.py:21-26 | every attribute name is non-empty and starts with a capital letter |
| Config.RedisItems | src/core/config.py:28-42 | every attribute name is non-empty and starts with a capital letter |
| Config.MongoItems | src/core/config.py:44-60 | every attribute name is non-empty and starts with a capital letter |
| Config.CeleryItems | src/core/config.py:62-69 | every attribute name is non-empty and starts with a capital letter |
| Config.RateLimitItems | src/core/config.py:71-79 | every attribute name is non-empty and starts with a capital letter |
| Config.ServiceItems | src/core/config.py:81-87 | every attribute name is non-empty and starts with a capital letter |
| Config.AnalysisItems | src/core/config.py:89-101 | every attribute name is non-empty and starts with a capital letter |
| Config.IntegrationItems | src/core/config.py:103-112 | every attribute name is non-empty and starts with a capital letter |
| Config.PublicMembers | src/core/config.py:145-148 | an item is exported exactly when it is an attribute whose name does not start with `_` |
| Config.PublicUnchanged | src/core/config.py:145-148 | when no name starts with `_`, every attribute is exported |
| Config.ToDictAttributes | src/core/config.py:143-148 | `to_dict` gives all 48 attributes, in assignment order |

`comparative_analyzer.py` and `competitive_analyzer.py` each repeat the keyword tables and the
per-site helpers of `testimonial_analyzer.py`:

- src/analyzers/comparative_analyzer.py:14-38 and 196-298;
- src/analyzers/competitive_analyzer.py:14-38.

They are copies with the same tables, branches and sort. So the model defines them once, in
`TestimonialAnalyzer`, and both comparison modules use those definitions. For the segment
classifier, that makes the comparative copy partition testimonials exactly as the single-site
one does.

## Left out

- Network I/O is not modelled: `requests.get`, `session.get`, `time.sleep` and the request
  time-out. Each fetch or attempt is an input, and the pauses are returned as a list.
- `_get_dynamic_testimonials` (src/scrapers/website_scraper.py:189-243) drives a Selenium
  browser. What it returns is an input sequence.
- BeautifulSoup's HTML parsing is not modelled; documents are given as trees.
  - `str(tag)` is modelled with entity escaping of `&`, `<`, `>` and `"` only. Void elements,
    attribute quoting choices and non-ASCII output are not modelled.
  - `Dom.GetText`: the strings inside `script`, `style`, `template`, `rt` and `rp` elements are
    skipped by the text of any other tag, as BeautifulSoup's string classes do. The tag that is
    read is itself taken to sit outside such elements. BeautifulSoup would find no plain strings
    in a tag nested inside a `template`; the model reads that tag's strings as plain.
  - `class_` filters test the space-joined class list. For the words the scrapers pass (none
    contains a blank) this gives the same answer as testing each class.
- File and clock output is left out: the `timestamp` fields, `_save_raw_data`, `_save_analysis`,
  `_save_comparison` and `_load_website_data`. The loaded data is an input (`None` for no file).
  So a failing `_save_raw_data`, which makes `scrape_website` return None
  (src/scrapers/website_scraper.py:83, 86-88), is not modelled.
- `_analyze_trends` and the per-metric trend helpers are left out; they depend on file creation
  times. The competitive analysis is modelled without `trend_analysis`.
- `_analyze_sentiment` is left out because it uses TextBlob and floating point. So are the
  average sentiment and `average` total in `_generate_comparative_metrics`, and
  `most_positive` / `most_negative`.
- `FindCompetitiveAdvantages` takes the outcome of the sentiment comparison as a boolean input.
- Sets are modelled as Dafny sets, because `list(set(...))` has an unspecified order. This
  covers:
  - the three positioning parts;
  - the set in each advantage or gap line.

  A line holds its set, not the `", ".join` text.
- `Processor.Dedup` and `Processor.ExtractEntities` return sequences. `Processor.Dedup` keeps
  first occurrences in order, but the contracts state only that there are no repeats and which
  members there are. Python's `list(set(v))` (icp_analyzer/src/processor.py:143) promises no
  order, so the model promises none either.
- `process_content`, `_extract_key_phrases`, spaCy's parsing and the language-model call are
  left out; they orchestrate foreign libraries. The entity list and the reply are inputs. A
  failed call is `None` and gives the defaults. The 4000-character prompt limit is not modelled.
- `validate`'s log line and the module-level `load_dotenv` and logging set-up are left out. The
  environment map is what `os.getenv` sees.
- Case-insensitive matching (`re.I`, `.lower()`) is modelled with ASCII case folding only.
- `video_attrs` in `_get_embedded_testimonials` is computed but never read, so it is not
  modelled.
- The `.title` / `.description` names passed to `find` can match no tag, so they never match.
- `print` calls and the catch-all `except` blocks are modelled only by their outcome: `None`,
  an empty contribution or a skipped element.
- Config.Load: `__init__`'s straight-line assignments are one function returning every
  attribute or the first `int()` / `urlparse` error. No object is updated in place.
- Cleaning.RemoveSpans, Cleaning.ReplaceTags, Cleaning.RemoveBraces, Cleaning.RemoveDeclarations
  and Cleaning.Collapse: their contracts state only that the text does not grow. The regex
  semantics are in their definitions, and the fixed-point lemmas (`…Plain`, `CollapseSingle`,
  `CleanProse`) pin them down on plain text. They do not state the full "no match is left"
  property.
- Config.RedisUrlAt and Config.MongodbUrlAt: the `@` property assumes that no setting holds an
  `@` itself, because an `@` inside a host or password makes the URL ambiguous anyway.
- CompetitiveAnalyzer.AnalyzeCompetitor: the result uses the corrected overlap (see Findings).
  As written, the source raises `KeyError: 'url'` from `_generate_competitive_insights`
  (src/analyzers/competitive_analyzer.py:74-76, 247) whenever the target shares a segment with a
  loaded competitor. `AnalyzeCompetitorKeyError` states when that happens and that the two agree
  otherwise.
- Strings.IsDigit: accepts the ASCII digits only. Python's `str.isdigit()` also accepts other
  Unicode digits, such as superscripts; the model has no Unicode character database.
- Numerals.ParseInt: accepts ASCII digits only. Python's `int()` also accepts other Unicode
  decimal digits and single `_` between digits (`PORT=5_000` gives 5000). Config.Load and its
  `int()` error cases inherit this, because the model has no Unicode character database.

## Findings

| source | as written | input that shows it | evidently intended | confidence | as-written member | corrected member |
|---|---|---|---|---|---|---|
| src/analyzers/competitive_analyzer.py:247 | The overlap entry reads `comp['url']`. The analyses come from `_analyze_website` (src/analyzers/competitive_analyzer.py:103-115), which sets no `url` key. So `KeyError` is raised whenever the target and a competitor share a segment. | a target and one competitor that both have an `Acme Inc` testimonial in `enterprise` | each entry carries the url of the competitor it came from | not executed | CompetitiveAnalyzer.AnalyzeSegmentOverlapAsWritten, CompetitiveAnalyzer.OverlapKeyError | CompetitiveAnalyzer.AnalyzeSegmentOverlap, CompetitiveAnalyzer.OverlapSpec |
