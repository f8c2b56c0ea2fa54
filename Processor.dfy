/** The string post-processing of the ICP content processor: the attribute record and its
    defaults, the text handed to the language model, the per-label entity lists, and the
    parsing of the model's numbered reply into attributes. */
module Processor {
  import opened Wrappers
  import opened Strings
  import opened Dicts

  /* ---------------------------------------------------------------- ICPAttributes */

  /** The seven ICP attributes. */
  datatype ICPAttributes = ICPAttributes(
    industryFocus: string,
    companySize: string,
    keyDecisionMakers: string,
    geographicFocus: string,
    technicalSophistication: string,
    budgetLevel: string,
    buyingCycle: string)

  /** `ICPAttributes()`: the dataclass defaults. */
  const Defaults := ICPAttributes("", "Unknown", "", "", "Unknown", "Unknown", "Unknown")

  /** The dataclass fields in declaration order, the keys of `asdict`. */
  const FieldNames: seq<string> := [
    "industry_focus", "company_size", "key_decision_makers", "geographic_focus",
    "technical_sophistication", "budget_level", "buying_cycle"]

  /** The three fields that default to the empty string are the ones numbered 1, 3 and 4. */
  lemma DefaultsByField()
    ensures Defaults.industryFocus == "" && Defaults.keyDecisionMakers == "" && Defaults.geographicFocus == ""
    ensures Defaults.companySize == "Unknown" && Defaults.technicalSophistication == "Unknown"
    ensures Defaults.budgetLevel == "Unknown" && Defaults.buyingCycle == "Unknown"
  {
  }

  /** `to_dict` (`dataclasses.asdict`): each field under its name, in declaration order. */
  function ToDict(a: ICPAttributes): (d: Dict<string, string>)
    ensures Keys(d) == FieldNames
  {
    [("industry_focus", a.industryFocus), ("company_size", a.companySize),
     ("key_decision_makers", a.keyDecisionMakers), ("geographic_focus", a.geographicFocus),
     ("technical_sophistication", a.technicalSophistication), ("budget_level", a.budgetLevel),
     ("buying_cycle", a.buyingCycle)]
  }

  /** Reading the attributes back from a dict, as `ICPAttributes(**d)` does; `None` when a
      field is missing. */
  function FromDict(d: Dict<string, string>): Option<ICPAttributes> {
    match (Get(d, "industry_focus"), Get(d, "company_size"), Get(d, "key_decision_makers"),
           Get(d, "geographic_focus"), Get(d, "technical_sophistication"), Get(d, "budget_level"),
           Get(d, "buying_cycle"))
    case (Some(a), Some(b), Some(c), Some(e), Some(f), Some(g), Some(h)) => Some(ICPAttributes(a, b, c, e, f, g, h))
    case _ => None
  }

  lemma FieldNamesDistinct()
    ensures forall i, j :: 0 <= i < j < |FieldNames| ==> FieldNames[i] != FieldNames[j]
  {
  }

  /** The dict holds exactly the seven fields: they have distinct names and read back unchanged. */
  lemma ToDictRoundTrip(a: ICPAttributes)
    ensures DistinctKeys(ToDict(a))
    ensures FromDict(ToDict(a)) == Some(a)
  {
    var d := ToDict(a);
    FieldNamesDistinct();
    assert DistinctKeys(d) by {
      forall i, j | 0 <= i < j < |d| ensures d[i].0 != d[j].0 {
        assert d[i].0 == Keys(d)[i] == FieldNames[i] && d[j].0 == Keys(d)[j] == FieldNames[j];
      }
    }
    GetAt(d, 0);
    GetAt(d, 1);
    GetAt(d, 2);
    GetAt(d, 3);
    GetAt(d, 4);
    GetAt(d, 5);
    GetAt(d, 6);
  }

  /* ---------------------------------------------------------------- _combine_content */

  /** The keys of the scraped content that are combined; an absent or `None` value is `None`. */
  datatype ScrapedContent = ScrapedContent(
    title: Option<string>,
    metaDescription: Option<string>,
    mainContent: Option<string>,
    aboutPage: Option<string>,
    targetSections: Dict<string, string>)

  /** `filter(None, xs)`: the non-empty strings, in order. */
  function NonEmpty(xs: seq<string>): (r: seq<string>)
    ensures |r| <= |xs|
    ensures forall i :: 0 <= i < |r| ==> r[i] != ""
    decreases |xs|
  {
    if xs == [] then []
    else NonEmpty(xs[..|xs| - 1]) + if xs[|xs| - 1] != "" then [xs[|xs| - 1]] else []
  }

  /** The sections in the order they are combined: the four fixed keys, then the target sections. */
  function Sections(c: ScrapedContent): seq<string> {
    [c.title.GetOr(""), c.metaDescription.GetOr(""), c.mainContent.GetOr(""), c.aboutPage.GetOr("")]
      + Values(c.targetSections)
  }

  /** `_combine_content`. */
  function CombineContent(c: ScrapedContent): string {
    Join(" ", NonEmpty(Sections(c)))
  }

  /** `filter(None, ...)` keeps exactly the non-empty strings. */
  lemma {:induction false} NonEmptyKeeps(xs: seq<string>, x: string)
    ensures x in NonEmpty(xs) <==> x != "" && x in xs
    decreases |xs|
  {
    if xs != [] {
      var n := |xs| - 1;
      NonEmptyKeeps(xs[..n], x);
      assert xs == xs[..n] + [xs[n]];
    }
  }

  /** `filter(None, ...)` keeps the order: filtering two lists one after the other is filtering
      their concatenation. */
  lemma {:induction false} NonEmptyConcat(xs: seq<string>, ys: seq<string>)
    ensures NonEmpty(xs + ys) == NonEmpty(xs) + NonEmpty(ys)
    decreases |ys|
  {
    if ys == [] {
      assert xs + ys == xs;
    } else {
      var n := |ys| - 1;
      NonEmptyConcat(xs, ys[..n]);
      assert (xs + ys)[..|xs + ys| - 1] == xs + ys[..n];
      assert (xs + ys)[|xs + ys| - 1] == ys[n];
    }
  }

  /** The combined text is empty exactly when every section is; otherwise it starts with the
      first non-empty section, and the parts it joins are exactly the non-empty sections. */
  lemma CombineContentSpec(c: ScrapedContent)
    ensures CombineContent(c) == "" <==> forall i :: 0 <= i < |Sections(c)| ==> Sections(c)[i] == ""
    ensures forall x :: x in NonEmpty(Sections(c)) <==> x != "" && x in Sections(c)
    ensures NonEmpty(Sections(c)) != [] ==> StartsWith(CombineContent(c), NonEmpty(Sections(c))[0])
  {
    var xs := Sections(c);
    JoinNonEmpty(NonEmpty(xs));
    forall x ensures x in NonEmpty(xs) <==> x != "" && x in xs {
      NonEmptyKeeps(xs, x);
    }
    if NonEmpty(xs) == [] {
      forall i | 0 <= i < |xs| ensures xs[i] == "" {
        NonEmptyKeeps(xs, xs[i]);
      }
    } else {
      var x := NonEmpty(xs)[0];
      NonEmptyKeeps(xs, x);
    }
  }

  /** With a title and no other content, the combined text is the title. */
  lemma CombineTitleOnly(title: string)
    requires title != ""
    ensures CombineContent(ScrapedContent(Some(title), None, None, None, [])) == title
  {
    var c := ScrapedContent(Some(title), None, None, None, []);
    assert Sections(c) == [title, "", "", ""];
    assert NonEmpty([title]) == [title] by {
      assert [title][..0] == [];
    }
    assert NonEmpty([title, ""]) == [title] by {
      assert [title, ""][..1] == [title];
    }
    assert NonEmpty([title, "", ""]) == [title] by {
      assert [title, "", ""][..2] == [title, ""];
    }
    assert NonEmpty([title, "", "", ""]) == [title] by {
      assert [title, "", "", ""][..3] == [title, "", ""];
    }
  }

  /* ---------------------------------------------------------------- _extract_entities */

  /** A named entity found by the language pipeline: its text and its label (`label_`). */
  datatype Entity = Entity(text: string, kind: string)

  /** The entity lists, under the keys `organizations`, `locations`, `products` and `job_titles`. */
  datatype Entities = Entities(organizations: seq<string>, locations: seq<string>, products: seq<string>, jobTitles: seq<string>)

  /** The texts of the entities labelled `wanted`, in order. */
  function Labelled(ents: seq<Entity>, wanted: string): seq<string>
    decreases |ents|
  {
    if ents == [] then []
    else
      var n := |ents| - 1;
      Labelled(ents[..n], wanted) + if ents[n].kind == wanted then [ents[n].text] else []
  }

  /** A text is among the labelled ones exactly when some entity has that text and label. */
  lemma {:induction false} LabelledMembers(ents: seq<Entity>, wanted: string, x: string)
    ensures x in Labelled(ents, wanted) <==> exists i :: 0 <= i < |ents| && ents[i] == Entity(x, wanted)
    decreases |ents|
  {
    if ents != [] {
      var n := |ents| - 1;
      LabelledMembers(ents[..n], wanted, x);
      assert forall i :: 0 <= i < n ==> ents[..n][i] == ents[i];
      if exists i :: 0 <= i < |ents| && ents[i] == Entity(x, wanted) {
        var i :| 0 <= i < |ents| && ents[i] == Entity(x, wanted);
        if i < n {
          assert ents[..n][i] == Entity(x, wanted);
        }
      }
    }
  }

  /** `list(set(xs))`: the same elements, each once. Python gives no order; this keeps the
      first occurrences in order. */
  method Dedup(xs: seq<string>) returns (r: seq<string>)
    ensures Distinct(r)
    ensures forall x :: x in r <==> x in xs
  {
    r := [];
    var seen: set<string> := {};
    for i := 0 to |xs|
      invariant Distinct(r)
      invariant forall x :: x in r <==> x in xs[..i]
      invariant forall x :: x in seen <==> x in r
    {
      assert xs[..i + 1] == xs[..i] + [xs[i]];
      if xs[i] !in seen {
        r := r + [xs[i]];
        seen := seen + {xs[i]};
      }
    }
    assert xs[..|xs|] == xs;
  }

  /** `_extract_entities`: the texts of the ORG, GPE and PRODUCT entities, each list without
      repetitions; `job_titles` stays empty. */
  method ExtractEntities(ents: seq<Entity>) returns (r: Entities)
    ensures Distinct(r.organizations) && Distinct(r.locations) && Distinct(r.products)
    ensures forall x :: x in r.organizations <==> x in Labelled(ents, "ORG")
    ensures forall x :: x in r.locations <==> x in Labelled(ents, "GPE")
    ensures forall x :: x in r.products <==> x in Labelled(ents, "PRODUCT")
    ensures r.jobTitles == []
  {
    var organizations, locations, products := [], [], [];
    for i := 0 to |ents|
      invariant organizations == Labelled(ents[..i], "ORG")
      invariant locations == Labelled(ents[..i], "GPE")
      invariant products == Labelled(ents[..i], "PRODUCT")
    {
      assert ents[..i + 1][..i] == ents[..i];
      var ent := ents[i];
      if ent.kind == "ORG" {
        organizations := organizations + [ent.text];
      } else if ent.kind == "GPE" {
        locations := locations + [ent.text];
      } else if ent.kind == "PRODUCT" {
        products := products + [ent.text];
      }
    }
    assert ents[..|ents|] == ents;
    var orgs := Dedup(organizations);
    var locs := Dedup(locations);
    var prods := Dedup(products);
    r := Entities(orgs, locs, prods, []);
  }

  /* ---------------------------------------------------------------- parsing the reply */

  /** The marker `"k."` of the k-th answer. */
  function Marker(k: nat): (m: string)
    requires 1 <= k <= 7
    ensures |m| == 2
  {
    [(48 + k) as char, '.']
  }

  /** `reply.split("k.")[1].split("(k+1).")[0].strip()`, for `"k." in reply`. */
  function FieldText(reply: string, k: nat): string
    requires 1 <= k <= 6 && Contains(reply, Marker(k))
  {
    SecondPiece(reply, Marker(k));
    Strip(Split(Split(reply, Marker(k))[1], Marker(k + 1))[0])
  }

  /** Answer `k`, or `default` when `"k."` does not occur. */
  function Field(reply: string, k: nat, default: string): string
    requires 1 <= k <= 6
  {
    if Contains(reply, Marker(k)) then FieldText(reply, k) else default
  }

  /** `reply.split("7.")[1].strip()`, or `Unknown` when `"7."` does not occur. */
  function BuyingCycle(reply: string): string {
    if Contains(reply, Marker(7)) then
      SecondPiece(reply, Marker(7));
      Strip(Split(reply, Marker(7))[1])
    else "Unknown"
  }

  /** The attributes `_analyze_with_llm` builds from the model's reply. */
  function ParseReply(reply: string): ICPAttributes {
    ICPAttributes(
      Field(reply, 1, Defaults.industryFocus),
      Field(reply, 2, Defaults.companySize),
      Field(reply, 3, Defaults.keyDecisionMakers),
      Field(reply, 4, Defaults.geographicFocus),
      Field(reply, 5, Defaults.technicalSophistication),
      Field(reply, 6, Defaults.budgetLevel),
      BuyingCycle(reply))
  }

  /** `_analyze_with_llm`: the parsed reply, or the defaults when the call raised (`None`). */
  function AnalyzeWithLlm(reply: Option<string>): ICPAttributes {
    match reply
    case None => Defaults
    case Some(text) => ParseReply(text)
  }

  /** Answer `k` is the stripped text of a slice that starts right after the first `"k."`.
      The slice holds neither `"k."` nor `"(k+1)."`, and it ends at the end of the reply or
      right before one of them. */
  lemma FieldSlice(reply: string, k: nat) returns (start: nat, end: nat)
    requires 1 <= k <= 6 && Contains(reply, Marker(k))
    ensures 2 <= start <= end <= |reply|
    ensures Find(reply, Marker(k)) == Some(start - 2)
    ensures FieldText(reply, k) == Strip(reply[start..end])
    ensures !Contains(reply[start..end], Marker(k)) && !Contains(reply[start..end], Marker(k + 1))
    ensures end == |reply| || OccursAt(reply, Marker(k), end) || OccursAt(reply, Marker(k + 1), end)
  {
    start, end := PieceBetween(reply, Marker(k), Marker(k + 1));
  }

  /** The buying cycle is the stripped text between the first `"7."` and the next one, or the
      end of the reply. */
  lemma BuyingCycleSlice(reply: string) returns (start: nat, end: nat)
    requires Contains(reply, Marker(7))
    ensures 2 <= start <= end <= |reply|
    ensures Find(reply, Marker(7)) == Some(start - 2)
    ensures BuyingCycle(reply) == Strip(reply[start..end])
    ensures !Contains(reply[start..end], Marker(7))
    ensures end == |reply| || OccursAt(reply, Marker(7), end)
  {
    start, end := SecondPieceSlice(reply, Marker(7));
  }

  /** A reply without any of the markers leaves every attribute at its default. */
  lemma UnnumberedReply(reply: string)
    requires forall k :: 1 <= k <= 7 ==> !Contains(reply, Marker(k))
    ensures ParseReply(reply) == Defaults
  {
    assert !Contains(reply, Marker(1)) && !Contains(reply, Marker(2)) && !Contains(reply, Marker(3));
    assert !Contains(reply, Marker(4)) && !Contains(reply, Marker(5)) && !Contains(reply, Marker(6));
    assert !Contains(reply, Marker(7));
  }
}
