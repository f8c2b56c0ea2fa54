/** The parsed HTML document the scrapers search: an immutable tree of elements and text, with
    the BeautifulSoup queries they use written out over it. */
module Dom {
  import opened Wrappers
  import opened Strings
  import opened Dicts

  /** A text node, or an element with its attributes in source order and its children. The value of
      `class` is held as written; BeautifulSoup splits it on whitespace. The document itself is an
      element named `[document]`. */
  datatype Node =
    | Text(text: string)
    | Element(name: string, attrs: Dict<string, string>, children: seq<Node>)

  /** `tag.name`; text nodes have none. */
  function Name(n: Node): string {
    if n.Element? then n.name else ""
  }

  /** `tag.get(key)` for a single-valued attribute. */
  function Attr(n: Node, key: string): Option<string> {
    if n.Element? then Get(n.attrs, key) else None
  }

  /** `tag.get(key, '')`. */
  function AttrOr(n: Node, key: string): string {
    Attr(n, key).GetOr("")
  }

  /** `tag.get('class', [])`: the class attribute split on whitespace. */
  function Classes(n: Node): seq<string> {
    SplitWs(AttrOr(n, "class"))
  }

  /** `class_=lambda x: x and any(w in str(x).lower() for w in words)`. BeautifulSoup offers the
      function each class value and then the space-joined list; none of the words the scrapers pass
      contains a space, so a word occurs in one class exactly when it occurs in the joined list,
      and the joined list is what the match is made against. */
  predicate ClassMatches(n: Node, words: seq<string>) {
    n.Element? && ContainsAny(Lower(Join(" ", Classes(n))), words)
  }

  /** `n.name in names`. */
  predicate NameIn(n: Node, names: seq<string>) {
    n.Element? && n.name in names
  }

  /** The elements whose strings BeautifulSoup gives a class of their own (`RubyTextString`,
      `RubyParenthesisString`, `Stylesheet`, `Script`, `TemplateString`). The innermost such
      element around a string decides its class. */
  const StringContainers: seq<string> := ["rt", "rp", "style", "script", "template"]

  /** The string class inside `n` when the class around it is `outer`. `""` stands for the plain
      `NavigableString`. */
  function InnerKind(n: Node, outer: string): string {
    if n.Element? && n.name in StringContainers then n.name else outer
  }

  /** The strings of class `want` in a subtree whose surrounding class is `kind`, in document
      order. */
  function KindTexts(n: Node, kind: string, want: string): seq<string> {
    match n
    case Text(t) => if kind == want then [t] else []
    case Element(_, _, children) => ForestKindTexts(children, InnerKind(n, kind), want)
  }

  function ForestKindTexts(forest: seq<Node>, kind: string, want: string): seq<string> {
    if forest == [] then [] else KindTexts(forest[0], kind, want) + ForestKindTexts(forest[1..], kind, want)
  }

  /** `tag.strings`: the strings of the subtree whose class is one of the tag's
      `interesting_string_types`, in document order. That is its own container class for a
      container element, and plain strings for any other tag. The tag itself is taken to sit
      outside every container. */
  function Texts(n: Node): seq<string> {
    KindTexts(n, "", InnerKind(n, ""))
  }

  /** Inside a container, no string is plain. */
  lemma {:induction false} NoPlainInside(n: Node, kind: string)
    requires kind != ""
    ensures KindTexts(n, kind, "") == []
    decreases n, 1
  {
    match n
    case Text(_) =>
    case Element(name, _, children) =>
      ForestNoPlainInside(children, InnerKind(n, kind));
  }

  lemma {:induction false} ForestNoPlainInside(forest: seq<Node>, kind: string)
    requires kind != ""
    ensures ForestKindTexts(forest, kind, "") == []
    decreases forest, 0
  {
    if forest != [] {
      NoPlainInside(forest[0], kind);
      ForestNoPlainInside(forest[1..], kind);
    }
  }

  /** The strings of two forests side by side. */
  lemma {:induction false} ForestKindTextsConcat(f: seq<Node>, g: seq<Node>, kind: string, want: string)
    ensures ForestKindTexts(f + g, kind, want) == ForestKindTexts(f, kind, want) + ForestKindTexts(g, kind, want)
  {
    if f == [] {
      assert f + g == g;
    } else {
      assert (f + g)[0] == f[0] && (f + g)[1..] == f[1..] + g;
      ForestKindTextsConcat(f[1..], g, kind, want);
    }
  }

  /** The text of a tag that is no container skips the strings of a `script`, `style`,
      `template`, `rt` or `rp` child: removing that child leaves the strings unchanged. */
  lemma ContainerChildSkipped(name: string, attrs: Dict<string, string>, children: seq<Node>, k: nat)
    requires name !in StringContainers && k < |children|
    requires children[k].Element? && children[k].name in StringContainers
    ensures Texts(Element(name, attrs, children)) == Texts(Element(name, attrs, children[..k] + children[k + 1..]))
  {
    PlainElementTexts(name, attrs, children);
    PlainElementTexts(name, attrs, children[..k] + children[k + 1..]);
    ForestContainerSkipped(children, k);
  }

  lemma PlainElementTexts(name: string, attrs: Dict<string, string>, children: seq<Node>)
    requires name !in StringContainers
    ensures Texts(Element(name, attrs, children)) == ForestKindTexts(children, "", "")
  {
  }

  lemma ForestContainerSkipped(children: seq<Node>, k: nat)
    requires k < |children| && children[k].Element? && children[k].name in StringContainers
    ensures ForestKindTexts(children, "", "") == ForestKindTexts(children[..k] + children[k + 1..], "", "")
  {
    ForestSplitAt(children, k);
    ForestDropContainer(children[k], children[k + 1..]);
    ForestKindTextsConcat(children[..k], children[k + 1..], "", "");
  }

  lemma ForestSplitAt(children: seq<Node>, k: nat)
    requires k < |children|
    ensures ForestKindTexts(children, "", "")
         == ForestKindTexts(children[..k], "", "") + ForestKindTexts([children[k]] + children[k + 1..], "", "")
  {
    assert children == children[..k] + ([children[k]] + children[k + 1..]);
    ForestKindTextsConcat(children[..k], [children[k]] + children[k + 1..], "", "");
  }

  lemma ForestDropContainer(c: Node, rest: seq<Node>)
    requires c.Element? && c.name in StringContainers
    ensures ForestKindTexts([c] + rest, "", "") == ForestKindTexts(rest, "", "")
  {
    ForestKindTextsConcat([c], rest, "", "");
    ContainerNoPlain(c);
  }

  /** A container contributes no plain strings. */
  lemma ContainerNoPlain(c: Node)
    requires c.Element? && c.name in StringContainers
    ensures ForestKindTexts([c], "", "") == []
  {
    ForestNoPlainInside(c.children, c.name);
    assert ForestKindTexts([c], "", "") == KindTexts(c, "", "");
  }

  /** A testimonial block with a tracking script: its text is the paragraph alone. */
  lemma ScriptTextSkipped()
    ensures GetText(Element("div", [("class", "testimonial")], [
                      Element("p", [], [Text("Great product, we doubled revenue in a month")]),
                      Element("script", [], [Text("trackView()")])]))
            == "Great product, we doubled revenue in a month"
  {
    var t := "Great product, we doubled revenue in a month";
    var p := Element("p", [], [Text(t)]);
    var children := [p, Element("script", [], [Text("trackView()")])];
    ContainerChildSkipped("div", [("class", "testimonial")], children, 1);
    assert children[..1] + children[2..] == [p];
    PlainChildTexts("div", [("class", "testimonial")], p);
    PlainTexts("p", [], t);
    assert Concat([t]) == t;
  }

  /** A plain element holding one string has that string as its text. */
  lemma PlainTexts(name: string, attrs: Dict<string, string>, t: string)
    requires name !in StringContainers
    ensures Texts(Element(name, attrs, [Text(t)])) == [t]
  {
    assert ForestKindTexts([Text(t)], "", "") == KindTexts(Text(t), "", "");
  }

  /** A plain element whose one child is a plain element has that child's text. */
  lemma PlainChildTexts(name: string, attrs: Dict<string, string>, c: Node)
    requires name !in StringContainers && c.Element? && c.name !in StringContainers
    ensures Texts(Element(name, attrs, [c])) == Texts(c)
  {
    assert ForestKindTexts([c], "", "") == KindTexts(c, "", "");
  }

  /** A container's own text is the strings inside it. */
  lemma ContainerTexts(name: string, attrs: Dict<string, string>, t: string)
    requires name in StringContainers
    ensures Texts(Element(name, attrs, [Text(t)])) == [t]
  {
    assert ForestKindTexts([Text(t)], name, name) == KindTexts(Text(t), name, name);
  }

  /** `tag.get_text()`: every string of the subtree, concatenated. */
  function GetText(n: Node): string {
    Concat(Texts(n))
  }

  /** `tag.stripped_strings`: each string stripped, the ones left empty dropped. */
  function StrippedStrings(n: Node): (r: seq<string>)
    ensures forall i :: 0 <= i < |r| ==> r[i] != ""
  {
    StripAll(Texts(n))
  }

  function StripAll(ts: seq<string>): (r: seq<string>)
    ensures forall i :: 0 <= i < |r| ==> r[i] != ""
  {
    if ts == [] then []
    else StripAll(ts[..|ts| - 1]) + if Strip(ts[|ts| - 1]) == "" then [] else [Strip(ts[|ts| - 1])]
  }

  /** The entity escaping of text and attribute values: `&`, `<` and `>` in both, `"` in values. */
  function Escape(s: string, inAttribute: bool): string {
    if s == [] then []
    else
      var e := match s[0]
        case '&' => "&amp;"
        case '<' => "&lt;"
        case '>' => "&gt;"
        case '"' => if inAttribute then "&quot;" else "\""
        case c => [c];
      e + Escape(s[1..], inAttribute)
  }

  function AttrsMarkup(attrs: Dict<string, string>): string {
    if attrs == [] then ""
    else
      var (k, v) := attrs[0];
      var shown := if k == "class" then Join(" ", SplitWs(v)) else v;
      " " + k + "=\"" + Escape(shown, true) + "\"" + AttrsMarkup(attrs[1..])
  }

  /** `str(tag)`: the subtree as markup. */
  function Serialize(n: Node): string {
    match n
    case Text(t) => Escape(t, false)
    case Element(name, attrs, children) =>
      "<" + name + AttrsMarkup(attrs) + ">" + SerializeForest(children) + "</" + name + ">"
  }

  function SerializeForest(forest: seq<Node>): string {
    if forest == [] then "" else Serialize(forest[0]) + SerializeForest(forest[1..])
  }

  /** Every node of a forest in document order, each followed by its descendants. */
  function Flatten(forest: seq<Node>): seq<Node> {
    if forest == [] then []
    else [forest[0]] + (if forest[0].Element? then Flatten(forest[0].children) else []) + Flatten(forest[1..])
  }

  /** A node where it sits in the document: its ancestors, nearest first, each with its own place;
      its later siblings; and every node after its subtree, in document order. */
  datatype Located = Located(node: Node, ancestors: seq<Located>, nextSiblings: seq<Node>, following: seq<Node>)

  /** The nodes of `forest`, whose parent and further ancestors are `ancestors` and after which
      come `after`. */
  function Walk(forest: seq<Node>, ancestors: seq<Located>, after: seq<Node>): seq<Located> {
    if forest == [] then []
    else
      var n := forest[0];
      var here := Located(n, ancestors, forest[1..], Flatten(forest[1..]) + after);
      [here]
      + (if n.Element? then Walk(n.children, [here] + ancestors, here.following) else [])
      + Walk(forest[1..], ancestors, after)
  }

  /** `tag.descendants`, each with its place. */
  function Inside(l: Located): seq<Located> {
    if l.node.Element? then Walk(l.node.children, [l] + l.ancestors, l.following) else []
  }

  /** The document as the place every search starts from. */
  function Root(doc: Node): Located {
    Located(doc, [], [], [])
  }

  /** The elements among `ls` whose name is in `names` (`find_all(names)`). */
  function Named(ls: seq<Located>, names: seq<string>): (r: seq<Located>)
    ensures forall i :: 0 <= i < |r| ==> NameIn(r[i].node, names)
  {
    if ls == [] then []
    else Named(ls[..|ls| - 1], names) + if NameIn(ls[|ls| - 1].node, names) then [ls[|ls| - 1]] else []
  }

  /** The elements among `ls` whose name is in `names` and a class contains one of `words`
      (`find_all(names, class_=...)`). */
  function NamedWithClass(ls: seq<Located>, names: seq<string>, words: seq<string>): (r: seq<Located>)
    ensures forall i :: 0 <= i < |r| ==> NameIn(r[i].node, names) && ClassMatches(r[i].node, words)
  {
    if ls == [] then []
    else
      var l := ls[|ls| - 1];
      NamedWithClass(ls[..|ls| - 1], names, words) + if NameIn(l.node, names) && ClassMatches(l.node, words) then [l] else []
  }

  /** The elements among `ls` with a class containing one of `words`, whatever their name. */
  function WithClass(ls: seq<Located>, words: seq<string>): (r: seq<Located>)
    ensures forall i :: 0 <= i < |r| ==> ClassMatches(r[i].node, words)
  {
    if ls == [] then []
    else WithClass(ls[..|ls| - 1], words) + if ClassMatches(ls[|ls| - 1].node, words) then [ls[|ls| - 1]] else []
  }

  /** The elements among `ls` whose `id`, lower-cased, contains `word`. */
  function WithId(ls: seq<Located>, word: string): (r: seq<Located>)
    ensures forall i :: 0 <= i < |r| ==> r[i].node.Element? && Contains(Lower(AttrOr(r[i].node, "id")), word)
  {
    if ls == [] then []
    else
      var l := ls[|ls| - 1];
      WithId(ls[..|ls| - 1], word) + if l.node.Element? && Contains(Lower(AttrOr(l.node, "id")), word) then [l] else []
  }

  /** The first element of a list, if any (`find` returns the first `find_all` hit). */
  function First<T>(xs: seq<T>): (r: Option<T>)
    ensures r.Some? <==> xs != []
    ensures r.Some? ==> r.value == xs[0]
  {
    if xs == [] then None else Some(xs[0])
  }

  /** `tag.find_parent(names)`: the nearest ancestor with one of the names. */
  function FindParent(l: Located, names: seq<string>): (r: Option<Located>)
    ensures r.Some? ==> NameIn(r.value.node, names) && r.value in l.ancestors
    ensures r.None? ==> forall i :: 0 <= i < |l.ancestors| ==> !NameIn(l.ancestors[i].node, names)
  {
    FirstNamed(l.ancestors, names)
  }

  function FirstNamed(ls: seq<Located>, names: seq<string>): (r: Option<Located>)
    ensures r.Some? ==> NameIn(r.value.node, names) && r.value in ls
    ensures r.None? ==> forall i :: 0 <= i < |ls| ==> !NameIn(ls[i].node, names)
  {
    if ls == [] then None else if NameIn(ls[0].node, names) then Some(ls[0]) else FirstNamed(ls[1..], names)
  }

  /** `tag.find_next(names, class_=...)`: the first matching element after the tag in document
      order, its own descendants included. */
  function FindNext(l: Located, names: seq<string>, words: seq<string>): Option<Node> {
    FirstMatch((if l.node.Element? then Flatten(l.node.children) else []) + l.following, names, words)
  }

  function FirstMatch(ns: seq<Node>, names: seq<string>, words: seq<string>): (r: Option<Node>)
    ensures r.Some? ==> NameIn(r.value, names) && ClassMatches(r.value, words)
  {
    if ns == [] then None
    else if NameIn(ns[0], names) && ClassMatches(ns[0], words) then Some(ns[0])
    else FirstMatch(ns[1..], names, words)
  }

  /** The later sibling elements, in order (what repeated `find_next_sibling()` visits). */
  function SiblingElements(ns: seq<Node>): seq<Node> {
    if ns == [] then [] else (if ns[0].Element? then [ns[0]] else []) + SiblingElements(ns[1..])
  }

  /** `soup(['script', 'style'])` each `decompose()`d: those subtrees removed. */
  function RemoveScripts(n: Node): Node {
    match n
    case Text(t) => n
    case Element(name, attrs, children) => Element(name, attrs, RemoveScriptsForest(children))
  }

  function RemoveScriptsForest(forest: seq<Node>): seq<Node> {
    if forest == [] then []
    else
      (if NameIn(forest[0], ["script", "style"]) then [] else [RemoveScripts(forest[0])])
      + RemoveScriptsForest(forest[1..])
  }

  /** What is left after removing scripts and styles holds no script or style element. */
  lemma {:induction false} NoScriptsLeft(forest: seq<Node>)
    ensures forall n :: n in Flatten(RemoveScriptsForest(forest)) ==> !NameIn(n, ["script", "style"])
  {
    if forest != [] {
      var head := if NameIn(forest[0], ["script", "style"]) then [] else [RemoveScripts(forest[0])];
      NoScriptsLeft(forest[1..]);
      FlattenAppend(head, RemoveScriptsForest(forest[1..]));
      if head != [] {
        match forest[0]
        case Text(_) =>
        case Element(_, _, children) =>
          NoScriptsLeft(children);
          assert Flatten(head) == head + Flatten(RemoveScriptsForest(children));
      }
    }
  }

  lemma {:induction false} FlattenAppend(a: seq<Node>, b: seq<Node>)
    ensures Flatten(a + b) == Flatten(a) + Flatten(b)
  {
    if a == [] {
      assert a + b == b;
    } else {
      assert (a + b)[0] == a[0] && (a + b)[1..] == a[1..] + b;
      FlattenAppend(a[1..], b);
    }
  }
}
