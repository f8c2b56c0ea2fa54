/** `WebsiteScraper._clean_text`: the chain of regular-expression substitutions that turns the
    text of an element into one line of prose, each substitution written out as a left-to-right
    scanner with the leftmost-match behaviour of Python's `re.sub`. */
module Cleaning {
  import opened Wrappers
  import opened Strings

  /** `re.sub(open + '.*?' + close, '', s, flags=re.DOTALL)`: from each `open`, everything up to and
      including the first `close` after it is deleted; an `open` with no `close` after it stays. */
  function RemoveSpans(s: string, open: string, close: string): (r: string)
    requires open != []
    ensures |r| <= |s|
    decreases |s|
  {
    if s == [] then []
    else if StartsWith(s, open) then
      match Find(s[|open|..], close)
      case Some(j) => RemoveSpans(s[|open| + j + |close|..], open, close)
      case None => [s[0]] + RemoveSpans(s[1..], open, close)
    else [s[0]] + RemoveSpans(s[1..], open, close)
  }

  /** `re.sub(r'<[^>]+>', ' ', s)`: a `<`, at least one character and the first `>` after it become
      one blank. */
  function ReplaceTags(s: string): (r: string)
    ensures |r| <= |s|
    decreases |s|
  {
    if s == [] then []
    else if s[0] == '<' then
      match Find(s[1..], ">")
      case Some(j) =>
        if j > 0 then " " + ReplaceTags(s[j + 2..]) else [s[0]] + ReplaceTags(s[1..])
      case None => [s[0]] + ReplaceTags(s[1..])
    else [s[0]] + ReplaceTags(s[1..])
  }

  /** `re.sub(r'\{[^}]*\}', '', s)`: a `{` through the first `}` after it is deleted. */
  function RemoveBraces(s: string): (r: string)
    ensures |r| <= |s|
    decreases |s|
  {
    if s == [] then []
    else if s[0] == '{' then
      match Find(s[1..], "}")
      case Some(j) => RemoveBraces(s[j + 2..])
      case None => [s[0]] + RemoveBraces(s[1..])
    else [s[0]] + RemoveBraces(s[1..])
  }

  /** The characters of `[a-z-]`. */
  predicate IsPropertyChar(c: char) {
    'a' <= c <= 'z' || c == '-'
  }

  /** Length of the leading run of `[a-z-]`. */
  function PropertyRun(s: string): (n: nat)
    ensures n <= |s|
    ensures forall i :: 0 <= i < n ==> IsPropertyChar(s[i])
    ensures n == |s| || !IsPropertyChar(s[n])
  {
    if s != [] && IsPropertyChar(s[0]) then 1 + PropertyRun(s[1..]) else 0
  }

  /** The length of a match of `[a-z-]+:[^;]+;` at the start of `s`, if there is one. The run of
      `[a-z-]` is taken whole: a shorter run would be followed by a letter or `-`, not by `:`. The
      value runs to the first `;`, which must not be the character right after `:`. */
  function DeclarationLength(s: string): (r: Option<nat>)
    ensures r.Some? ==> 4 <= r.value <= |s|
  {
    var n := PropertyRun(s);
    if 0 < n < |s| && s[n] == ':' then
      match Find(s[n + 1..], ";")
      case Some(j) => if j > 0 then Some(n + j + 2) else None
      case None => None
    else None
  }

  /** `re.sub(r'[a-z-]+:[^;]+;', '', s)`. */
  function RemoveDeclarations(s: string): (r: string)
    ensures |r| <= |s|
    decreases |s|
  {
    if s == [] then []
    else
      match DeclarationLength(s)
      case Some(k) => RemoveDeclarations(s[k..])
      case None => [s[0]] + RemoveDeclarations(s[1..])
  }

  /** The character class being collapsed: `[\n\t\r]` or `\s`. */
  predicate InClass(c: char, breaksOnly: bool) {
    if breaksOnly then c == '\n' || c == '\t' || c == '\r' else IsSpace(c)
  }

  /** `s` without its leading run of the class. */
  function DropRun(s: string, breaksOnly: bool): (r: string)
    ensures |r| <= |s| && r == s[|s| - |r|..]
    ensures r == [] || !InClass(r[0], breaksOnly)
  {
    if s != [] && InClass(s[0], breaksOnly) then
      var r := DropRun(s[1..], breaksOnly);
      assert s[1..][|s| - 1 - |r|..] == s[|s| - |r|..];
      r
    else s
  }

  /** `re.sub(r'[\n\t\r]+', ' ', s)` or `re.sub(r'\s+', ' ', s)`: every run of the class becomes one
      blank. */
  function Collapse(s: string, breaksOnly: bool): (r: string)
    ensures |r| <= |s|
    decreases |s|
  {
    if s == [] then []
    else if InClass(s[0], breaksOnly) then " " + Collapse(DropRun(s[1..], breaksOnly), breaksOnly)
    else [s[0]] + Collapse(s[1..], breaksOnly)
  }

  /** Lower-cased prefixes that mark a line of script rather than prose. */
  const CodeKeywords: seq<string> := ["var ", "function ", "class "]

  /** The case-sensitive prefixes, without the blank, that the extractors reject on top of that. */
  const CodePrefixes: seq<string> := ["var", "function", "class"]

  /** `_clean_text(text)`. */
  function CleanText(text: string): string {
    if text == "" then ""
    else
      var noScripts := RemoveSpans(text, "<script", "</script>");
      var noStyles := RemoveSpans(noScripts, "<style", "</style>");
      var noTags := ReplaceTags(noStyles);
      var noBlocks := RemoveBraces(noTags);
      var noDeclarations := RemoveDeclarations(noBlocks);
      var oneLine := Collapse(noDeclarations, true);
      var single := Collapse(oneLine, false);
      var t := Strip(single);
      if StartsWithAny(Lower(t), CodeKeywords) then "" else t
  }

  /** No two whitespace characters next to each other, and every whitespace character a blank. */
  predicate SingleSpaced(s: string) {
    && (forall i :: 0 <= i < |s| ==> IsSpace(s[i]) ==> s[i] == ' ')
    && (forall i :: 0 <= i < |s| - 1 ==> !(IsSpace(s[i]) && IsSpace(s[i + 1])))
  }

  /** What `\s+` collapsing leaves is single-spaced. */
  lemma {:induction false} CollapseSingleSpaced(s: string)
    ensures SingleSpaced(Collapse(s, false))
  {
    if s != [] {
      if IsSpace(s[0]) {
        var rest := DropRun(s[1..], false);
        CollapseSingleSpaced(rest);
        CollapseHead(rest, false);
        SpacedCons(' ', Collapse(rest, false));
      } else {
        CollapseSingleSpaced(s[1..]);
        SpacedCons(s[0], Collapse(s[1..], false));
      }
    }
  }

  /** Collapsing keeps a first character outside the class. */
  lemma CollapseHead(s: string, breaksOnly: bool)
    requires s == [] || !InClass(s[0], breaksOnly)
    ensures Collapse(s, breaksOnly) == [] || (s != [] && Collapse(s, breaksOnly)[0] == s[0])
  {
  }

  /** A character put before a single-spaced string keeps it single-spaced, unless it is whitespace
      other than a blank or comes before more whitespace. */
  lemma SpacedCons(c: char, t: string)
    requires SingleSpaced(t)
    requires IsSpace(c) ==> c == ' ' && (t == [] || !IsSpace(t[0]))
    ensures SingleSpaced([c] + t)
  {
    var r := [c] + t;
    forall i | 0 < i < |r| ensures r[i] == t[i - 1] {
    }
  }

  /** A slice of a single-spaced string is single-spaced. */
  lemma SingleSpacedSlice(s: string, a: nat, b: nat)
    requires SingleSpaced(s) && a <= b <= |s|
    ensures SingleSpaced(s[a..b])
  {
    var t := s[a..b];
    assert forall i :: 0 <= i < |t| ==> t[i] == s[a + i];
  }

  /** `_clean_text` maps the empty string to itself; otherwise its result is trimmed, holds no two
      whitespace characters in a row and no whitespace but blanks, and does not start, in lower case,
      with `var `, `function ` or `class `. */
  lemma CleanTextShape(text: string)
    ensures text == "" ==> CleanText(text) == ""
    ensures var r := CleanText(text); r == [] || (!IsSpace(r[0]) && !IsSpace(r[|r| - 1]))
    ensures SingleSpaced(CleanText(text))
    ensures !StartsWithAny(Lower(CleanText(text)), CodeKeywords)
  {
    if text != "" {
      var single := Collapse(Collapse(RemoveDeclarations(RemoveBraces(ReplaceTags(
        RemoveSpans(RemoveSpans(text, "<script", "</script>"), "<style", "</style>")))), true), false);
      CollapseSingleSpaced(Collapse(RemoveDeclarations(RemoveBraces(ReplaceTags(
        RemoveSpans(RemoveSpans(text, "<script", "</script>"), "<style", "</style>")))), true));
      var a, b := StripSlice(single);
      SingleSpacedSlice(single, a, b);
      if !StartsWithAny(Lower(Strip(single)), CodeKeywords) {
        assert CleanText(text) == Strip(single);
      } else {
        assert CleanText(text) == "";
        assert !StartsWithAny(Lower(""), CodeKeywords);
      }
    }
  }

  /** Text with no markup, braces or colons. */
  predicate Plain(s: string) {
    forall i :: 0 <= i < |s| ==> s[i] != '<' && s[i] != '{' && s[i] != ':'
  }

  lemma {:induction false} RemoveSpansPlain(s: string, open: string, close: string)
    requires Plain(s) && open != [] && open[0] == '<'
    ensures RemoveSpans(s, open, close) == s
  {
    if s != [] {
      assert !StartsWith(s, open);
      RemoveSpansPlain(s[1..], open, close);
    }
  }

  lemma {:induction false} ReplaceTagsPlain(s: string)
    requires Plain(s)
    ensures ReplaceTags(s) == s
  {
    if s != [] {
      ReplaceTagsPlain(s[1..]);
    }
  }

  lemma {:induction false} RemoveBracesPlain(s: string)
    requires Plain(s)
    ensures RemoveBraces(s) == s
  {
    if s != [] {
      RemoveBracesPlain(s[1..]);
    }
  }

  lemma {:induction false} RemoveDeclarationsPlain(s: string)
    requires Plain(s)
    ensures RemoveDeclarations(s) == s
  {
    if s != [] {
      var n := PropertyRun(s);
      assert n < |s| ==> s[n] != ':';
      RemoveDeclarationsPlain(s[1..]);
    }
  }

  lemma {:induction false} CollapseSingle(s: string, breaksOnly: bool)
    requires SingleSpaced(s)
    ensures Collapse(s, breaksOnly) == s
  {
    if s != [] {
      assert SingleSpaced(s[1..]) by {
        SingleSpacedSlice(s, 1, |s|);
        assert s[1..|s|] == s[1..];
      }
      CollapseSingle(s[1..], breaksOnly);
      if InClass(s[0], breaksOnly) {
        assert s[0] == ' ';
        assert s[1..] == [] || !IsSpace(s[1]);
        assert DropRun(s[1..], breaksOnly) == s[1..];
      }
      ConsTail(s);
    }
  }

  lemma ConsTail(s: string)
    requires s != []
    ensures [s[0]] + s[1..] == s
  {
  }

  /** A line of plain prose, single-spaced and trimmed, that does not start with a script keyword
      passes through `_clean_text` unchanged. */
  lemma CleanProse(text: string)
    requires Plain(text) && SingleSpaced(text)
    requires text == [] || (!IsSpace(text[0]) && !IsSpace(text[|text| - 1]))
    requires !StartsWithAny(Lower(text), CodeKeywords)
    ensures CleanText(text) == text
  {
    if text != "" {
      RemoveSpansPlain(text, "<script", "</script>");
      RemoveSpansPlain(text, "<style", "</style>");
      ReplaceTagsPlain(text);
      RemoveBracesPlain(text);
      RemoveDeclarationsPlain(text);
      CollapseSingle(text, true);
      CollapseSingle(text, false);
    }
  }
}
