/** The subset of Python's `str` methods the scraper and the analyzers use,
    written out so that their edge cases are explicit. */
module Strings {
  import opened Wrappers

  /** Python's `c.isspace()`: the ASCII blank and the controls tab to carriage return and 0x1C to 0x1F,
      plus the Unicode spaces and separators; `\s` and `str.strip()` use the same set. */
  predicate IsSpace(c: char) {
    || c == ' ' || '\t' <= c <= '\r' || '\U{1C}' <= c <= '\U{1F}'
    || c == '\U{85}' || c == '\U{A0}' || c == '\U{1680}' || '\U{2000}' <= c <= '\U{200A}'
    || c == '\U{2028}' || c == '\U{2029}' || c == '\U{202F}' || c == '\U{205F}' || c == '\U{3000}'
  }

  /** `c.isdigit()` restricted to the ASCII digits. */
  predicate IsDigit(c: char) {
    '0' <= c <= '9'
  }

  /** `str.lower()` on one character, for the ASCII letters. */
  function LowerChar(c: char): char {
    if 'A' <= c <= 'Z' then (c as int + 32) as char else c
  }

  /** `s.lower()`, mapping ASCII capitals and leaving every other character alone. */
  function Lower(s: string): (r: string)
    ensures |r| == |s|
    ensures forall i :: 0 <= i < |s| ==> r[i] == LowerChar(s[i])
  {
    seq(|s|, i requires 0 <= i < |s| => LowerChar(s[i]))
  }

  lemma LowerIdempotent(s: string)
    ensures Lower(Lower(s)) == Lower(s)
  {
  }

  /** `p` occurs in `s` starting at index `j`. */
  predicate OccursAt(s: string, p: string, j: int) {
    0 <= j && j + |p| <= |s| && s[j..j + |p|] == p
  }

  /** `s.startswith(p)`. */
  predicate StartsWith(s: string, p: string) {
    |p| <= |s| && s[..|p|] == p
  }

  /** `s.find(p)`: the first index where `p` occurs, if any. That no earlier index, and with
      `None` no index at all, holds `p` is `FindFirst`. */
  function Find(s: string, p: string): (r: Option<nat>)
    ensures r.Some? ==> OccursAt(s, p, r.value)
    decreases |s|
  {
    if |p| > |s| then None
    else if s[..|p|] == p then Some(0)
    else
      match Find(s[1..], p)
      case None => None
      case Some(k) =>
        assert s[1..][k..k + |p|] == s[k + 1..k + 1 + |p|];
        Some(k + 1)
  }

  /** `Find` gives the first occurrence, and `None` only when there is none. */
  lemma {:induction false} FindFirst(s: string, p: string)
    ensures Find(s, p).Some? ==> forall j :: 0 <= j < Find(s, p).value ==> !OccursAt(s, p, j)
    ensures Find(s, p).None? ==> forall j :: !OccursAt(s, p, j)
    decreases |s|
  {
    if |p| <= |s| && s[..|p|] != p {
      FindFirst(s[1..], p);
      forall j | OccursAt(s, p, j) ensures j > 0 && OccursAt(s[1..], p, j - 1) {
        assert s[1..][j - 1..j - 1 + |p|] == s[j..j + |p|];
      }
    }
  }

  /** No occurrence in a string that does not contain `p`. */
  lemma NotContainsNowhere(s: string, p: string, j: int)
    requires !Contains(s, p)
    ensures !OccursAt(s, p, j)
  {
    FindFirst(s, p);
  }

  /** `p in s`. */
  predicate Contains(s: string, p: string) {
    Find(s, p).Some?
  }

  /** `any(p in s for p in ps)`. */
  predicate ContainsAny(s: string, ps: seq<string>) {
    exists p :: p in ps && Contains(s, p)
  }

  /** `s.startswith(tuple(ps))`. */
  predicate StartsWithAny(s: string, ps: seq<string>) {
    exists p :: p in ps && StartsWith(s, p)
  }

  lemma ContainsAt(s: string, p: string, j: int)
    requires OccursAt(s, p, j)
    ensures Contains(s, p)
  {
    FindFirst(s, p);
  }

  /** A slice keeps whatever it does not contain out of the whole. */
  lemma NotContainsSlice(s: string, p: string, a: nat, b: nat)
    requires a <= b <= |s|
    requires !Contains(s, p)
    ensures !Contains(s[a..b], p)
  {
    FindFirst(s, p);
    forall j | OccursAt(s[a..b], p, j) ensures OccursAt(s, p, a + j) {
      forall k | 0 <= k < |p| ensures s[a + j + k] == p[k] {
        assert s[a..b][j..j + |p|][k] == p[k];
      }
      assert s[a + j..a + j + |p|] == p;
    }
  }

  /** `s.split(sep)` for a non-empty separator: the pieces between the
      non-overlapping occurrences of `sep`, scanned from the left. */
  function Split(s: string, sep: string): (r: seq<string>)
    requires sep != []
    ensures |r| >= 1
    decreases |s|
  {
    match Find(s, sep)
    case None => [s]
    case Some(i) => [s[..i]] + Split(s[i + |sep|..], sep)
  }

  /** `sep.join(parts)`. */
  function Join(sep: string, parts: seq<string>): string
  {
    if parts == [] then ""
    else if |parts| == 1 then parts[0]
    else parts[0] + sep + Join(sep, parts[1..])
  }

  /** Joining non-empty parts is empty only for no parts, and starts with the first part. */
  lemma {:induction false} JoinNonEmpty(parts: seq<string>)
    requires forall i :: 0 <= i < |parts| ==> parts[i] != ""
    ensures Join(" ", parts) == "" <==> parts == []
    ensures parts != [] ==> StartsWith(Join(" ", parts), parts[0])
  {
    if |parts| > 1 {
      assert Join(" ", parts) == parts[0] + " " + Join(" ", parts[1..]);
      assert (parts[0] + " " + Join(" ", parts[1..]))[..|parts[0]|] == parts[0];
    }
  }

  /** Splitting and joining again gives back the original string. */
  lemma {:induction false} JoinSplit(s: string, sep: string)
    requires sep != []
    ensures Join(sep, Split(s, sep)) == s
    decreases |s|
  {
    match Find(s, sep)
    case None =>
      assert Split(s, sep) == [s];
    case Some(i) =>
      var rest := s[i + |sep|..];
      JoinSplit(rest, sep);
      SplitAtFirst(s, sep);
      assert rest == s[Find(s, sep).value + |sep|..];
      JoinPrepend(sep, s[..i], Split(rest, sep));
      Reassemble(s, sep, i);
  }

  /** The text around an occurrence, with the occurrence put back, is the whole string. */
  lemma Reassemble(s: string, p: string, i: nat)
    requires OccursAt(s, p, i)
    ensures s[..i] + p + s[i + |p|..] == s
  {
    assert s == s[..i] + s[i..i + |p|] + s[i + |p|..];
  }

  lemma JoinPrepend(sep: string, x: string, xs: seq<string>)
    requires xs != []
    ensures Join(sep, [x] + xs) == x + sep + Join(sep, xs)
  {
    assert ([x] + xs)[1..] == xs;
  }

  /** The first piece of a split, and every piece, is free of the separator. */
  lemma {:induction false} SplitPiecesFree(s: string, sep: string)
    requires sep != []
    ensures forall k :: 0 <= k < |Split(s, sep)| ==> !Contains(Split(s, sep)[k], sep)
    decreases |s|
  {
    match Find(s, sep)
    case None =>
      assert Split(s, sep) == [s];
    case Some(i) =>
      var rest := s[i + |sep|..];
      SplitPiecesFree(rest, sep);
      BeforeFirstFree(s, sep);
      SplitAtFirst(s, sep);
      assert rest == s[Find(s, sep).value + |sep|..];
      var parts := Split(s, sep);
      forall k | 0 <= k < |parts| ensures !Contains(parts[k], sep) {
        if k > 0 {
          assert parts[k] == Split(rest, sep)[k - 1];
        }
      }
  }

  /** There is more than one piece exactly when the separator occurs. */
  lemma SplitMoreThanOne(s: string, sep: string)
    requires sep != []
    ensures |Split(s, sep)| > 1 <==> Contains(s, sep)
  {
  }

  /** `s.split(sep, 1)` when `sep` occurs: the text before and after its first occurrence. */
  function SplitOnce(s: string, sep: string): (r: (string, string))
    requires sep != [] && Contains(s, sep)
    ensures r.0 + sep + r.1 == s
    ensures !Contains(r.0, sep)
  {
    var i := Find(s, sep).value;
    assert s == s[..i] + sep + s[i + |sep|..];
    BeforeFirstFree(s, sep);
    (s[..i], s[i + |sep|..])
  }

  /** The text before the first occurrence of `sep` does not contain it. */
  lemma BeforeFirstFree(s: string, sep: string)
    requires sep != [] && Find(s, sep).Some?
    ensures !Contains(s[..Find(s, sep).value], sep)
  {
    var i := Find(s, sep).value;
    FindFirst(s, sep);
    forall j | OccursAt(s[..i], sep, j) ensures OccursAt(s, sep, j) && j < i {
      assert s[..i][j..j + |sep|] == s[j..j + |sep|];
    }
  }

  /** The first piece of `s.split(sep)` runs up to the first occurrence of `sep`, or to the end. */
  lemma FirstPiece(s: string, sep: string) returns (j: nat)
    requires sep != []
    ensures j <= |s| && Split(s, sep)[0] == s[..j]
    ensures !Contains(s[..j], sep)
    ensures j == |s| || OccursAt(s, sep, j)
  {
    match Find(s, sep)
    case None =>
      j := |s|;
      assert s[..j] == s;
    case Some(i) =>
      j := i;
      BeforeFirstFree(s, sep);
  }

  /** The second piece of `s.split(sep)`, when `sep` occurs, is the first piece of what follows
      its first occurrence. */
  lemma SecondPiece(s: string, sep: string)
    requires sep != [] && Contains(s, sep)
    ensures |Split(s, sep)| > 1
    ensures Split(s, sep)[1] == Split(s[Find(s, sep).value + |sep|..], sep)[0]
  {
    SplitAtFirst(s, sep);
  }

  /** Unfolding `Split` once where `sep` occurs. */
  lemma SplitAtFirst(s: string, sep: string)
    requires sep != [] && Contains(s, sep)
    ensures Split(s, sep) == [s[..Find(s, sep).value]] + Split(s[Find(s, sep).value + |sep|..], sep)
  {
  }

  /** An occurrence in a slice is an occurrence in the whole string. */
  lemma OccursFromSlice(s: string, p: string, a: nat, b: nat, j: nat)
    requires a <= b <= |s| && OccursAt(s[a..b], p, j)
    ensures OccursAt(s, p, a + j)
  {
    forall k | 0 <= k < |p| ensures s[a + j + k] == p[k] {
      assert s[a..b][j..j + |p|][k] == p[k];
    }
    assert s[a + j..a + j + |p|] == p;
  }

  /** The second piece of `s.split(sep)` is the slice after the first `sep`, up to the next
      `sep` or the end. */
  lemma SecondPieceSlice(s: string, sep: string) returns (start: nat, end: nat)
    requires sep != [] && Contains(s, sep)
    ensures |sep| <= start <= end <= |s|
    ensures Find(s, sep) == Some(start - |sep|)
    ensures |Split(s, sep)| > 1 && Split(s, sep)[1] == s[start..end]
    ensures !Contains(s[start..end], sep)
    ensures end == |s| || OccursAt(s, sep, end)
  {
    start := SecondPieceStart(s, sep);
    var j := FirstPieceFrom(s, sep, start);
    end := start + j;
  }

  /** Where the second piece of `s.split(sep)` begins, when `sep` occurs. */
  lemma SecondPieceStart(s: string, sep: string) returns (start: nat)
    requires sep != [] && Contains(s, sep)
    ensures |sep| <= start <= |s| && Find(s, sep) == Some(start - |sep|)
    ensures |Split(s, sep)| > 1 && Split(s, sep)[1] == Split(s[start..], sep)[0]
  {
    start := Find(s, sep).value + |sep|;
    SecondPiece(s, sep);
  }

  /** When `sep` occurs, the last piece of the split is the last piece of the split of what
      follows its first occurrence. */
  lemma SplitLastStep(s: string, sep: string) returns (i: nat)
    requires sep != [] && Contains(s, sep)
    ensures Find(s, sep) == Some(i) && i + |sep| <= |s|
    ensures var tail := Split(s[i + |sep|..], sep); Split(s, sep)[|Split(s, sep)| - 1] == tail[|tail| - 1]
  {
    i := Find(s, sep).value;
    var tail := Split(s[i + |sep|..], sep);
    assert Split(s, sep) == [s[..i]] + tail;
    LastOfCons(s[..i], tail);
  }

  /** The last piece of `s.split(sep)` does not contain `sep`. */
  lemma {:induction false} LastPieceFree(s: string, sep: string)
    requires sep != []
    ensures !Contains(Split(s, sep)[|Split(s, sep)| - 1], sep)
    decreases |s|
  {
    if Contains(s, sep) {
      var i := SplitLastStep(s, sep);
      LastPieceFree(s[i + |sep|..], sep);
    }
  }

  /** Where the last piece of `s.split(sep)` begins: at the start, or right after an occurrence
      of `sep`. */
  function LastPieceStart(s: string, sep: string): (start: nat)
    requires sep != []
    ensures start <= |s|
    ensures start == 0 || (start >= |sep| && OccursAt(s, sep, start - |sep|))
    decreases |s|
  {
    match Find(s, sep)
    case None => 0
    case Some(i) =>
      var st := LastPieceStart(s[i + |sep|..], sep);
      if st > 0 then
        OccursFromSuffix(s, sep, i + |sep|, st - |sep|);
        i + |sep| + st
      else i + |sep| + st
  }

  /** The last piece of `s.split(sep)` is the suffix from `LastPieceStart`. */
  lemma {:induction false} LastPieceSuffix(s: string, sep: string)
    requires sep != []
    ensures Split(s, sep)[|Split(s, sep)| - 1] == s[LastPieceStart(s, sep)..]
    decreases |s|
  {
    if !Contains(s, sep) {
      assert s[0..] == s;
    } else {
      var i := SplitLastStep(s, sep);
      var rest := s[i + |sep|..];
      LastPieceSuffix(rest, sep);
      assert rest[LastPieceStart(rest, sep)..] == s[LastPieceStart(s, sep)..];
    }
  }

  /** When `sep` occurs, the first piece of the split ends at its first occurrence and the last
      piece starts after its last occurrence, at or after the first. */
  lemma OuterPieces(s: string, sep: string)
    requires sep != [] && Contains(s, sep)
    ensures var i := Find(s, sep).value; var start := LastPieceStart(s, sep);
      && i + |sep| <= start <= |s| && OccursAt(s, sep, start - |sep|)
      && Split(s, sep)[0] == s[..i]
      && Split(s, sep)[|Split(s, sep)| - 1] == s[start..]
      && !Contains(s[start..], sep)
  {
    FirstPieceAt(s, sep);
    LastPieceSuffix(s, sep);
    LastPieceFree(s, sep);
    var start := LastPieceStart(s, sep);
    assert s[0..] == s;
    assert start >= |sep|;
    FindFirst(s, sep);
  }

  /** `OuterPieces` for a one-character separator, by index: the first piece ends at `i` and the
      last starts after `j`, both positions of the separator. */
  lemma OuterPiecesAt(s: string, sep: string) returns (i: nat, j: nat)
    requires |sep| == 1 && Contains(s, sep)
    ensures Find(s, sep) == Some(i) && i <= j < |s| && s[j] == sep[0] && !Contains(s[j + 1..], sep)
    ensures Split(s, sep)[0] == s[..i] && Split(s, sep)[|Split(s, sep)| - 1] == s[j + 1..]
  {
    OuterPieces(s, sep);
    i := Find(s, sep).value;
    j := LastPieceStart(s, sep) - 1;
    assert s[j..j + 1] == sep;
  }

  /** When `sep` occurs, the first piece of the split is the text before its first occurrence. */
  lemma FirstPieceAt(s: string, sep: string)
    requires sep != [] && Contains(s, sep)
    ensures Split(s, sep)[0] == s[..Find(s, sep).value]
  {
  }

  lemma LastOfCons<T>(x: T, xs: seq<T>)
    requires xs != []
    ensures ([x] + xs)[|[x] + xs| - 1] == xs[|xs| - 1]
  {
  }

  /** The first piece of the split of a suffix, in the indices of the whole string. */
  lemma FirstPieceFrom(s: string, sep: string, a: nat) returns (j: nat)
    requires sep != [] && a <= |s|
    ensures a + j <= |s| && Split(s[a..], sep)[0] == s[a..a + j]
    ensures !Contains(s[a..a + j], sep)
    ensures a + j == |s| || OccursAt(s, sep, a + j)
  {
    var rest := s[a..];
    j := FirstPiece(rest, sep);
    SuffixSlice(s, a, j);
    if j < |rest| {
      OccursFromSuffix(s, sep, a, j);
    }
  }

  lemma SuffixSlice(s: string, start: nat, j: nat)
    requires start + j <= |s|
    ensures s[start..][..j] == s[start..start + j]
  {
  }

  /** An occurrence in a suffix is an occurrence in the whole string. */
  lemma OccursFromSuffix(s: string, p: string, a: nat, j: nat)
    requires a <= |s| && OccursAt(s[a..], p, j)
    ensures OccursAt(s, p, a + j)
  {
    assert s[a..][j..j + |p|] == s[a + j..a + j + |p|];
  }

  /** `s.split(sep)[1].split(stop)[0]` is the slice after the first `sep`, up to the next `sep`
      or `stop`, or the end. */
  lemma PieceBetween(s: string, sep: string, stop: string) returns (start: nat, end: nat)
    requires sep != [] && stop != [] && Contains(s, sep)
    ensures |sep| <= start <= end <= |s|
    ensures Find(s, sep) == Some(start - |sep|)
    ensures |Split(s, sep)| > 1 && Split(Split(s, sep)[1], stop)[0] == s[start..end]
    ensures !Contains(s[start..end], sep) && !Contains(s[start..end], stop)
    ensures end == |s| || OccursAt(s, sep, end) || OccursAt(s, stop, end)
  {
    var mid;
    start, mid := SecondPieceSlice(s, sep);
    var piece := s[start..mid];
    var j := FirstPiece(piece, stop);
    end := start + j;
    SliceOfSlice(s, start, mid, j);
    NotContainsPrefix(piece, sep, j);
    if j < |piece| {
      OccursFromSlice(s, stop, start, mid, j);
      assert OccursAt(s, stop, end);
    } else {
      assert end == mid;
    }
  }

  lemma SliceOfSlice(s: string, a: nat, b: nat, j: nat)
    requires a <= b <= |s| && j <= b - a
    ensures s[a..b][..j] == s[a..a + j]
  {
  }

  lemma NotContainsPrefix(s: string, p: string, j: nat)
    requires j <= |s| && !Contains(s, p)
    ensures !Contains(s[..j], p)
  {
    NotContainsSlice(s, p, 0, j);
    assert s[0..j] == s[..j];
  }

  /** `s.lstrip()`. */
  function LStrip(s: string): (r: string)
    ensures |r| <= |s| && r == s[|s| - |r|..]
    ensures r == [] || !IsSpace(r[0])
    ensures forall i :: 0 <= i < |s| - |r| ==> IsSpace(s[i])
  {
    if s != [] && IsSpace(s[0]) then
      var r := LStrip(s[1..]);
      assert s[1..][|s| - 1 - |r|..] == s[|s| - |r|..];
      assert forall i :: 1 <= i < |s| - |r| ==> s[i] == s[1..][i - 1];
      r
    else s
  }

  /** `s.rstrip()`. */
  function RStrip(s: string): (r: string)
    ensures |r| <= |s| && r == s[..|r|]
    ensures r == [] || !IsSpace(r[|r| - 1])
    ensures forall i :: |r| <= i < |s| ==> IsSpace(s[i])
  {
    if s != [] && IsSpace(s[|s| - 1]) then RStrip(s[..|s| - 1]) else s
  }

  /** `s.strip()`. */
  function Strip(s: string): string
  {
    RStrip(LStrip(s))
  }

  /** A string that neither starts nor ends with whitespace is left alone by `strip()`. */
  lemma StripNoEdgeSpace(s: string)
    requires s != [] && !IsSpace(s[0]) && !IsSpace(s[|s| - 1])
    ensures Strip(s) == s
  {
  }

  /** `s[a..b]` is what `strip()` keeps of `s`: everything outside it is whitespace, and it
      neither starts nor ends with whitespace. */
  predicate StrippedAt(s: string, a: int, b: int) {
    && 0 <= a <= b <= |s|
    && (forall i :: 0 <= i < |s| && (i < a || b <= i) ==> IsSpace(s[i]))
    && (a < b ==> !IsSpace(s[a]) && !IsSpace(s[b - 1]))
  }

  /** What `strip()` leaves is a slice of its argument with no surrounding whitespace. */
  lemma StripSlice(s: string) returns (a: nat, b: nat)
    ensures a == |s| - |LStrip(s)| && b == a + |Strip(s)|
    ensures a <= b <= |s| && Strip(s) == s[a..b]
    ensures Strip(s) == [] || (!IsSpace(Strip(s)[0]) && !IsSpace(Strip(s)[|Strip(s)| - 1]))
    ensures StrippedAt(s, a, b)
  {
    var l := LStrip(s);
    var r := RStrip(l);
    a := |s| - |l|;
    b := a + |r|;
    assert l == s[a..];
    SliceChain(s, l, r, a, b);
    forall i | b <= i < |s| ensures IsSpace(s[i]) {
      assert s[i] == l[i - a];
    }
  }

  /** What `strip()` leaves has no whitespace at either end and is its own strip. */
  lemma StripClean(s: string)
    ensures var r := Strip(s); (r == [] || (!IsSpace(r[0]) && !IsSpace(r[|r| - 1]))) && Strip(r) == r
  {
    var a, b := StripSlice(s);
    StripIdempotent(s);
  }

  /** A prefix of a suffix is a slice. */
  lemma SliceChain(s: string, l: string, r: string, a: nat, b: nat)
    requires a <= |s| && l == s[a..] && |r| <= |l| && b == a + |r| && r == l[..|r|]
    ensures b <= |s| && r == s[a..b]
  {
    assert s[a..][..|r|] == s[a..b];
  }

  /** Stripping twice is stripping once. */
  lemma StripIdempotent(s: string)
    ensures Strip(Strip(s)) == Strip(s)
  {
    var a, b := StripSlice(s);
    if Strip(s) != [] {
      StripNoEdgeSpace(Strip(s));
    }
  }

  /** An occurrence inside a slice is an occurrence in the slice. */
  lemma OccursInSlice(s: string, p: string, j: nat, a: nat, b: nat)
    requires OccursAt(s, p, j) && a <= j && j + |p| <= b <= |s|
    ensures OccursAt(s[a..b], p, j - a)
  {
    forall k | 0 <= k < |p| ensures s[a..b][j - a + k] == p[k] {
      assert s[j..j + |p|][k] == p[k];
    }
    assert s[a..b][j - a..j - a + |p|] == p;
  }

  /** Stripping keeps every occurrence of a text that neither starts nor ends with whitespace. */
  lemma StripKeeps(s: string, p: string)
    requires Contains(s, p) && p != [] && !IsSpace(p[0]) && !IsSpace(p[|p| - 1])
    ensures Contains(Strip(s), p)
  {
    var j := Find(s, p).value;
    OccursEdges(s, p, j);
    StripRange(s, j, j + |p| - 1, p[0], p[|p| - 1]);
    var a, b := StripSlice(s);
    ContainsInSlice(s, p, j, a, b, Strip(s));
  }

  /** A slice that holds an occurrence contains the text. */
  lemma ContainsInSlice(s: string, p: string, j: nat, a: nat, b: nat, t: string)
    requires OccursAt(s, p, j) && a <= j && j + |p| <= b <= |s| && t == s[a..b]
    ensures Contains(t, p)
  {
    OccursInSlice(s, p, j, a, b);
    ContainsAt(s[a..b], p, j - a);
  }

  lemma OccursEdges(s: string, p: string, j: nat)
    requires OccursAt(s, p, j) && p != []
    ensures s[j] == p[0] && s[j + |p| - 1] == p[|p| - 1]
  {
    assert s[j..j + |p|][0] == s[j];
    assert s[j..j + |p|][|p| - 1] == s[j + |p| - 1];
  }

  /** Stripping keeps everything from one non-space character to another. */
  lemma StripRange(s: string, lo: nat, hi: nat, c: char, d: char)
    requires lo <= hi < |s| && s[lo] == c && s[hi] == d && !IsSpace(c) && !IsSpace(d)
    ensures |s| - |LStrip(s)| <= lo && hi < |s| - |LStrip(s)| + |Strip(s)|
  {
    StripBounds(s, lo, c);
    StripBounds(s, hi, d);
  }

  /** A non-space character of `s` lies inside the slice that `strip()` keeps. */
  lemma StripBounds(s: string, i: nat, c: char)
    requires i < |s| && s[i] == c && !IsSpace(c)
    ensures |s| - |LStrip(s)| <= i < |s| - |LStrip(s)| + |Strip(s)|
  {
    var l := LStrip(s);
    var a := |s| - |l|;
    assert a <= i;
    assert l[i - a] == s[i];
  }

  /** `s.strip(chars)`: remove any of `chars` from both ends. */
  function StripChars(s: string, chars: set<char>): (r: string)
    ensures |r| <= |s|
    ensures r == [] || (r[0] !in chars && r[|r| - 1] !in chars)
    decreases |s|
  {
    if s != [] && s[0] in chars then StripChars(s[1..], chars)
    else if s != [] && s[|s| - 1] in chars then StripChars(s[..|s| - 1], chars)
    else s
  }

  /** Length of the leading run of non-whitespace characters. */
  function WordLength(s: string): (n: nat)
    ensures n <= |s|
    ensures n == |s| || IsSpace(s[n])
  {
    if s == [] || IsSpace(s[0]) then 0 else 1 + WordLength(s[1..])
  }

  /** The leading word is free of whitespace. */
  lemma {:induction false} WordLengthWord(s: string)
    ensures WordLength(s) > 0 ==> IsWord(s[..WordLength(s)])
    decreases |s|
  {
    var n := WordLength(s);
    if n > 1 {
      WordLengthWord(s[1..]);
      assert s[..n] == [s[0]] + s[1..][..n - 1];
    }
  }

  /** `s.split()`: the maximal runs of non-whitespace characters. */
  function SplitWs(s: string): (r: seq<string>)
    decreases |s|
  {
    var t := LStrip(s);
    if t == [] then []
    else
      var n := WordLength(t);
      [t[..n]] + SplitWs(t[n..])
  }

  /** A word of `str.split()`: non-empty and free of whitespace. */
  predicate IsWord(w: string) {
    w != [] && forall i :: 0 <= i < |w| ==> !IsSpace(w[i])
  }

  /** Unfolding `SplitWs` once at a string that starts with a word. */
  lemma SplitWsUnfold(s: string)
    requires s != [] && !IsSpace(s[0])
    ensures SplitWs(s) == [s[..WordLength(s)]] + SplitWs(s[WordLength(s)..])
  {
    assert LStrip(s) == s;
  }

  /** Every piece of `SplitWs` is a word. */
  lemma {:induction false} SplitWsWords(s: string)
    ensures forall k :: 0 <= k < |SplitWs(s)| ==> IsWord(SplitWs(s)[k])
    decreases |s|
  {
    var t := LStrip(s);
    if t != [] {
      var n := WordLength(t);
      var w := t[..n];
      WordLengthWord(t);
      var rest := SplitWs(t[n..]);
      SplitWsWords(t[n..]);
      var r := [w] + rest;
      assert SplitWs(s) == r;
      forall k | 0 <= k < |r| ensures IsWord(r[k]) {
        if k > 0 {
          assert r[k] == rest[k - 1];
        }
      }
    }
  }

  /** Joining words with single spaces and splitting on whitespace gives the words back. */
  lemma {:induction false} SplitWsJoin(ws: seq<string>)
    requires forall k :: 0 <= k < |ws| ==> IsWord(ws[k])
    ensures SplitWs(Join(" ", ws)) == ws
    decreases |ws|
  {
    if ws == [] {
      assert LStrip("") == "";
    } else if |ws| == 1 {
      SplitWsSingle(ws[0]);
    } else {
      SplitWsJoin(ws[1..]);
      SplitWsJoinStep(ws);
    }
  }

  lemma SplitWsJoinStep(ws: seq<string>)
    requires |ws| > 1 && IsWord(ws[0]) && SplitWs(Join(" ", ws[1..])) == ws[1..]
    ensures SplitWs(Join(" ", ws)) == ws
  {
    SplitWsJoinCons(ws);
    HeadTail(ws, SplitWs(Join(" ", ws)), SplitWs(Join(" ", ws[1..])));
  }

  lemma HeadTail<T>(xs: seq<T>, whole: seq<T>, tail: seq<T>)
    requires xs != [] && whole == [xs[0]] + tail && tail == xs[1..]
    ensures whole == xs
  {
  }

  lemma SplitWsJoinCons(ws: seq<string>)
    requires |ws| > 1 && IsWord(ws[0])
    ensures SplitWs(Join(" ", ws)) == [ws[0]] + SplitWs(Join(" ", ws[1..]))
  {
    JoinCons(ws);
    SplitWsCons(ws[0], Join(" ", ws[1..]));
  }

  lemma JoinCons(ws: seq<string>)
    requires |ws| > 1
    ensures Join(" ", ws) == ws[0] + " " + Join(" ", ws[1..])
  {
  }

  lemma SplitWsSingle(w: string)
    requires IsWord(w)
    ensures SplitWs(w) == [w]
  {
    WordLengthOfWord(w, "");
    assert w + "" == w;
    SplitWsUnfold(w);
    assert LStrip(w[|w|..]) == "";
  }

  lemma SplitWsCons(w: string, rest: string)
    requires IsWord(w)
    ensures SplitWs(w + " " + rest) == [w] + SplitWs(rest)
  {
    var tail := " " + rest;
    assert w + " " + rest == w + tail;
    WordLengthOfWord(w, tail);
    SplitWsUnfold(w + tail);
    assert (w + tail)[..|w|] == w;
    assert (w + tail)[|w|..] == tail;
    SplitWsLeadingSpace(rest);
  }

  lemma {:induction false} WordLengthOfWord(w: string, tail: string)
    requires IsWord(w) || w == []
    requires tail == [] || IsSpace(tail[0])
    ensures WordLength(w + tail) == |w|
    decreases |w|
  {
    if w != [] {
      assert (w + tail)[1..] == w[1..] + tail;
      WordLengthOfWord(w[1..], tail);
    } else {
      assert w + tail == tail;
    }
  }

  lemma SplitWsLeadingSpace(rest: string)
    ensures SplitWs(" " + rest) == SplitWs(rest)
  {
    assert (" " + rest)[1..] == rest;
    assert LStrip(" " + rest) == LStrip(rest);
  }

  /** Length of the leading run of characters that are in `cs` (when `inside`) or not in it. */
  function RunLength(s: string, cs: set<char>, inside: bool): (n: nat)
    ensures n <= |s|
    ensures n == |s| || (s[n] in cs) != inside
  {
    if s == [] || (s[0] in cs) != inside then 0 else 1 + RunLength(s[1..], cs, inside)
  }

  /** Every character of the run is on the side of `cs` the run is measured for. */
  lemma {:induction false} RunLengthAt(s: string, cs: set<char>, inside: bool, i: nat)
    requires i < RunLength(s, cs, inside)
    ensures (s[i] in cs) == inside
  {
    if i > 0 {
      RunLengthAt(s[1..], cs, inside, i - 1);
    }
  }

  /** The run as a whole. */
  lemma RunLengthAll(s: string, cs: set<char>, inside: bool)
    ensures forall i :: 0 <= i < RunLength(s, cs, inside) ==> (s[i] in cs) == inside
  {
    forall i | 0 <= i < RunLength(s, cs, inside) ensures (s[i] in cs) == inside {
      RunLengthAt(s, cs, inside, i);
    }
  }

  /** `re.split('[...]+', s)`: the pieces between the maximal runs of characters from `cs`. */
  function SplitRuns(s: string, cs: set<char>): (r: seq<string>)
    ensures |r| >= 1
    decreases |s|
  {
    var n := RunLength(s, cs, false);
    if n == |s| then [s]
    else
      var m := RunLength(s[n..], cs, true);
      [s[..n]] + SplitRuns(s[n + m..], cs)
  }

  /** No piece of `SplitRuns` holds a delimiter. */
  lemma {:induction false} SplitRunsPieces(s: string, cs: set<char>)
    ensures forall k, i :: 0 <= k < |SplitRuns(s, cs)| && 0 <= i < |SplitRuns(s, cs)[k]| ==> SplitRuns(s, cs)[k][i] !in cs
    decreases |s|
  {
    var n := RunLength(s, cs, false);
    if n < |s| {
      var m := RunLength(s[n..], cs, true);
      var rest := SplitRuns(s[n + m..], cs);
      SplitRunsPieces(s[n + m..], cs);
      var r := [s[..n]] + rest;
      assert SplitRuns(s, cs) == r;
      forall k, i | 0 <= k < |r| && 0 <= i < |r[k]| ensures r[k][i] !in cs {
        if k > 0 {
          assert r[k] == rest[k - 1];
        } else {
          RunLengthAt(s, cs, false, i);
        }
      }
    } else {
      forall i | 0 <= i < |s| ensures s[i] !in cs {
        RunLengthAt(s, cs, false, i);
      }
    }
  }

  /** `s` with every character from `cs` removed. */
  function Remove(s: string, cs: set<char>): string {
    if s == [] then [] else (if s[0] in cs then [] else [s[0]]) + Remove(s[1..], cs)
  }

  /** The concatenation of a list of strings. */
  function Concat(ss: seq<string>): string {
    if ss == [] then [] else ss[0] + Concat(ss[1..])
  }

  lemma ConcatCons(x: string, xs: seq<string>)
    ensures Concat([x] + xs) == x + Concat(xs)
  {
    assert ([x] + xs)[1..] == xs;
  }

  lemma {:induction false} RemoveAppend(a: string, b: string, cs: set<char>)
    ensures Remove(a + b, cs) == Remove(a, cs) + Remove(b, cs)
    decreases |a|
  {
    if a != [] {
      assert (a + b)[1..] == a[1..] + b;
      RemoveAppend(a[1..], b, cs);
    } else {
      assert a + b == b;
    }
  }

  lemma {:induction false} RemoveAll(s: string, cs: set<char>, inside: bool)
    requires forall i :: 0 <= i < |s| ==> (s[i] in cs) == inside
    ensures Remove(s, cs) == if inside then [] else s
    decreases |s|
  {
    if s != [] {
      RemoveAll(s[1..], cs, inside);
    }
  }

  /** Gluing the pieces of `SplitRuns` back together gives `s` without its delimiters. */
  lemma {:induction false} SplitRunsConcat(s: string, cs: set<char>)
    ensures Concat(SplitRuns(s, cs)) == Remove(s, cs)
    decreases |s|
  {
    var n := RunLength(s, cs, false);
    forall i | 0 <= i < |s[..n]| ensures (s[..n][i] in cs) == false {
      RunLengthAt(s, cs, false, i);
    }
    RemoveAll(s[..n], cs, false);
    if n == |s| {
      assert s[..n] == s;
      assert Concat([s]) == s + Concat([]);
    } else {
      var m := RunLength(s[n..], cs, true);
      SplitRunsConcat(s[n + m..], cs);
      SplitRunsStep(s, cs, n, m);
    }
  }

  lemma SliceThree(s: string, i: nat, j: nat)
    requires i <= j <= |s|
    ensures s == s[..i] + (s[i..j] + s[j..])
  {
  }

  lemma SplitRunsStep(s: string, cs: set<char>, n: nat, m: nat)
    requires n == RunLength(s, cs, false) < |s| && m == RunLength(s[n..], cs, true)
    requires Concat(SplitRuns(s[n + m..], cs)) == Remove(s[n + m..], cs)
    ensures Concat(SplitRuns(s, cs)) == Remove(s, cs)
  {
    var rest := s[n + m..];
    SplitRunsUnfold(s, cs, n, m);
    ConcatCons(s[..n], SplitRuns(rest, cs));
    RemoveAtRun(s, cs, n, m);
  }

  /** Unfolding `SplitRuns` once at a string with a delimiter in it. */
  lemma SplitRunsUnfold(s: string, cs: set<char>, n: nat, m: nat)
    requires n == RunLength(s, cs, false) < |s| && m == RunLength(s[n..], cs, true)
    ensures n + m <= |s| && SplitRuns(s, cs) == [s[..n]] + SplitRuns(s[n + m..], cs)
  {
  }

  /** Removing delimiters from a string that starts with a piece and a delimiter run. */
  lemma RemoveAtRun(s: string, cs: set<char>, n: nat, m: nat)
    requires n == RunLength(s, cs, false) && m == RunLength(s[n..], cs, true)
    ensures n + m <= |s| && Remove(s, cs) == s[..n] + Remove(s[n + m..], cs)
  {
    RunLengthAll(s, cs, false);
    RunShift(s, cs, n, m);
    RemoveDelimited(s, cs, n, n + m);
  }

  /** A run measured on a suffix, in the indices of the whole string. */
  lemma RunShift(s: string, cs: set<char>, n: nat, m: nat)
    requires n <= |s| && m == RunLength(s[n..], cs, true)
    ensures n + m <= |s| && forall i :: n <= i < n + m ==> s[i] in cs
  {
    forall i | n <= i < n + m ensures s[i] in cs {
      RunLengthAt(s[n..], cs, true, i - n);
      assert s[n..][i - n] == s[i];
    }
  }

  /** Removing delimiters from a piece, a delimiter run and the rest. */
  lemma RemoveDelimited(s: string, cs: set<char>, n: nat, k: nat)
    requires n <= k <= |s|
    requires forall i :: 0 <= i < n ==> s[i] !in cs
    requires forall i :: n <= i < k ==> s[i] in cs
    ensures Remove(s, cs) == s[..n] + Remove(s[k..], cs)
  {
    SliceThree(s, n, k);
    RemoveAll(s[..n], cs, false);
    RemoveAppend(s[..n], s[n..k] + s[k..], cs);
    RemoveAppend(s[n..k], s[k..], cs);
    RemoveAll(s[n..k], cs, true);
  }

  /** Number of characters of `s` that are in `cs` (`len(re.findall('[...]', s))`). */
  function CountIn(s: string, cs: set<char>): (n: nat)
    ensures n <= |s|
  {
    if s == [] then 0 else (if s[0] in cs then 1 else 0) + CountIn(s[1..], cs)
  }

  /** `any(ch.isdigit() for ch in s)`. */
  predicate HasDigit(s: string) {
    exists i :: 0 <= i < |s| && IsDigit(s[i])
  }
}
