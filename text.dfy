/**
 * The string operations the extractor relies on, with Python's semantics:
 * whitespace as `str.isspace` (which is also what `\s` and `str.strip()` use),
 * `str.split(sep)`, `str.find`/`str.rfind`, the `in` operator on strings,
 * slicing with negative and out-of-range bounds, and case mapping.
 * Case mapping is ASCII only.
 */
module Text {
  import opened Wrappers

  /** Python's `str.isspace()` for one character. */
  predicate IsSpace(c: char) {
    || ('\t' <= c <= '\r')
    || ('\U{1C}' <= c <= ' ')
    || c == '\U{85}' || c == '\U{A0}' || c == '\U{1680}'
    || ('\U{2000}' <= c <= '\U{200A}')
    || c == '\U{2028}' || c == '\U{2029}' || c == '\U{202F}' || c == '\U{205F}' || c == '\U{3000}'
  }

  predicate IsDigit(c: char) { '0' <= c <= '9' }

  predicate IsUpperLetter(c: char) { 'A' <= c <= 'Z' }

  predicate IsLetter(c: char) { 'A' <= c <= 'Z' || 'a' <= c <= 'z' }

  predicate AllSpace(s: string) {
    forall k :: 0 <= k < |s| ==> IsSpace(s[k])
  }

  function UpperChar(c: char): char {
    if 'a' <= c <= 'z' then (c as int - 32) as char else c
  }

  function LowerChar(c: char): char {
    if 'A' <= c <= 'Z' then (c as int + 32) as char else c
  }

  /** `s.upper()`, restricted to ASCII letters. */
  function Upper(s: string): (r: string)
    ensures |r| == |s|
    ensures forall k :: 0 <= k < |s| ==> r[k] == UpperChar(s[k])
  {
    seq(|s|, k requires 0 <= k < |s| => UpperChar(s[k]))
  }

  /** `s.lower()`, restricted to ASCII letters. */
  function Lower(s: string): (r: string)
    ensures |r| == |s|
    ensures forall k :: 0 <= k < |s| ==> r[k] == LowerChar(s[k])
  {
    seq(|s|, k requires 0 <= k < |s| => LowerChar(s[k]))
  }

  // ---------------------------------------------------------------- stripping

  /** `s.lstrip()`: the suffix of `s` that starts at its first non-space character. */
  function TrimLeft(s: string): (r: string)
    ensures |r| <= |s| && r == s[|s| - |r|..]
    ensures AllSpace(s[..|s| - |r|])
    ensures r == [] || !IsSpace(r[0])
  {
    var a := SpanFrom(s, 0, Space);
    assert forall k :: 0 <= k < a ==> s[..a][k] == s[k];
    s[a..]
  }

  /** The start of the run of whitespace that ends just before `j`. */
  function SpaceRunBefore(s: string, j: nat): (i: nat)
    requires j <= |s|
    ensures i <= j
    ensures forall k :: i <= k < j ==> IsSpace(s[k])
    ensures i > 0 ==> !IsSpace(s[i - 1])
  {
    if j == 0 || !IsSpace(s[j - 1]) then j else SpaceRunBefore(s, j - 1)
  }

  /** `s.rstrip()`: the prefix of `s` that ends at its last non-space character. */
  function TrimRight(s: string): (r: string)
    ensures |r| <= |s| && r == s[..|r|]
    ensures AllSpace(s[|r|..])
    ensures r == [] || !IsSpace(r[|r| - 1])
  {
    var i := SpaceRunBefore(s, |s|);
    assert forall k :: 0 <= k < |s| - i ==> s[i..][k] == s[i + k];
    s[..i]
  }

  /** `s.strip()`. */
  function Strip(s: string): (r: string)
    ensures r == [] || (!IsSpace(r[0]) && !IsSpace(r[|r| - 1]))
    ensures r == [] <==> AllSpace(s)
  {
    var l := TrimLeft(s);
    var r := TrimRight(l);
    assert r == [] ==> AllSpace(s) by {
      if r == [] {
        assert s == s[..|s| - |l|] + l;
        assert AllSpace(l) by { assert l[|r|..] == l; }
      }
    }
    r
  }

  // ---------------------------------------------------------- collapsing runs

  /** `re.sub(r'\s+', ' ', s)`: every maximal run of whitespace becomes one blank. */
  function Collapse(s: string): (r: string)
    ensures NoSpaceRuns(r)
    ensures r == [] <==> s == []
    ensures r != [] ==> (IsSpace(r[0]) <==> IsSpace(s[0]))
    ensures r != [] ==> (IsSpace(r[|r| - 1]) <==> IsSpace(s[|s| - 1]))
  {
    CollapseFromNoRuns(s, 0);
    CollapseFrom(s, 0)
  }

  /** `re.sub(r'\s+', ' ', s[i:])`. */
  function CollapseFrom(s: string, i: nat): (r: string)
    requires i <= |s|
    ensures r == [] <==> i == |s|
    ensures r != [] ==> (IsSpace(r[0]) <==> IsSpace(s[i]))
    ensures r != [] ==> (IsSpace(r[|r| - 1]) <==> IsSpace(s[|s| - 1]))
    decreases |s| - i
  {
    if i == |s| then []
    else
      var c := s[i];
      var next := if IsSpace(c) then SpanFrom(s, i, Space) else i + 1;
      var head := if IsSpace(c) then ' ' else c;
      var tail := CollapseFrom(s, next);
      assert next == |s| ==> IsSpace(s[|s| - 1]) == IsSpace(c);
      [head] + tail
  }

  /** The collapse leaves no runs of whitespace behind. */
  lemma {:induction false} CollapseFromNoRuns(s: string, i: nat)
    requires i <= |s|
    ensures NoSpaceRuns(CollapseFrom(s, i))
    decreases |s| - i
  {
    if i < |s| {
      var next := if IsSpace(s[i]) then SpanFrom(s, i, Space) else i + 1;
      var head := if IsSpace(s[i]) then ' ' else s[i];
      CollapseFromNoRuns(s, next);
      ConsNoSpaceRuns(head, CollapseFrom(s, next));
    }
  }

  /** Putting a character in front of a string without runs makes none, unless it starts one. */
  lemma ConsNoSpaceRuns(c: char, t: string)
    requires NoSpaceRuns(t)
    requires IsSpace(c) ==> c == ' ' && (t == [] || !IsSpace(t[0]))
    ensures NoSpaceRuns([c] + t)
    ensures t != [] ==> ([c] + t)[|t|] == t[|t| - 1]
  {
    var u := [c] + t;
    assert forall k :: 1 <= k < |u| ==> u[k] == t[k - 1];
  }

  /**
   * The whitespace of `s` is single blanks only: no other space character
   * and no two blanks next to each other.
   */
  predicate NoSpaceRuns(s: string) {
    forall k :: 0 <= k < |s| && IsSpace(s[k]) ==> s[k] == ' ' && (k + 1 < |s| ==> !IsSpace(s[k + 1]))
  }

  /** What `re.sub(r'\s+', ' ', s.strip())` always produces. */
  predicate Normalized(s: string) {
    NoSpaceRuns(s) && (s != [] ==> !IsSpace(s[0]) && !IsSpace(s[|s| - 1]))
  }

  /** `re.sub(r'\s+', ' ', s.strip())`, the clean-up both line parsers begin with. */
  function Normalize(s: string): (r: string)
    ensures Normalized(r)
    ensures r == [] <==> AllSpace(s)
  {
    Collapse(Strip(s))
  }

  /** A string without runs of whitespace is its own collapse, from any position on. */
  lemma {:induction false} CollapseFromFixed(s: string, i: nat)
    requires i <= |s| && NoSpaceRuns(s)
    ensures CollapseFrom(s, i) == s[i..]
    decreases |s| - i
  {
    if i < |s| {
      CollapseFromFixed(s, i + 1);
      if IsSpace(s[i]) {
        assert s[i] == ' ' && (i + 1 < |s| ==> !IsSpace(s[i + 1]));
        SpanFromIs(s, i, i + 1, Space);
        CollapseGap(s, i, i + 1);
      } else {
        CollapseLetter(s, i);
      }
      SliceCons(s, i);
    }
  }

  /** A suffix is its first element followed by the next suffix. */
  lemma SliceCons<T>(s: seq<T>, i: nat)
    requires i < |s|
    ensures s[i..] == [s[i]] + s[i + 1..]
  {
  }

  /** A line that is already clean is left as it is: the clean-up changes nothing more. */
  lemma NormalizeFixes(s: string)
    requires Normalized(s)
    ensures Normalize(s) == s
  {
    if s != [] {
      SpanFromIs(s, 0, 0, Space);
    }
    assert Strip(s) == s;
    CollapseFromFixed(s, 0);
  }

  /** Cleaning up a line twice is cleaning it up once. */
  lemma NormalizeIdempotent(s: string)
    ensures Normalize(Normalize(s)) == Normalize(s)
  {
    NormalizeFixes(Normalize(s));
  }

  // -------------------------------------------------------------------- words

  /** The end of the run of non-space characters that starts at `i`. */
  function WordEnd(s: string, i: nat): (e: nat)
    requires i <= |s|
    ensures i <= e <= |s|
    ensures forall k :: i <= k < e ==> !IsSpace(s[k])
    ensures e < |s| ==> IsSpace(s[e])
    decreases |s| - i
  {
    if i == |s| || IsSpace(s[i]) then i else WordEnd(s, i + 1)
  }

  /** The maximal runs of non-space characters of `s[i..]`, in order. */
  function WordsFrom(s: string, i: nat): (r: seq<string>)
    requires i <= |s|
    ensures forall j :: 0 <= j < |r| ==> r[j] != []
    decreases |s| - i
  {
    if i == |s| then []
    else if IsSpace(s[i]) then WordsFrom(s, i + 1)
    else
      var e := WordEnd(s, i);
      [s[i..e]] + WordsFrom(s, e)
  }

  /** `s.split()`: the words of `s`, the maximal runs of non-space characters, in order. */
  function Words(s: string): (r: seq<string>)
    ensures forall j :: 0 <= j < |r| ==> r[j] != []
  {
    WordsFrom(s, 0)
  }

  /** Whitespace holds no word: the words from `e` are those from the end of the run. */
  lemma {:induction false} SkipSpaces(s: string, e: nat, g: nat)
    requires e <= g <= |s| && forall k :: e <= k < g ==> IsSpace(s[k])
    ensures WordsFrom(s, e) == WordsFrom(s, g)
    decreases g - e
  {
    if e < g {
      SkipSpaces(s, e + 1, g);
    }
  }

  /** `WordEnd` is the first whitespace position from `i`, or the end. */
  lemma {:induction false} WordEndIs(s: string, i: nat, e: nat)
    requires i <= e <= |s| && (forall k :: i <= k < e ==> !IsSpace(s[k])) && (e < |s| ==> IsSpace(s[e]))
    ensures WordEnd(s, i) == e
    decreases e - i
  {
    if i < e {
      WordEndIs(s, i + 1, e);
    }
  }

  /** A word of `s[a..b]` is the same word of `s`, when `s` has whitespace or nothing after `b`. */
  lemma WordEndShift(s: string, a: nat, b: nat, j: nat)
    requires a <= b <= |s| && (b < |s| ==> IsSpace(s[b])) && j <= b - a
    ensures a + WordEnd(s[a..b], j) == WordEnd(s, a + j)
  {
    var u := s[a..b];
    var e := WordEnd(u, j);
    assert forall k :: j <= k < e ==> s[a + k] == u[k];
    assert a + e < |s| ==> IsSpace(s[a + e]) by {
      if e < |u| {
        assert s[a + e] == u[e];
      }
    }
    WordEndIs(s, a + j, a + e);
  }

  /** The words of `s[a..b]` from `j` are those of `s` from `a + j`, when only whitespace follows `b`. */
  lemma {:induction false} WordsShift(s: string, a: nat, b: nat, j: nat)
    requires a <= b <= |s| && j <= b - a
    requires forall k :: b <= k < |s| ==> IsSpace(s[k])
    ensures WordsFrom(s[a..b], j) == WordsFrom(s, a + j)
    decreases b - a - j
  {
    var u := s[a..b];
    if j == |u| {
      SkipSpaces(s, b, |s|);
    } else {
      assert u[j] == s[a + j];
      if IsSpace(u[j]) {
        WordsShift(s, a, b, j + 1);
      } else {
        var e := WordEnd(u, j);
        WordEndShift(s, a, b, j);
        SliceShift(s, a, b, j, e);
        WordsShift(s, a, b, e);
      }
    }
  }

  /** A slice of a slice, in the indices of the whole. */
  lemma SliceShift<T>(s: seq<T>, a: nat, b: nat, j: nat, e: nat)
    requires a <= b <= |s| && j <= e <= b - a
    ensures s[a..b][j..e] == s[a + j..a + e]
  {
    var u := s[a..b];
    forall k | 0 <= k < e - j
      ensures u[j..e][k] == s[a + j..a + e][k]
    {
      assert u[j..e][k] == u[j + k];
      assert u[j + k] == s[a + j + k];
    }
  }

  /** `s.strip()` is the slice of `s` between its leading and its trailing whitespace. */
  lemma StripSlice(s: string) returns (a: nat, b: nat)
    ensures a <= b <= |s| && Strip(s) == s[a..b]
    ensures forall k :: 0 <= k < a ==> IsSpace(s[k])
    ensures forall k :: b <= k < |s| ==> IsSpace(s[k])
  {
    var l := TrimLeft(s);
    var r := TrimRight(l);
    a := |s| - |l|;
    b := a + |r|;
    assert forall k :: b <= k < |s| ==> s[k] == l[|r|..][k - b];
    assert forall k :: 0 <= k < a ==> s[k] == s[..a][k];
  }

  /** Stripping keeps every word. */
  lemma WordsStrip(s: string)
    ensures Words(Strip(s)) == Words(s)
  {
    var a, b := StripSlice(s);
    WordsShift(s, a, b, 0);
    SkipSpaces(s, 0, a);
  }

  /** A word is copied by the collapse as it is. */
  lemma {:induction false} CollapseWord(t: string, i: nat, e: nat)
    requires i <= e <= |t| && forall k :: i <= k < e ==> !IsSpace(t[k])
    ensures CollapseFrom(t, i) == t[i..e] + CollapseFrom(t, e)
    decreases e - i
  {
    if i < e {
      var c, rest, w := CollapseFrom(t, i), CollapseFrom(t, e), t[i + 1..e];
      assert c == [t[i]] + CollapseFrom(t, i + 1) by {
        CollapseLetter(t, i);
      }
      assert CollapseFrom(t, i + 1) == w + rest by {
        CollapseWord(t, i + 1, e);
      }
      assert t[i..e] == [t[i]] + w;
      PrependGlue(c, t[i], w, rest, t[i..e]);
    } else {
      assert t[i..e] == [];
    }
  }

  /** One more character in front of a word. */
  lemma PrependGlue(c: string, x: char, w: string, rest: string, xw: string)
    requires c == [x] + (w + rest) && xw == [x] + w
    ensures c == xw + rest
  {
  }

  /** A non-space character is copied by the collapse. */
  lemma CollapseLetter(t: string, i: nat)
    requires i < |t| && !IsSpace(t[i])
    ensures CollapseFrom(t, i) == [t[i]] + CollapseFrom(t, i + 1)
  {
  }

  /** The collapse from a gap between words: one blank, then what follows the gap. */
  lemma CollapseGap(t: string, e: nat, g: nat)
    requires e < |t| && IsSpace(t[e]) && g == SpanFrom(t, e, Space)
    ensures CollapseFrom(t, e) == [' '] + CollapseFrom(t, g)
  {
  }

  /** A word, then at least one more: joined with one blank between them. */
  lemma JoinCons(w: string, rest: seq<string>)
    requires rest != []
    ensures Join([w] + rest, " ") == w + " " + Join(rest, " ")
  {
    assert ([w] + rest)[1..] == rest;
  }

  /** The last word alone: joining it gives it back. */
  lemma LastWord(c: string, w: string, ws: seq<string>)
    requires c == w + [] && ws == [w] + []
    ensures c == Join(ws, " ")
  {
  }

  /** A word, one blank, then the join of the words after it. */
  lemma NextWord(c: string, w: string, x: string, rest: seq<string>, ws: seq<string>)
    requires rest != [] && c == w + ([' '] + x) && x == Join(rest, " ") && ws == [w] + rest
    ensures c == Join(ws, " ")
  {
    JoinCons(w, rest);
  }

  /**
   * From a word start (or the end) of a string that ends in a non-space character, the
   * collapse is the words joined by single blanks.
   */
  lemma {:induction false} CollapseWords(t: string, i: nat)
    requires t == [] || !IsSpace(t[|t| - 1])
    requires i <= |t| && (i < |t| ==> !IsSpace(t[i]))
    ensures CollapseFrom(t, i) == Join(WordsFrom(t, i), " ")
    decreases |t| - i
  {
    if i < |t| {
      var e := WordEnd(t, i);
      assert WordsFrom(t, i) == [t[i..e]] + WordsFrom(t, e);
      CollapseWord(t, i, e);
      if e == |t| {
        LastWord(CollapseFrom(t, i), t[i..e], WordsFrom(t, i));
      } else {
        var g := SpanFrom(t, e, Space);
        CollapseGap(t, e, g);
        assert g < |t|;
        SkipSpaces(t, e, g);
        CollapseWords(t, g);
        NextWord(CollapseFrom(t, i), t[i..e], CollapseFrom(t, g), WordsFrom(t, g), WordsFrom(t, i));
      }
    }
  }

  /**
   * `re.sub(r'\s+', ' ', s.strip())` is `' '.join(s.split())`: the words of the line, in
   * order, with one blank between each two.
   */
  lemma NormalizeWords(s: string)
    ensures Normalize(s) == Join(Words(s), " ")
  {
    CollapseWords(Strip(s), 0);
    WordsStrip(s);
  }

  // ---------------------------------------------------------------- searching

  /** `w` occurs in `s` at index `i`. */
  predicate OccursAt(s: string, w: string, i: int) {
    0 <= i && i + |w| <= |s| && s[i..i + |w|] == w
  }

  /** `w` occurs in `s` at index `i`, ignoring ASCII case. */
  predicate OccursAtCi(s: string, w: string, i: int) {
    0 <= i && i + |w| <= |s| && Lower(s[i..i + |w|]) == Lower(w)
  }

  /** `w` occurs in `s` at index `i`, ignoring case when `ci` (IGNORECASE) is set. */
  predicate MatchesAt(s: string, w: string, i: int, ci: bool) {
    if ci then OccursAtCi(s, w, i) else OccursAt(s, w, i)
  }

  /** The first index at or after `from` where `w` occurs in `s`. */
  function FindFrom(s: string, w: string, from: nat): (r: Option<nat>)
    ensures r.Some? ==> from <= r.value && OccursAt(s, w, r.value)
    ensures r.Some? ==> forall k :: from <= k < r.value ==> !OccursAt(s, w, k)
    ensures r.None? ==> forall k :: from <= k ==> !OccursAt(s, w, k)
    decreases |s| - from
  {
    if from + |w| > |s| then None
    else if OccursAt(s, w, from) then Some(from)
    else FindFrom(s, w, from + 1)
  }

  /** Python's `w in s`. */
  predicate Contains(s: string, w: string) {
    FindFrom(s, w, 0).Some?
  }

  /** `w in s` holds exactly when `w` occurs somewhere in `s`. */
  lemma {:induction false} ContainsIff(s: string, w: string)
    ensures Contains(s, w) <==> exists i :: OccursAt(s, w, i)
  {
    if exists i :: OccursAt(s, w, i) {
      var i :| OccursAt(s, w, i);
      assert FindFrom(s, w, 0).Some?;
    }
  }

  /** `s.find(w)`: the first index of `w` in `s`, or -1. */
  function PyFind(s: string, w: string): (r: int)
    ensures -1 <= r <= |s|
    ensures r >= 0 ==> OccursAt(s, w, r) && forall k :: 0 <= k < r ==> !OccursAt(s, w, k)
    ensures r == -1 <==> !Contains(s, w)
  {
    match FindFrom(s, w, 0)
    case Some(i) => i
    case None => -1
  }

  /** A prefix is found at index 0. */
  lemma FindAtFront(s: string, w: string)
    requires OccursAt(s, w, 0)
    ensures PyFind(s, w) == 0
  {
    ContainsIff(s, w);
  }

  /** The last index at or before `k` where `w` occurs in `s`, or -1. */
  function LastAtOrBefore(s: string, w: string, k: int): (r: int)
    ensures r == -1 || 0 <= r <= k
    ensures r >= 0 ==> OccursAt(s, w, r)
    ensures forall j :: r < j <= k ==> !OccursAt(s, w, j)
    decreases k + 1
  {
    if k < 0 then -1
    else if OccursAt(s, w, k) then k
    else LastAtOrBefore(s, w, k - 1)
  }

  /** `s.rfind(w)`: the last index of `w` in `s`, or -1. */
  function PyRFind(s: string, w: string): (r: int)
    ensures -1 <= r <= |s|
    ensures r >= 0 ==> OccursAt(s, w, r) && forall j :: r < j ==> !OccursAt(s, w, j)
    ensures r == -1 <==> !Contains(s, w)
  {
    LastAtOrBefore(s, w, |s| - |w|)
  }

  // ----------------------------------------------------------------- slicing

  /** A Python index into a sequence of length `n`, resolved and clamped to `0..n`. */
  function ClampIndex(i: int, n: nat): (r: nat)
    ensures r <= n
  {
    var j := if i < 0 then i + n else i;
    if j < 0 then 0 else if j > n then n else j
  }

  /** Python's `s[i:j]` on a string or a list, for any integers `i` and `j`. */
  function PySlice<T>(s: seq<T>, i: int, j: int): (r: seq<T>)
    ensures 0 <= i <= j <= |s| ==> r == s[i..j]
    ensures j <= i && 0 <= j ==> r == []
  {
    var lo := ClampIndex(i, |s|);
    var hi := ClampIndex(j, |s|);
    if lo <= hi then s[lo..hi] else []
  }

  // --------------------------------------------------------- splitting, joining

  /** The first index of `c` in `s`. */
  function IndexOf(s: string, c: char): (r: Option<nat>)
    ensures r.Some? ==> r.value < |s| && s[r.value] == c && Lacks(s, c, 0, r.value)
    ensures r.None? <==> Lacks(s, c, 0, |s|)
  {
    if s == [] then None
    else if s[0] == c then Some(0)
    else match IndexOf(s[1..], c)
      case Some(i) => Some(i + 1)
      case None => None
  }

  /** No character of `s[i..j]` is `c`. */
  predicate Lacks(s: string, c: char, i: int, j: int) {
    forall k :: i <= k < j && 0 <= k < |s| ==> s[k] != c
  }

  /** `sep.join(parts)`. */
  function Join(parts: seq<string>, sep: string): string {
    if parts == [] then []
    else if |parts| == 1 then parts[0]
    else parts[0] + sep + Join(parts[1..], sep)
  }

  /** `s.split(sep)` for a one-character separator (never empty, and `''.split(' ') == ['']`). */
  function Split(s: string, sep: char): (r: seq<string>)
    ensures |r| >= 1
    decreases |s|
  {
    match IndexOf(s, sep)
    case None => [s]
    case Some(i) => [s[..i]] + Split(s[i + 1..], sep)
  }

  /** Joining the pieces with the separator gives the string back. */
  lemma {:induction false} SplitJoin(s: string, sep: char)
    ensures Join(Split(s, sep), [sep]) == s
    decreases |s|
  {
    match IndexOf(s, sep)
    case None =>
    case Some(i) =>
      var rest := Split(s[i + 1..], sep);
      SplitJoin(s[i + 1..], sep);
      assert Split(s, sep) == [s[..i]] + rest;
      assert Join(Split(s, sep), [sep]) == s[..i] + [sep] + Join(rest, [sep]);
      assert s == s[..i] + [sep] + s[i + 1..];
  }

  // ------------------------------------------------------------------ digits

  predicate AllDigits(s: string) {
    forall k :: 0 <= k < |s| ==> IsDigit(s[k])
  }

  function DigitValue(c: char): nat {
    if IsDigit(c) then c as int - '0' as int else 0
  }

  /** `int(s)` for a string of ASCII digits (0 for the empty string). */
  function DigitsValue(s: string): nat {
    if s == [] then 0 else DigitsValue(s[..|s| - 1]) * 10 + DigitValue(s[|s| - 1])
  }

  function Pow10(n: nat): (r: nat)
    ensures r >= 1
  {
    if n == 0 then 1 else 10 * Pow10(n - 1)
  }

  /** `n` written with exactly `width` digits, zero-padded on the left (as `%0<width>d`). */
  function PadDigits(n: nat, width: nat): (r: string)
    ensures |r| == width && AllDigits(r)
  {
    if width == 0 then [] else PadDigits(n / 10, width - 1) + [('0' as int + n % 10) as char]
  }

  /** A string of `w` digits is worth less than 10^w. */
  lemma {:induction false} DigitsValueBound(s: string)
    requires AllDigits(s)
    ensures DigitsValue(s) < Pow10(|s|)
  {
    if s != [] {
      DigitsValueBound(s[..|s| - 1]);
    }
  }

  /** Reading back a padded number gives the number. */
  lemma {:induction false} PadDigitsValue(n: nat, width: nat)
    requires n < Pow10(width)
    ensures DigitsValue(PadDigits(n, width)) == n
  {
    if width > 0 {
      var p := PadDigits(n, width);
      assert n / 10 < Pow10(width - 1);
      PadDigitsValue(n / 10, width - 1);
      assert p[..|p| - 1] == PadDigits(n / 10, width - 1);
    }
  }

  /** Padding the value of a digit string to its own length gives the string back. */
  lemma {:induction false} PadDigitsOfValue(s: string)
    requires AllDigits(s)
    ensures PadDigits(DigitsValue(s), |s|) == s
  {
    if s != [] {
      var init := s[..|s| - 1];
      PadDigitsOfValue(init);
      var v := DigitsValue(s);
      assert v / 10 == DigitsValue(init) && v % 10 == DigitValue(s[|s| - 1]);
      assert s == init + [s[|s| - 1]];
    }
  }

  /** A run of digits does not contain a non-digit. */
  lemma NotInDigits(s: string, c: char, i: int, j: int)
    requires forall k :: i <= k < j && 0 <= k < |s| ==> IsDigit(s[k])
    requires !IsDigit(c)
    ensures Lacks(s, c, i, j)
  {
  }

  /** Splitting at the first separator, at a known index `i`. */
  lemma SplitAt(s: string, sep: char, i: nat)
    requires i < |s| && s[i] == sep && Lacks(s, sep, 0, i)
    ensures Split(s, sep) == [s[..i]] + Split(s[i + 1..], sep)
  {
    IndexOfIs(s, sep, i);
  }

  /** The first occurrence of `c`, at a known index. */
  lemma {:induction false} IndexOfIs(s: string, c: char, i: nat)
    requires i < |s| && s[i] == c && Lacks(s, c, 0, i)
    ensures IndexOf(s, c) == Some(i)
  {
    if i > 0 {
      assert s[0] != c;
      var t := s[1..];
      assert Lacks(t, c, 0, i - 1) by {
        forall k | 0 <= k < i - 1 ensures t[k] != c {
          assert t[k] == s[k + 1];
        }
      }
      IndexOfIs(t, c, i - 1);
    }
  }

  /** Splitting at the first two separators, at known indices `i < j`. */
  lemma SplitAtTwo(s: string, sep: char, i: nat, j: nat)
    requires i < j < |s| && s[i] == sep && s[j] == sep && Lacks(s, sep, 0, i) && Lacks(s, sep, i + 1, j)
    ensures Split(s, sep) == [s[..i], s[i + 1..j]] + Split(s[j + 1..], sep)
  {
    var t := s[i + 1..];
    SplitAt(s, sep, i);
    LacksAfter(s, sep, i + 1, j);
    SplitAt(t, sep, j - i - 1);
    SliceOfSlice(s, i + 1, j);
    var first, second, rest := s[..i], s[i + 1..j], Split(s[j + 1..], sep);
    assert Split(s, sep) == [first] + ([second] + rest);
    ConsTwo(first, second, rest);
  }

  lemma ConsTwo<T>(a: T, b: T, r: seq<T>)
    ensures [a] + ([b] + r) == [a, b] + r
  {
  }

  /** `Lacks` on a suffix, in the suffix's own indices. */
  lemma LacksAfter(s: string, c: char, a: nat, j: nat)
    requires a <= j <= |s| && Lacks(s, c, a, j)
    ensures Lacks(s[a..], c, 0, j - a)
  {
    forall k | 0 <= k < j - a ensures s[a..][k] != c {
      assert s[a..][k] == s[k + a];
    }
  }

  /** The two parts of a suffix cut at `j`. */
  lemma SliceOfSlice<T>(s: seq<T>, a: nat, j: nat)
    requires a <= j < |s|
    ensures s[a..][..j - a] == s[a..j] && s[a..][j - a + 1..] == s[j + 1..]
  {
  }

  /** Where the pieces of a three-piece split sit in the string. */
  lemma SplitThreePieces(s: string, sep: char)
    requires |Split(s, sep)| == 3
    ensures var f := Split(s, sep);
      var i := |f[0]|;
      var j := i + 1 + |f[1]|;
      && j < |s| && s[i] == sep && s[j] == sep
      && s[..i] == f[0] && s[i + 1..j] == f[1] && s[j + 1..] == f[2]
  {
    var i, j := SplitThreeAt(s, sep);
  }

  /** The two separators of a three-piece split. */
  lemma SplitThreeAt(s: string, sep: char) returns (i: nat, j: nat)
    requires |Split(s, sep)| == 3
    ensures i < j < |s| && s[i] == sep && s[j] == sep
    ensures Split(s, sep) == [s[..i], s[i + 1..j], s[j + 1..]]
  {
    var a := SplitStep(s, sep);
    var t := s[a + 1..];
    var b := SplitStep(t, sep);
    var u := t[b + 1..];
    SplitOne(u, sep);
    i, j := a, a + 1 + b;
    SliceOfSlice(s, a + 1, j);
    ConsTwo(s[..a], t[..b], [u]);
  }

  /** A split into two or more pieces: the first piece, the separator, then the split of the rest. */
  lemma SplitStep(s: string, sep: char) returns (i: nat)
    requires |Split(s, sep)| >= 2
    ensures i < |s| && s[i] == sep
    ensures Split(s, sep) == [s[..i]] + Split(s[i + 1..], sep)
  {
    match IndexOf(s, sep)
    case Some(a) =>
      i := a;
  }

  /** A split into one piece is the string itself. */
  lemma SplitOne(s: string, sep: char)
    requires |Split(s, sep)| == 1
    ensures Split(s, sep) == [s]
  {
    match IndexOf(s, sep)
    case None =>
  }

  /** A string that splits into two or more pieces has the separator right after its first piece. */
  lemma SplitHead(s: string, sep: char)
    requires |Split(s, sep)| >= 2
    ensures var n := |Split(s, sep)[0]|; n < |s| && s[n] == sep && s[..n] == Split(s, sep)[0]
  {
    match IndexOf(s, sep)
    case Some(i) =>
      var rest := Split(s[i + 1..], sep);
      assert Split(s, sep) == [s[..i]] + rest;
  }

  /** A digit run that starts at `i` ends at the first non-digit. */
  lemma DigitSpan(s: string, i: nat, e: nat)
    requires i <= e <= |s| && AllDigits(s[i..e]) && (e < |s| ==> !IsDigit(s[e]))
    ensures SpanFrom(s, i, Digit) == e
  {
    assert forall k :: i <= k < e ==> s[k] == s[i..e][k - i];
    SpanFromIs(s, i, e, Digit);
  }

  /** A string without the separator splits into itself. */
  lemma SplitNone(s: string, sep: char)
    requires Lacks(s, sep, 0, |s|)
    ensures Split(s, sep) == [s]
  {
  }

  /** A string splits into one piece exactly when it lacks the separator, and that piece is the string. */
  lemma SplitRest(s: string, sep: char)
    ensures |Split(s, sep)| == 1 <==> Lacks(s, sep, 0, |s|)
    ensures Lacks(s, sep, 0, |s|) ==> Split(s, sep) == [s]
  {
    if Lacks(s, sep, 0, |s|) {
      SplitNone(s, sep);
    } else {
      SplitSome(s, sep);
    }
  }

  /** A suffix lacks a character exactly when the string lacks it from the suffix's start on. */
  lemma LacksSuffix(s: string, c: char, a: nat)
    requires a <= |s|
    ensures Lacks(s[a..], c, 0, |s| - a) <==> Lacks(s, c, a, |s|)
  {
    assert forall k :: 0 <= k < |s| - a ==> s[a..][k] == s[k + a];
  }

  /** A string with the separator splits into at least two pieces. */
  lemma SplitSome(s: string, sep: char)
    requires !Lacks(s, sep, 0, |s|)
    ensures |Split(s, sep)| >= 2
  {
    match IndexOf(s, sep)
    case Some(i) =>
      var rest := Split(s[i + 1..], sep);
      assert Split(s, sep) == [s[..i]] + rest;
  }

  /** The character classes the source's patterns use. */
  datatype CharClass =
    | Digit            // [0-9]
    | DigitOrComma     // [0-9,]
    | Space            // \s
    | UpperOrSpace     // [A-Z\s]
    | UpperSpaceOrAmp  // [A-Z\s&]
    | Letter           // [A-Za-z]
    | UpperOrDigit     // [A-Z0-9]
    | AlnumAnyCase     // [A-Z0-9] under IGNORECASE
    | DigitOrX         // [\dX] under IGNORECASE

  predicate InClass(c: char, cls: CharClass) {
    match cls
    case Digit => IsDigit(c)
    case DigitOrComma => IsDigit(c) || c == ','
    case Space => IsSpace(c)
    case UpperOrSpace => IsUpperLetter(c) || IsSpace(c)
    case UpperSpaceOrAmp => IsUpperLetter(c) || IsSpace(c) || c == '&'
    case Letter => IsLetter(c)
    case UpperOrDigit => IsUpperLetter(c) || IsDigit(c)
    case AlnumAnyCase => IsLetter(c) || IsDigit(c)
    case DigitOrX => IsDigit(c) || c == 'X' || c == 'x'
  }

  /** The end of the longest run of characters of class `cls` that starts at `i`. */
  function SpanFrom(s: string, i: nat, cls: CharClass): (e: nat)
    requires i <= |s|
    ensures i <= e <= |s|
    ensures forall k :: i <= k < e ==> InClass(s[k], cls)
    ensures e < |s| ==> !InClass(s[e], cls)
    decreases |s| - i
  {
    if i == |s| || !InClass(s[i], cls) then i else SpanFrom(s, i + 1, cls)
  }

  /** The run that starts at `i` ends at `e` when `e` is the first index outside the class. */
  lemma {:induction false} SpanFromIs(s: string, i: nat, e: nat, cls: CharClass)
    requires i <= e <= |s|
    requires forall k :: i <= k < e ==> InClass(s[k], cls)
    requires e < |s| ==> !InClass(s[e], cls)
    ensures SpanFrom(s, i, cls) == e
    decreases e - i
  {
    if i < e {
      SpanFromIs(s, i + 1, e, cls);
    }
  }
}
