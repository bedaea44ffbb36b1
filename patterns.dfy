/**
 * The regular expressions the account-information extractors search for, each
 * as a hand-written matcher with the leftmost-first semantics of Python's
 * `re.search`, and the ordered fallback chain (`for pattern in patterns: ...
 * break / else: default`).
 *
 * A matcher decides, for one start position, whether the pattern matches there and
 * with which groups, resolving the backtracking of the regular-expression engine by
 * hand; each constructor's comment says why its resolution is the engine's.
 * IGNORECASE is ASCII case folding; `\d` is the ASCII digits.
 */
module Patterns {
  import opened Wrappers
  import opened Text

  /** One element between the leading literal and the group of a `Field` pattern. */
  datatype Step =
    | Opt(c: char)               // `c?`
    | Spaces(atLeastOne: bool)   // `\s*` or `\s+`
    | Word(w: string)            // a literal

  datatype Count = OneOrMore | Exactly(n: nat)

  datatype Pattern =
      /**
       * `lead step... (cls+)` or `lead step... (cls{n})`. Every step is greedy and never
       * gives anything back: after a run of spaces comes a non-space, after `c?` comes
       * something that is not `c` or the separator already taken, and the group's class
       * never contains the character a shorter step would leave in front of it.
       */
    | Field(lead: string, ci: bool, steps: seq<Step>, cls: CharClass, count: Count)
      /** A literal with no group (the match itself). */
    | Fixed(lead: string)
      /**
       * `MR\.([A-Z\s]+)&([A-Z\s]+)`, or with `spaced` `MR\.([A-Z\s]+)&\s*([A-Z\s]+)`.
       * The first group is the whole run before `&` (`&` is outside the class). In the
       * spaced form `\s*` takes all spaces, and gives the last one back to the
       * second group when no capital letter follows them.
       */
    | TwoNames(spaced: bool)
      /**
       * `MR\.([A-Z\s]+)&?\s*([A-Z\s]*)`: everything after the first group may match
       * the empty string, so the greedy path succeeds at once.
       */
    | NameFallback
      /**
       * `lead([\s\S]*?)(?:closer|...)` under IGNORECASE: the lazy group ends at the
       * first position after the literal where one of the closers starts.
       */
    | Between(lead: string, closers: seq<string>)
      /**
       * `MR\.[\s\S]*?(?:BHUBANESWAR|ODISHA)[\s\S]*?(\d{6})` under IGNORECASE: the first
       * city name after `MR.`, then the first six digits after it. The two names cannot
       * overlap, so a later name can only leave fewer digits after it.
       */
    | PinAfterCity
      /**
       * `MR\s+([A-Z\s]+)(?:\n|JOINT HOLDERS|Account Branch)`: the greedy group ends at
       * the last place inside the run of capitals and spaces where a terminator
       * starts; the group starts after all the spaces, or, when that would leave it
       * empty, one character before that end.
       */
    | HolderLine
      /**
       * `Address\s*:?\s*(.+?)(?:\nCity|\nState|\nPhone|$)` under DOTALL: the lazy group
       * ends at the first terminator, where `$` is the very end or a final newline;
       * when nothing is left after the spaces and the colon, the engine gives back
       * the last character it skipped.
       */
    | AddressLine

  /** The literal every match of `p` begins with. */
  function Lead(p: Pattern): string {
    match p
    case Field(lead, _, _, _, _) => lead
    case Fixed(lead) => lead
    case TwoNames(_) => "MR."
    case NameFallback => "MR."
    case Between(lead, _) => lead
    case PinAfterCity => "MR."
    case HolderLine => "MR"
    case AddressLine => "Address"
  }

  /** Whether the pattern is searched with IGNORECASE. */
  predicate IgnoresCase(p: Pattern) {
    match p
    case Field(_, ci, _, _, _) => ci
    case Between(_, _) => true
    case PinAfterCity => true
    case _ => false
  }

  /** Every character of `s[i..j]` is of class `cls`. */
  predicate AllIn(s: string, i: int, j: int, cls: CharClass) {
    forall k :: i <= k < j && 0 <= k < |s| ==> InClass(s[k], cls)
  }

  /** One of the words `ws` starts at `j`. */
  predicate AnyAt(s: string, ws: seq<string>, j: int, ci: bool) {
    exists k :: 0 <= k < |ws| && MatchesAt(s, ws[k], j, ci)
  }

  // ----------------------------------------------------------- building blocks

  /** Where the steps of a `Field` pattern leave off, from position `j`. */
  function StepsEnd(s: string, j: nat, steps: seq<Step>, ci: bool): (r: Option<nat>)
    requires j <= |s|
    ensures r.Some? ==> j <= r.value <= |s|
    decreases |steps|
  {
    if steps == [] then Some(j)
    else
      var next: Option<nat> :=
        match steps[0]
        case Opt(c) => if j < |s| && s[j] == c then Some(j + 1) else Some(j)
        case Spaces(atLeastOne) =>
          var e := SpanFrom(s, j, Space);
          if atLeastOne && e == j then None else Some(e)
        case Word(w) => if MatchesAt(s, w, j, ci) then Some(j + |w|) else None;
      match next
      case None => None
      case Some(n) => StepsEnd(s, n, steps[1..], ci)
  }

  /** The group of a `Field` pattern, starting at `j`. */
  function FieldGroup(s: string, j: nat, cls: CharClass, count: Count): (r: Option<string>)
    requires j <= |s|
    ensures r.Some? ==> |r.value| >= 1 && forall k :: 0 <= k < |r.value| ==> InClass(r.value[k], cls)
    ensures r.Some? && count.Exactly? ==> |r.value| == count.n
  {
    match count
    case OneOrMore =>
      var e := SpanFrom(s, j, cls);
      if e > j then Some(s[j..e]) else None
    case Exactly(n) =>
      if n >= 1 && j + n <= |s| && AllIn(s, j, j + n, cls) then Some(s[j..j + n]) else None
  }

  /** The first position at or after `j` where one of `ws` starts (ignoring case with `ci`). */
  function FirstOf(s: string, ws: seq<string>, j: nat, ci: bool): (r: Option<nat>)
    ensures r.Some? ==> j <= r.value <= |s| && AnyAt(s, ws, r.value, ci)
    ensures r.Some? ==> forall k :: j <= k < r.value ==> !AnyAt(s, ws, k, ci)
    ensures r.None? ==> forall k :: j <= k ==> !AnyAt(s, ws, k, ci)
    decreases |s| + 1 - j
  {
    if j > |s| then None
    else if AnyAt(s, ws, j, ci) then Some(j)
    else FirstOf(s, ws, j + 1, ci)
  }

  /** The first position at or after `j` where six digits start. */
  function FirstSixDigits(s: string, j: nat): (r: Option<nat>)
    ensures r.Some? ==> j <= r.value && r.value + 6 <= |s| && AllIn(s, r.value, r.value + 6, Digit)
    decreases |s| + 1 - j
  {
    if j + 6 > |s| then None
    else if AllIn(s, j, j + 6, Digit) then Some(j)
    else FirstSixDigits(s, j + 1)
  }

  /** A terminator of the HDFC holder name starts at `j`. */
  predicate HolderEnd(s: string, j: int) {
    AnyAt(s, ["\n", "JOINT HOLDERS", "Account Branch"], j, false)
  }

  /** The last position in `lo..hi` where a holder-name terminator starts. */
  function LastHolderEnd(s: string, lo: int, hi: int): (r: Option<int>)
    ensures r.Some? ==> lo <= r.value <= hi && HolderEnd(s, r.value)
    ensures r.Some? ==> forall k :: r.value < k <= hi ==> !HolderEnd(s, k)
    ensures r.None? ==> forall k :: lo <= k <= hi ==> !HolderEnd(s, k)
    decreases hi - lo
  {
    if hi < lo then None
    else if HolderEnd(s, hi) then Some(hi)
    else LastHolderEnd(s, lo, hi - 1)
  }

  /** A terminator of the lazy HDFC address group: a labelled line, the end, or a final newline. */
  predicate AddressEnd(s: string, e: nat) {
    AnyAt(s, ["\nCity", "\nState", "\nPhone"], e, false) || e == |s| || (e + 1 == |s| && s[e] == '\n')
  }

  /** The first address terminator at or after `e`. */
  function FirstAddressEnd(s: string, e: nat): (r: nat)
    requires e <= |s|
    ensures e <= r <= |s| && AddressEnd(s, r)
    ensures forall k :: e <= k < r ==> !AddressEnd(s, k)
    decreases |s| - e
  {
    if AddressEnd(s, e) then e else FirstAddressEnd(s, e + 1)
  }

  // ------------------------------------------------------------------ matching

  /** The group of a `Field` pattern whose literal ends at `a`. */
  function MatchField(s: string, a: nat, ci: bool, steps: seq<Step>, cls: CharClass, count: Count): (r: Option<seq<string>>)
    requires a <= |s|
    ensures r.Some? ==> |r.value| == 1 && |r.value[0]| >= 1
    ensures r.Some? ==> forall k :: 0 <= k < |r.value[0]| ==> InClass(r.value[0][k], cls)
    ensures r.Some? && count.Exactly? ==> |r.value[0]| == count.n
  {
    match StepsEnd(s, a, steps, ci)
    case None => None
    case Some(j) =>
      match FieldGroup(s, j, cls, count)
      case None => None
      case Some(g) => Some([g])
  }

  /** The two name groups of `TwoNames(spaced)` after the `MR.` that ends at `a`. */
  function MatchTwoNames(s: string, a: nat, spaced: bool): (r: Option<seq<string>>)
    requires a <= |s|
    ensures r.Some? ==> |r.value| == 2
  {
    var e1 := SpanFrom(s, a, UpperOrSpace);
    if e1 == a || e1 == |s| || s[e1] != '&' then None
    else
      var b := e1 + 1;
      if !spaced then
        var e2 := SpanFrom(s, b, UpperOrSpace);
        if e2 == b then None else Some([s[a..e1], s[b..e2]])
      else
        var w := SpanFrom(s, b, Space);
        if w < |s| && IsUpperLetter(s[w]) then Some([s[a..e1], s[w..SpanFrom(s, w, UpperOrSpace)]])
        else if w > b then Some([s[a..e1], s[w - 1..w]])
        else None
  }

  /** The two groups of `NameFallback` after the `MR.` that ends at `a`. */
  function MatchNameFallback(s: string, a: nat): (r: Option<seq<string>>)
    requires a <= |s|
    ensures r.Some? ==> |r.value| == 2 && |r.value[0]| >= 1
  {
    var e1 := SpanFrom(s, a, UpperOrSpace);
    if e1 == a then None
    else if e1 < |s| && s[e1] == '&' then
      var w := SpanFrom(s, e1 + 1, Space);
      Some([s[a..e1], s[w..SpanFrom(s, w, UpperOrSpace)]])
    else Some([s[a..e1], ""])
  }

  /** The six digits of `PinAfterCity` after the `MR.` that ends at `a`. */
  function MatchPin(s: string, a: nat): (r: Option<seq<string>>)
    ensures r.Some? ==> |r.value| == 1 && |r.value[0]| == 6
  {
    match FirstOf(s, ["BHUBANESWAR", "ODISHA"], a, true)
    case None => None
    case Some(j) =>
      var end := if MatchesAt(s, "BHUBANESWAR", j, true) then j + 11 else j + 6;
      match FirstSixDigits(s, end)
      case None => None
      case Some(k) => Some([s[k..k + 6]])
  }

  /** The holder-name group of `HolderLine` after the `MR` that ends at `a`. */
  function MatchHolder(s: string, a: nat): (r: Option<seq<string>>)
    requires a <= |s|
    ensures r.Some? ==> |r.value| == 1 && |r.value[0]| >= 1
  {
    var ws := SpanFrom(s, a, Space);
    var run := SpanFrom(s, a, UpperOrSpace);
    if ws == a then None
    else
      match LastHolderEnd(s, a + 2, run)
      case None => None
      case Some(j) =>
        var g := if ws < j then ws else j - 1;
        Some([s[g..j]])
  }

  /** The address group of `AddressLine` after the `Address` that ends at `a`. */
  function MatchAddress(s: string, a: nat): (r: Option<seq<string>>)
    requires a <= |s|
    ensures r.Some? ==> |r.value| == 1 && |r.value[0]| >= 1
  {
    var w1 := SpanFrom(s, a, Space);
    var c := if w1 < |s| && s[w1] == ':' then w1 + 1 else w1;
    var w2 := SpanFrom(s, c, Space);
    if w2 < |s| then Some([s[w2..FirstAddressEnd(s, w2 + 1)]])
    else if w2 > c || (c == w1 && w1 > a) then Some([s[|s| - 1..]])
    else if c > w1 then Some([":"])
    else None
  }

  /** The groups of a match of `p` that starts at `i`, or None when `p` does not match there. */
  function MatchAt(p: Pattern, s: string, i: nat): (r: Option<seq<string>>)
    requires i <= |s|
    ensures r.Some? ==> MatchesAt(s, Lead(p), i, IgnoresCase(p))
    ensures r.Some? && p.Field? ==> |r.value| == 1 && |r.value[0]| >= 1
    ensures r.Some? && p.Field? ==> forall k :: 0 <= k < |r.value[0]| ==> InClass(r.value[0][k], p.cls)
    ensures r.Some? && p.Field? && p.count.Exactly? ==> |r.value[0]| == p.count.n
    ensures r.Some? && p.Fixed? ==> r.value == []
    ensures r.Some? && (p.TwoNames? || p.NameFallback?) ==> |r.value| == 2
    ensures r.Some? && !(p.Fixed? || p.TwoNames? || p.NameFallback?) ==> |r.value| == 1
  {
    if !MatchesAt(s, Lead(p), i, IgnoresCase(p)) then None
    else
      var a := i + |Lead(p)|;
      match p
      case Field(_, ci, steps, cls, count) => MatchField(s, a, ci, steps, cls, count)
      case Fixed(_) => Some([])
      case TwoNames(spaced) => MatchTwoNames(s, a, spaced)
      case NameFallback => MatchNameFallback(s, a)
      case Between(_, closers) =>
        (match FirstOf(s, closers, a, true)
         case None => None
         case Some(j) => Some([s[a..j]]))
      case PinAfterCity => MatchPin(s, a)
      case HolderLine => MatchHolder(s, a)
      case AddressLine => MatchAddress(s, a)
  }

  /** `re.search(p, s[i:])` by start position: the leftmost position at or after `i` where `p` matches. */
  function SearchFrom(p: Pattern, s: string, i: nat): (r: Option<nat>)
    requires i <= |s|
    ensures r.Some? ==> i <= r.value <= |s| && MatchAt(p, s, r.value).Some?
    ensures r.Some? ==> forall k :: i <= k < r.value ==> MatchAt(p, s, k).None?
    ensures r.None? ==> forall k :: i <= k <= |s| ==> MatchAt(p, s, k).None?
    decreases |s| - i
  {
    if MatchAt(p, s, i).Some? then Some(i)
    else if i == |s| then None
    else SearchFrom(p, s, i + 1)
  }

  /** `re.search(p, s)`: the groups of the leftmost match. */
  function Search(p: Pattern, s: string): (r: Option<seq<string>>)
    ensures r.None? <==> forall k :: 0 <= k <= |s| ==> MatchAt(p, s, k).None?
    ensures r.Some? ==> exists i :: 0 <= i <= |s| && r == MatchAt(p, s, i) && forall k :: 0 <= k < i ==> MatchAt(p, s, k).None?
  {
    match SearchFrom(p, s, 0)
    case None => None
    case Some(i) => MatchAt(p, s, i)
  }

  /** What a `Field` pattern finds: one group, of characters of its class and of its fixed length if it has one. */
  lemma SearchField(p: Pattern, s: string)
    requires p.Field? && Search(p, s).Some?
    ensures var g := Search(p, s).value;
      && |g| == 1 && |g[0]| >= 1 && (forall k :: 0 <= k < |g[0]| ==> InClass(g[0][k], p.cls))
      && (p.count.Exactly? ==> |g[0]| == p.count.n)
  {
    var i :| 0 <= i <= |s| && Search(p, s) == MatchAt(p, s, i)
      && forall k :: 0 <= k < i ==> MatchAt(p, s, k).None?;
  }

  // ------------------------------------------------------------------- chains

  /** The pattern of a chain that decided, and its groups. */
  datatype Hit = Hit(index: nat, groups: seq<string>)

  /** What each pattern of the chain finds in `s`, in chain order. */
  function Results(chain: seq<Pattern>, s: string): (r: seq<Option<seq<string>>>)
    ensures |r| == |chain| && forall j :: 0 <= j < |chain| ==> r[j] == Search(chain[j], s)
  {
    seq(|chain|, j requires 0 <= j < |chain| => Search(chain[j], s))
  }

  /** The first result of `rs[k..]` that is a hit, with its index. */
  function FirstHitFrom(rs: seq<Option<seq<string>>>, k: nat): (r: Option<Hit>)
    ensures r.Some? ==> k <= r.value.index < |rs| && rs[r.value.index] == Some(r.value.groups)
    ensures r.Some? ==> forall j :: k <= j < r.value.index ==> rs[j].None?
    ensures r.None? ==> forall j :: k <= j < |rs| ==> rs[j].None?
    decreases |rs| - k
  {
    if k >= |rs| then None
    else match rs[k]
      case Some(g) => Some(Hit(k, g))
      case None => FirstHitFrom(rs, k + 1)
  }

  /** The ordered fallback chain: the first pattern that is found decides, later ones are not consulted. */
  function FirstMatch(chain: seq<Pattern>, s: string): (r: Option<Hit>)
    ensures r.Some? ==> r.value.index < |chain| && Search(chain[r.value.index], s) == Some(r.value.groups)
    ensures r.Some? ==> forall j :: 0 <= j < r.value.index ==> Search(chain[j], s).None?
    ensures r.None? ==> forall j :: 0 <= j < |chain| ==> Search(chain[j], s).None?
  {
    FirstHitFrom(Results(chain, s), 0)
  }

  /** The `for pattern in patterns: ... break` loop: tries the patterns in order and stops at the first hit. */
  method ChainSearch(chain: seq<Pattern>, s: string) returns (r: Option<Hit>)
    ensures r == FirstMatch(chain, s)
  {
    ghost var rs := Results(chain, s);
    r := None;
    var k := 0;
    while k < |chain|
      invariant 0 <= k <= |chain|
      invariant FirstMatch(chain, s) == FirstHitFrom(rs, k)
    {
      var m := Search(chain[k], s);
      if m.Some? {
        r := Some(Hit(k, m.value));
        break;
      }
      k := k + 1;
    }
  }

  /** A pattern that is not found changes nothing: the chain moves on to the next one. */
  lemma FirstMatchSkips(chain: seq<Pattern>, s: string)
    requires |chain| >= 1 && Search(chain[0], s).None?
    ensures FirstMatch(chain, s) == Shifted(FirstMatch(chain[1..], s))
  {
    var rs := Results(chain, s);
    assert Results(chain[1..], s) == rs[1..];
    FirstHitShift(rs, 1);
  }

  /** Patterns after the one that decides are never consulted: appending patterns to the chain changes nothing. */
  lemma FirstMatchIgnoresLater(chain: seq<Pattern>, more: seq<Pattern>, s: string)
    requires FirstMatch(chain, s).Some?
    ensures FirstMatch(chain + more, s) == FirstMatch(chain, s)
  {
    var h := FirstMatch(chain, s).value;
    var rs := Results(chain + more, s);
    assert forall j :: 0 <= j < |chain| ==> (chain + more)[j] == chain[j];
    FirstHitAt(rs, 0, h.index);
    FirstHitAt(Results(chain, s), 0, h.index);
  }

  /** The first hit from `k` is at `i` when `rs[i]` is a hit and nothing between `k` and `i` is. */
  lemma {:induction false} FirstHitAt(rs: seq<Option<seq<string>>>, k: nat, i: nat)
    requires k <= i < |rs| && rs[i].Some?
    requires forall j :: k <= j < i ==> rs[j].None?
    ensures FirstHitFrom(rs, k) == Some(Hit(i, rs[i].value))
    decreases i - k
  {
    if k < i {
      FirstHitAt(rs, k + 1, i);
    }
  }

  /** A pattern never matches where its leading literal does not occur. */
  lemma SearchNeedsLead(p: Pattern, s: string)
    requires forall i :: 0 <= i <= |s| ==> !MatchesAt(s, Lead(p), i, IgnoresCase(p))
    ensures Search(p, s).None?
  {
  }

  /** The `Hit` of `chain[k..]`, read as a hit of the chain with one more pattern in front. */
  function Shifted(h: Option<Hit>): Option<Hit> {
    match h
    case None => None
    case Some(h) => Some(Hit(h.index + 1, h.groups))
  }

  /** Dropping the first result moves every later hit one index down. */
  lemma {:induction false} FirstHitShift(rs: seq<Option<seq<string>>>, k: nat)
    requires 1 <= k <= |rs|
    ensures FirstHitFrom(rs, k) == Shifted(FirstHitFrom(rs[1..], k - 1))
    decreases |rs| - k
  {
    if k < |rs| {
      assert rs[1..][k - 1] == rs[k];
      if rs[k].None? {
        FirstHitShift(rs, k + 1);
      }
    }
  }
}
