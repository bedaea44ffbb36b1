/**
 * The two amount patterns of the line parsers, as `re.findall` evaluates them, and
 * `float(tok.replace(',', ''))` on what they find.
 *
 *  - `[0-9,]+\.?[0-9]*` (plain numbers): every part after the first can match
 *    the empty string, so the greedy match at a position never backtracks; findall
 *    takes the match and continues at its end, or moves one character on.
 *  - `([0-9,]+\.?[0-9]*)\s*(Cr|Dr)` (amounts with a suffix): a shorter number or
 *    fewer spaces always leaves a digit, comma or space where `Cr`/`Dr` or `\s`
 *    would have to be, so the pattern matches at a position exactly when the greedy
 *    number there is followed by spaces and `Cr` or `Dr`. When it does not, the
 *    search moves one character on, which can be inside that number.
 *
 * Amounts are exact decimals; binary floating-point rounding is not modelled.
 */
module Amounts {
  import opened Wrappers
  import opened Text

  /** The shape of a match of `[0-9,]+\.?[0-9]*`. */
  predicate IsNumToken(t: string) {
    var a := SpanFrom(t, 0, DigitOrComma);
    a >= 1 && (a == |t| || (t[a] == '.' && AllDigits(t[a + 1..])))
  }

  /** The end of the greedy match of `[0-9,]+\.?[0-9]*` that starts at `i`. */
  function TokenEnd(s: string, i: nat): (e: nat)
    requires i < |s| && InClass(s[i], DigitOrComma)
    ensures i < e <= |s|
    ensures IsNumToken(s[i..e])
  {
    var a := SpanFrom(s, i, DigitOrComma);
    var t := if a < |s| && s[a] == '.' then s[i..SpanFrom(s, a + 1, Digit)] else s[i..a];
    SpanFromIs(t, 0, a - i, DigitOrComma);
    if a < |s| && s[a] == '.' then SpanFrom(s, a + 1, Digit) else a
  }

  /** `re.findall(r'[0-9,]+\.?[0-9]*', s[i:])`. */
  function NumTokensFrom(s: string, i: nat): (r: seq<string>)
    requires i <= |s|
    ensures forall k :: 0 <= k < |r| ==> IsNumToken(r[k])
    decreases |s| - i
  {
    if i == |s| then []
    else if InClass(s[i], DigitOrComma) then
      var e := TokenEnd(s, i);
      [s[i..e]] + NumTokensFrom(s, e)
    else NumTokensFrom(s, i + 1)
  }

  /** `re.findall(r'[0-9,]+\.?[0-9]*', s)`. */
  function NumTokens(s: string): (r: seq<string>)
    ensures forall k :: 0 <= k < |r| ==> IsNumToken(r[k])
  {
    NumTokensFrom(s, 0)
  }

  /** Every match findall returns is a piece of the text, found at or after `i`. */
  lemma {:induction false} TokenOccurs(s: string, i: nat, k: nat) returns (j: nat)
    requires i <= |s| && k < |NumTokensFrom(s, i)|
    ensures i <= j && OccursAt(s, NumTokensFrom(s, i)[k], j)
    decreases |s| - i
  {
    if InClass(s[i], DigitOrComma) {
      var e := TokenEnd(s, i);
      if k == 0 {
        j := i;
      } else {
        j := TokenOccurs(s, e, k - 1);
      }
    } else {
      j := TokenOccurs(s, i + 1, k);
    }
  }

  /** `s.find(t)` finds every match `t` of findall. */
  lemma TokenFound(s: string, k: nat)
    requires k < |NumTokens(s)|
    ensures PyFind(s, NumTokens(s)[k]) >= 0
  {
    var j := TokenOccurs(s, 0, k);
    ContainsIff(s, NumTokens(s)[k]);
  }

  /** No character of `s[i..]` is a digit or a comma. */
  predicate NoNumberFrom(s: string, i: nat) {
    forall k :: i <= k < |s| ==> !InClass(s[k], DigitOrComma)
  }

  /** findall finds nothing exactly when no digit or comma is left to start a match. */
  lemma {:induction false} NumTokensEmpty(s: string, i: nat)
    requires i <= |s|
    ensures NumTokensFrom(s, i) == [] <==> NoNumberFrom(s, i)
    decreases |s| - i
  {
    if i < |s| && !InClass(s[i], DigitOrComma) {
      NumTokensEmpty(s, i + 1);
    }
  }

  /** The text between two matches holds no digit or comma: findall skips exactly those characters. */
  lemma {:induction false} NumTokensSkip(s: string, i: nat, j: nat)
    requires i <= j <= |s|
    requires forall k :: i <= k < j ==> !InClass(s[k], DigitOrComma)
    ensures NumTokensFrom(s, i) == NumTokensFrom(s, j)
    decreases j - i
  {
    if i < j {
      NumTokensSkip(s, i + 1, j);
    }
  }

  /** A run of digits closed by a character that cannot continue a number is one match of its own. */
  lemma DigitsThenSeparator(s: string, i: nat, e: nat)
    requires i < e < |s| && AllDigits(s[i..e]) && !IsDigit(s[e]) && s[e] != ',' && s[e] != '.'
    ensures NumTokensFrom(s, i) == [s[i..e]] + NumTokensFrom(s, e + 1)
  {
    assert forall k :: i <= k < e ==> s[k] == s[i..e][k - i];
    SpanFromIs(s, i, e, DigitOrComma);
  }

  /** Three digit runs, each closed by a character that cannot continue a number, are the first three matches. */
  lemma ThreeDigitRuns(s: string, i: nat, j: nat, n: nat)
    requires 0 < i && i + 1 < j && j + 1 < n < |s|
    requires AllDigits(s[..i]) && AllDigits(s[i + 1..j]) && AllDigits(s[j + 1..n])
    requires forall k :: k in {i, j, n} ==> !IsDigit(s[k]) && s[k] != ',' && s[k] != '.'
    ensures NumTokensFrom(s, 0) == [s[..i], s[i + 1..j], s[j + 1..n]] + NumTokensFrom(s, n + 1)
  {
    assert s[0..i] == s[..i];
    DigitsThenSeparator(s, 0, i);
    DigitsThenSeparator(s, i + 1, j);
    DigitsThenSeparator(s, j + 1, n);
  }

  // ------------------------------------------------------------------ Cr / Dr

  datatype Suffix = Cr | Dr

  /** One match of `([0-9,]+\.?[0-9]*)\s*(Cr|Dr)`: the two groups findall returns. */
  datatype Marked = Marked(number: string, suffix: Suffix)

  /** The suffix that follows position `w`, if any. */
  function SuffixAt(s: string, w: nat): (r: Option<Suffix>)
    ensures r == Some(Cr) <==> OccursAt(s, "Cr", w)
    ensures r == Some(Dr) <==> OccursAt(s, "Dr", w)
  {
    if OccursAt(s, "Cr", w) then Some(Cr)
    else if OccursAt(s, "Dr", w) then Some(Dr)
    else None
  }

  /** `re.findall(r'([0-9,]+\.?[0-9]*)\s*(Cr|Dr)', s[i:])`. */
  function MarkedFrom(s: string, i: nat): (r: seq<Marked>)
    requires i <= |s|
    ensures forall k :: 0 <= k < |r| ==> IsNumToken(r[k].number)
    decreases |s| - i
  {
    if i == |s| then []
    else if InClass(s[i], DigitOrComma) then
      var e := TokenEnd(s, i);
      var w := SpanFrom(s, e, Space);
      match SuffixAt(s, w)
      case Some(x) => [Marked(s[i..e], x)] + MarkedFrom(s, w + 2)
      case None => MarkedFrom(s, i + 1)
    else MarkedFrom(s, i + 1)
  }

  /** `re.findall(r'([0-9,]+\.?[0-9]*)\s*(Cr|Dr)', s)`. */
  function MarkedAmounts(s: string): (r: seq<Marked>)
    ensures forall k :: 0 <= k < |r| ==> IsNumToken(r[k].number)
  {
    MarkedFrom(s, 0)
  }

  /** Every suffixed amount is also a place where `Cr` or `Dr` occurs, so a line without either has none. */
  lemma {:induction false} MarkedNeedsSuffix(s: string, i: nat)
    requires i <= |s|
    requires forall k :: i <= k ==> !OccursAt(s, "Cr", k) && !OccursAt(s, "Dr", k)
    ensures MarkedFrom(s, i) == []
    decreases |s| - i
  {
    if i < |s| {
      MarkedNeedsSuffix(s, i + 1);
    }
  }

  // ------------------------------------------------------------------- values

  /** The digits of `t`, in order (what `replace(',', '')` leaves of a run of digits and commas). */
  function DigitsOf(t: string): (r: string)
    ensures AllDigits(r)
    ensures r == [] <==> forall k :: 0 <= k < |t| ==> !IsDigit(t[k])
  {
    if t == [] then []
    else (if IsDigit(t[0]) then [t[0]] else []) + DigitsOf(t[1..])
  }

  /** The exact value of the decimal numeral `ip.fp`. */
  function DecimalValue(ip: string, fp: string): (r: real)
    ensures r >= 0.0
  {
    DigitsValue(ip) as real + DigitsValue(fp) as real / Pow10(|fp|) as real
  }

  /**
   * `float(t.replace(',', ''))` for a match of the plain-number pattern: it fails
   * exactly when the token has no digit (`','`, `',.'`), and is otherwise the value of
   * the digits before the point, plus the fraction after it.
   */
  function ParseAmount(t: string): (r: Option<real>)
    requires IsNumToken(t)
    ensures r.None? <==> forall k :: 0 <= k < |t| ==> !IsDigit(t[k])
    ensures r.Some? ==> r.value >= 0.0
  {
    var a := SpanFrom(t, 0, DigitOrComma);
    var ip := DigitsOf(t[..a]);
    var fp := if a < |t| then t[a + 1..] else [];
    assert forall k :: 0 <= k < |t| && k != a ==> (k < a ==> t[k] == t[..a][k]) && (k > a ==> t[k] == fp[k - a - 1]);
    if ip == [] && fp == [] then None
    else Some(DecimalValue(ip, fp))
  }

  /** A token of digits only is read as the number it spells. */
  lemma ParseAmountDigits(t: string)
    requires t != [] && AllDigits(t)
    ensures IsNumToken(t) && ParseAmount(t) == Some(DigitsValue(t) as real)
  {
    SpanFromIs(t, 0, |t|, DigitOrComma);
    assert t[..|t|] == t;
    DigitsOfDigits(t);
    assert DecimalValue(t, []) == DigitsValue(t) as real;
  }

  lemma {:induction false} DigitsOfDigits(t: string)
    requires AllDigits(t)
    ensures DigitsOf(t) == t
  {
    if t != [] {
      DigitsOfDigits(t[1..]);
    }
  }

  // ------------------------------------------------------- float(t.replace(',', ''))

  /** `s.replace(',', '')`. */
  function RemoveCommas(s: string): (r: string)
    ensures forall k :: 0 <= k < |r| ==> r[k] != ','
    ensures |r| <= |s|
  {
    if s == [] then [] else (if s[0] == ',' then [] else [s[0]]) + RemoveCommas(s[1..])
  }

  /** ASCII digits with at most one point: the strings `float` is given here. */
  predicate DecimalString(s: string) {
    (forall k :: 0 <= k < |s| ==> IsDigit(s[k]) || s[k] == '.')
    && forall i, j :: 0 <= i < j < |s| && s[i] == '.' ==> s[j] != '.'
  }

  /**
   * `float(s)` for such a string: the digits before the point are the integer part and
   * those after it the fraction; `float('')` and `float('.')` raise.
   */
  function PyFloat(s: string): (r: Option<real>)
    requires DecimalString(s)
    ensures r.None? <==> forall k :: 0 <= k < |s| ==> !IsDigit(s[k])
  {
    match IndexOf(s, '.')
    case None => if s == [] then None else Some(DigitsValue(s) as real)
    case Some(p) =>
      if p == 0 && |s| == 1 then None
      else
        assert p > 0 ==> IsDigit(s[0]);
        assert p + 1 < |s| ==> IsDigit(s[p + 1]);
        Some(DecimalValue(s[..p], s[p + 1..]))
  }

  lemma {:induction false} RemoveCommasConcat(x: string, y: string)
    ensures RemoveCommas(x + y) == RemoveCommas(x) + RemoveCommas(y)
    decreases |x|
  {
    if x == [] {
      assert x + y == y;
    } else {
      assert (x + y)[0] == x[0];
      assert (x + y)[1..] == x[1..] + y;
      RemoveCommasConcat(x[1..], y);
    }
  }

  /** On a run of digits and commas, removing the commas keeps the digits. */
  lemma {:induction false} RemoveCommasOfRun(x: string)
    requires forall k :: 0 <= k < |x| ==> InClass(x[k], DigitOrComma)
    ensures RemoveCommas(x) == DigitsOf(x)
    decreases |x|
  {
    if x != [] {
      RemoveCommasOfRun(x[1..]);
    }
  }

  /** A string without commas is left as it is. */
  lemma {:induction false} RemoveCommasNone(x: string)
    requires forall k :: 0 <= k < |x| ==> x[k] != ','
    ensures RemoveCommas(x) == x
    decreases |x|
  {
    if x != [] {
      RemoveCommasNone(x[1..]);
    }
  }

  /** `float` of a run of digits is the number they spell; of nothing it raises. */
  lemma PyFloatWhole(ip: string)
    requires AllDigits(ip)
    ensures DecimalString(ip)
    ensures PyFloat(ip) == if ip == [] then None else Some(DecimalValue(ip, []))
  {
    assert Lacks(ip, '.', 0, |ip|);
  }

  /** `float` of `ip.fp` is its decimal value, unless both digit runs are empty. */
  lemma PyFloatPoint(ip: string, fp: string)
    requires AllDigits(ip) && AllDigits(fp)
    ensures DecimalString(ip + ['.'] + fp)
    ensures PyFloat(ip + ['.'] + fp) == if ip == [] && fp == [] then None else Some(DecimalValue(ip, fp))
  {
    var u := ip + ['.'] + fp;
    assert u[..|ip|] == ip && u[|ip| + 1..] == fp;
    IndexOfIs(u, '.', |ip|);
  }

  /** Removing the commas of `x.fp`, with `x` digits and commas, leaves the digits of `x`, the point and `fp`. */
  lemma RemoveCommasPoint(x: string, fp: string)
    requires forall k :: 0 <= k < |x| ==> InClass(x[k], DigitOrComma)
    requires AllDigits(fp)
    ensures RemoveCommas(x + ['.'] + fp) == DigitsOf(x) + ['.'] + fp
  {
    var dot: string := ['.'];
    RemoveCommasNone(dot);
    RemoveCommasConcat(x, dot);
    RemoveCommasConcat(x + dot, fp);
    RemoveCommasNone(fp);
    RemoveCommasOfRun(x);
  }

  /**
   * Every token findall returns reads as `float(t.replace(',', ''))`: the commas of the
   * integer part are dropped and the rest is read as a decimal numeral.
   */
  lemma ParseAmountFloat(t: string)
    requires IsNumToken(t)
    ensures DecimalString(RemoveCommas(t))
    ensures ParseAmount(t) == PyFloat(RemoveCommas(t))
  {
    var a := SpanFrom(t, 0, DigitOrComma);
    var ip := DigitsOf(t[..a]);
    if a == |t| {
      assert t[..a] == t;
      RemoveCommasOfRun(t);
      PyFloatWhole(ip);
    } else {
      var fp := t[a + 1..];
      assert t == t[..a] + ['.'] + fp;
      RemoveCommasPoint(t[..a], fp);
      PyFloatPoint(ip, fp);
    }
  }

  /** Where the grouping commas stand does not matter: deleting one leaves the value unchanged. */
  lemma CommaIgnored(a: string, b: string)
    requires IsNumToken(a + [','] + b) && IsNumToken(a + b)
    ensures ParseAmount(a + [','] + b) == ParseAmount(a + b)
  {
    var comma: string := [','];
    assert RemoveCommas(comma) == [] by {
      assert comma[1..] == [];
    }
    RemoveCommasConcat(a, comma);
    RemoveCommasConcat(a + comma, b);
    RemoveCommasConcat(a, b);
    assert RemoveCommas(a + comma + b) == RemoveCommas(a + b);
    ParseAmountFloat(a + comma + b);
    ParseAmountFloat(a + b);
  }
}
