/**
 * Statement lines as the two layouts print them, and what the parsers read back from
 * them. An HDFC line is a date, a narration and three amounts separated by single
 * blanks; the parser recovers each of them, the amounts positionally.
 */
module LineRoundTrip {
  import opened Wrappers
  import opened Text
  import opened Calendar
  import opened Amounts
  import opened LineParsers

  /** The two digit runs of a printed amount: a non-empty integer part and a fraction. */
  predicate AmountParts(ip: string, fp: string) {
    ip != [] && AllDigits(ip) && AllDigits(fp)
  }

  /** An amount as a statement prints it: `ip.fp`. */
  function AmountText(ip: string, fp: string): string {
    ip + "." + fp
  }

  /** A narration: clean free text without digits or commas, so it holds no amount. */
  predicate PlainWords(desc: string) {
    desc != [] && Normalized(desc) && forall k :: 0 <= k < |desc| ==> !InClass(desc[k], DigitOrComma)
  }

  /** Two fields separated by one blank. */
  function Blank(a: string, b: string): string {
    a + " " + b
  }

  /** An HDFC statement line: date, narration, withdrawal, deposit and closing balance. */
  function HdfcLine(date: string, desc: string, w: string, d: string, b: string): string {
    Blank(date, Blank(desc, Blank(w, Blank(d, b))))
  }

  // ------------------------------------------------------------------ helpers

  /** A printed amount is one match of the plain-number pattern, read as its exact value. */
  lemma {:induction false} ParseAmountText(ip: string, fp: string)
    requires AmountParts(ip, fp)
    ensures IsNumToken(AmountText(ip, fp))
    ensures ParseAmount(AmountText(ip, fp)) == Some(DecimalValue(ip, fp))
  {
    var t := AmountText(ip, fp);
    SpanFromIs(t, 0, |ip|, DigitOrComma);
    assert t[..|ip|] == ip && t[|ip| + 1..] == fp;
    DigitsOfDigits(ip);
  }

  /** A printed amount holds a digit and is read as its exact value. */
  lemma {:induction false} AmountRead(ip: string, fp: string)
    requires AmountParts(ip, fp)
    ensures IsNumToken(AmountText(ip, fp)) && HasDigit(AmountText(ip, fp))
    ensures ParseAmount(AmountText(ip, fp)) == Some(DecimalValue(ip, fp))
  {
    ParseAmountText(ip, fp);
    assert AmountText(ip, fp)[0] == ip[0];
  }

  /** A printed amount at `i`, not followed by a digit, is the next match of findall. */
  lemma {:induction false} AmountTokenAt(s: string, i: nat, ip: string, fp: string)
    requires AmountParts(ip, fp)
    requires i + |AmountText(ip, fp)| <= |s| && s[i..i + |AmountText(ip, fp)|] == AmountText(ip, fp)
    requires i + |AmountText(ip, fp)| < |s| ==> !IsDigit(s[i + |AmountText(ip, fp)|])
    ensures NumTokensFrom(s, i) == [AmountText(ip, fp)] + NumTokensFrom(s, i + |AmountText(ip, fp)|)
  {
    var t := AmountText(ip, fp);
    var a := i + |ip|;
    var e := i + |t|;
    assert forall k :: i <= k < e ==> s[k] == t[k - i];
    SpanFromIs(s, i, a, DigitOrComma);
    SpanFromIs(s, a + 1, e, Digit);
    assert TokenEnd(s, i) == e;
  }

  /** Where the pieces of `s`, a separator and `t` lie, seen from inside `s`. */
  lemma AroundSeparator(s: string, c: char, t: string, i: nat)
    requires i <= |s|
    ensures (s + [c] + t)[..i] == s[..i]
    ensures i < |s| ==> (s + [c] + t)[i + 1..] == s[i + 1..] + [c] + t
    ensures i == |s| ==> (s + [c] + t)[i + 1..] == t
    ensures Lacks(s, c, 0, i) ==> Lacks(s + [c] + t, c, 0, i)
  {
    var u := s + [c] + t;
    if Lacks(s, c, 0, i) {
      forall k | 0 <= k < i ensures u[k] != c {
        assert u[k] == s[k];
      }
    }
  }

  /** Splitting at a separator placed between two strings splits each of them. */
  lemma {:induction false} SplitConcat(s: string, c: char, t: string)
    ensures Split(s + [c] + t, c) == Split(s, c) + Split(t, c)
    decreases |s|
  {
    var u := s + [c] + t;
    match IndexOf(s, c)
    case None =>
      AroundSeparator(s, c, t, |s|);
      assert s[..|s|] == s;
      IndexOfIs(u, c, |s|);
      assert Split(u, c) == [s] + Split(t, c);
    case Some(i) =>
      AroundSeparator(s, c, t, i);
      IndexOfIs(u, c, i);
      SplitConcat(s[i + 1..], c, t);
      assert Split(u, c) == [s[..i]] + Split(s[i + 1..] + [c] + t, c);
  }

  /** Two clean non-empty strings joined by one blank make a clean string. */
  lemma {:induction false} NormalizedJoin(a: string, b: string)
    requires Normalized(a) && Normalized(b) && a != [] && b != []
    ensures Normalized(a + " " + b)
  {
    var u := a + " " + b;
    forall k | 0 <= k < |u| && IsSpace(u[k])
      ensures u[k] == ' ' && (k + 1 < |u| ==> !IsSpace(u[k + 1]))
    {
      if k < |a| {
        assert u[k] == a[k];
        if k + 1 < |a| { assert u[k + 1] == a[k + 1]; }
      } else if k > |a| {
        assert u[k] == b[k - |a| - 1];
        if k + 1 < |u| { assert u[k + 1] == b[k - |a|]; }
      } else {
        assert u[k + 1] == b[0];
      }
    }
    assert u[0] == a[0] && u[|u| - 1] == b[|b| - 1];
  }

  /** A string without whitespace is clean. */
  lemma {:induction false} NoSpaceNormalized(s: string)
    requires forall k :: 0 <= k < |s| ==> !IsSpace(s[k])
    ensures Normalized(s)
  {
  }

  /** A token of digits and slashes. */
  predicate SlashedDigits(tok: string) {
    tok != [] && forall k :: 0 <= k < |tok| ==> IsDigit(tok[k]) || tok[k] == '/'
  }

  /** A date the HDFC check accepts is digits and slashes. */
  lemma {:induction false} HdfcDateChars(tok: string)
    requires IsHdfcDate(tok)
    ensures SlashedDigits(tok)
  {
    var i, j := SplitThreeAt(tok, '/');
    var f := Split(tok, '/');
    assert f[0] == tok[..i] && f[1] == tok[i + 1..j] && f[2] == tok[j + 1..];
    forall k | 0 <= k < |tok|
      ensures IsDigit(tok[k]) || tok[k] == '/'
    {
      if k < i { assert tok[k] == f[0][k]; }
      else if i < k < j { assert tok[k] == f[1][k - i - 1]; }
      else if j < k { assert tok[k] == f[2][k - j - 1]; }
    }
  }

  /** A blank, clean text and a blank, stripped, is the text. */
  lemma StripPadded(x: string, desc: string)
    requires desc != [] && Normalized(desc) && x == " " + desc + " "
    ensures Strip(x) == desc
  {
    SpanFromIs(x, 0, 1, Space);
    var y := x[1..];
    assert y == desc + " ";
    assert SpaceRunBefore(y, |y| - 1) == |y| - 1;
    assert y[..|y| - 1] == desc;
  }

  // ------------------------------------------------------------- HDFC lines

  /** The fields of an HDFC line, as the round trip below needs them. */
  predicate HdfcFields(tok: string, desc: string, wi: string, wf: string, di: string, df: string, bi: string, bf: string) {
    IsHdfcDate(tok) && PlainWords(desc) && AmountParts(wi, wf) && AmountParts(di, df) && AmountParts(bi, bf)
  }

  /** Where the pieces of a blank-separated pair lie. */
  lemma {:induction false} BlankParts(a: string, b: string)
    ensures var u := Blank(a, b);
      |u| == |a| + 1 + |b| && u[..|a|] == a && u[|a|] == ' ' && u[|a| + 1..] == b
  {
  }

  /** Splitting at the blank of a pair splits each side. */
  lemma {:induction false} SplitBlank(a: string, b: string)
    ensures Split(Blank(a, b), ' ') == Split(a, ' ') + Split(b, ' ')
  {
    SplitConcat(a, ' ', b);
  }

  /** Splitting an HDFC line at blanks puts the date first, with at least four pieces after it. */
  lemma {:induction false} HdfcLineSplit(tok: string, desc: string, w: string, d: string, b: string)
    requires SlashedDigits(tok)
    ensures var parts := Split(HdfcLine(tok, desc, w, d, b), ' ');
      |parts| >= 5 && parts[0] == tok
  {
    SplitBlank(d, b);
    SplitBlank(w, Blank(d, b));
    SplitBlank(desc, Blank(w, Blank(d, b)));
    SplitBlank(tok, Blank(desc, Blank(w, Blank(d, b))));
    assert Lacks(tok, ' ', 0, |tok|);
  }

  /** What follows a blank-separated pair's blank, when the pair is a suffix of `s`. */
  lemma {:induction false} BlankSuffix(s: string, i: nat, a: string, r: string)
    requires i <= |s| && s[i..] == Blank(a, r)
    ensures i + |a| + 1 <= |s| && s[i + |a| + 1..] == r
  {
    BlankParts(a, r);
    assert s[i + |a| + 1..] == s[i..][|a| + 1..];
  }

  /** findall returns a printed amount that ends the text, and nothing after it. */
  lemma {:induction false} AmountAtEnd(s: string, i: nat, ip: string, fp: string)
    requires AmountParts(ip, fp) && i <= |s| && s[i..] == AmountText(ip, fp)
    ensures NumTokensFrom(s, i) == [AmountText(ip, fp)]
  {
    var w := AmountText(ip, fp);
    assert s[i..i + |w|] == w;
    AmountTokenAt(s, i, ip, fp);
  }

  /** A run that starts inside `t` ends at the same place when `t` follows any prefix. */
  lemma {:induction false} SpanFromShift(p: string, t: string, j: nat, cls: CharClass)
    requires j <= |t|
    ensures SpanFrom(p + t, |p| + j, cls) == |p| + SpanFrom(t, j, cls)
    decreases |t| - j
  {
    if j < |t| {
      assert (p + t)[|p| + j] == t[j];
      if InClass(t[j], cls) {
        SpanFromShift(p, t, j + 1, cls);
      }
    }
  }

  /** A match that starts inside `t` ends at the same place when `t` follows any prefix. */
  lemma TokenEndShift(p: string, t: string, j: nat)
    requires j < |t| && InClass(t[j], DigitOrComma)
    ensures |p| + j < |p + t| && (p + t)[|p| + j] == t[j]
    ensures TokenEnd(p + t, |p| + j) == |p| + TokenEnd(t, j)
  {
    var s := p + t;
    assert s[|p| + j] == t[j];
    var a := SpanFrom(t, j, DigitOrComma);
    SpanFromShift(p, t, j, DigitOrComma);
    if a < |t| {
      assert s[|p| + a] == t[a];
      if t[a] == '.' {
        SpanFromShift(p, t, a + 1, Digit);
      }
    }
  }

  /** One match of findall, taken after a prefix, is the same match as without it. */
  lemma TokenShiftStep(p: string, t: string, j: nat)
    requires j < |t| && InClass(t[j], DigitOrComma)
    requires NumTokensFrom(p + t, |p| + TokenEnd(t, j)) == NumTokensFrom(t, TokenEnd(t, j))
    ensures NumTokensFrom(p + t, |p| + j) == NumTokensFrom(t, j)
  {
    var e := TokenEnd(t, j);
    TokenEndShift(p, t, j);
    assert (p + t)[|p| + j..|p| + e] == t[j..e];
  }

  /** findall over the part of a text after a prefix does not see the prefix. */
  lemma {:induction false} TokensShift(p: string, t: string, j: nat)
    requires j <= |t|
    ensures NumTokensFrom(p + t, |p| + j) == NumTokensFrom(t, j)
    decreases |t| - j
  {
    if j < |t| {
      if InClass(t[j], DigitOrComma) {
        TokensShift(p, t, TokenEnd(t, j));
        TokenShiftStep(p, t, j);
      } else {
        TokensShift(p, t, j + 1);
        assert (p + t)[|p| + j] == t[j];
      }
    }
  }

  /** A run inside `a` stops at `a`'s end when what follows starts outside the class. */
  lemma {:induction false} SpanFromStops(a: string, t: string, i: nat, cls: CharClass)
    requires i <= |a| && (t != [] ==> !InClass(t[0], cls))
    ensures SpanFrom(a + t, i, cls) == SpanFrom(a, i, cls)
    decreases |a| - i
  {
    var s := a + t;
    if i < |a| {
      assert s[i] == a[i];
      if InClass(a[i], cls) {
        SpanFromStops(a, t, i + 1, cls);
      }
    } else if t != [] {
      assert s[i] == t[0];
    }
  }

  /** A match that starts inside `a` ends inside `a` when a blank follows `a`. */
  lemma TokenEndStops(a: string, b: string, i: nat)
    requires i < |a| && InClass(a[i], DigitOrComma)
    ensures Blank(a, b)[i] == a[i] && TokenEnd(Blank(a, b), i) == TokenEnd(a, i)
  {
    var s := Blank(a, b);
    var t := " " + b;
    assert s == a + t;
    assert s[i] == a[i];
    var x := SpanFrom(a, i, DigitOrComma);
    SpanFromStops(a, t, i, DigitOrComma);
    if x < |a| {
      assert s[x] == a[x];
      if a[x] == '.' {
        SpanFromStops(a, t, x + 1, Digit);
      }
    } else {
      assert s[x] == ' ';
    }
  }

  /** From the blank after `a` on, findall sees the matches of `b`. */
  lemma TokensAfterBlank(a: string, b: string)
    ensures NumTokensFrom(Blank(a, b), |a|) == NumTokens(b)
  {
    var s := Blank(a, b);
    assert s[|a|] == ' ';
    assert s == (a + " ") + b;
    TokensShift(a + " ", b, 0);
  }

  /** No match of findall runs across a blank: from inside `a`, the matches are those of `a`, then those of `b`. */
  lemma {:induction false} TokensBlankFrom(a: string, b: string, i: nat)
    requires i <= |a|
    ensures NumTokensFrom(Blank(a, b), i) == NumTokensFrom(a, i) + NumTokens(b)
    decreases |a| - i
  {
    var s := Blank(a, b);
    if i == |a| {
      TokensAfterBlank(a, b);
    } else {
      assert s[i] == a[i];
      if InClass(a[i], DigitOrComma) {
        var e := TokenEnd(a, i);
        TokenEndStops(a, b, i);
        assert s[i..e] == a[i..e];
        TokensBlankFrom(a, b, e);
      } else {
        TokensBlankFrom(a, b, i + 1);
      }
    }
  }

  /** findall over two fields separated by a blank finds the matches of each field. */
  lemma TokensBlank(a: string, b: string)
    ensures NumTokens(Blank(a, b)) == NumTokens(a) + NumTokens(b)
  {
    TokensBlankFrom(a, b, 0);
  }

  /** A narration holds no plain number. */
  lemma WordsNoTokens(desc: string)
    requires PlainWords(desc)
    ensures NumTokens(desc) == []
  {
    NumTokensSkip(desc, 0, |desc|);
  }

  /** A printed amount on its own is exactly one plain number. */
  lemma AmountTokens(ip: string, fp: string)
    requires AmountParts(ip, fp)
    ensures NumTokens(AmountText(ip, fp)) == [AmountText(ip, fp)]
  {
    AmountAtEnd(AmountText(ip, fp), 0, ip, fp);
  }

  /** On a line that starts with an HDFC date and a blank, findall first returns the date's pieces. */
  lemma {:induction false} HdfcDatePrefixTokens(tok: string, r: string)
    requires IsHdfcDate(tok)
    ensures var line := Blank(tok, r);
      |tok| + 1 <= |line| && NumTokens(line) == Split(tok, '/') + NumTokensFrom(line, |tok| + 1)
  {
    var line := Blank(tok, r);
    assert |Split(line, ' ')| >= 2 && Split(line, ' ')[0] == tok by {
      HdfcDateChars(tok);
      SplitBlank(tok, r);
      assert Lacks(tok, ' ', 0, |tok|);
    }
    HdfcDateTokens(line);
  }

  /** An HDFC date on its own gives findall its three digit runs. */
  lemma HdfcDateOwnTokens(tok: string)
    requires IsHdfcDate(tok)
    ensures NumTokens(tok) == Split(tok, '/')
  {
    var none: string := [];
    var line := Blank(tok, none);
    HdfcDatePrefixTokens(tok, none);
    TokensBlank(tok, none);
    assert NumTokensFrom(line, |tok| + 1) == [];
    assert NumTokens(none) == [];
    assert NumTokens(tok) + [] == Split(tok, '/') + [];
    assert NumTokens(tok) + [] == NumTokens(tok);
    assert Split(tok, '/') + [] == Split(tok, '/');
  }

  /** The plain numbers findall sees on an HDFC line: the date's three pieces, then the three amounts. */
  lemma {:induction false} HdfcLineTokens(tok: string, desc: string, wi: string, wf: string, di: string, df: string, bi: string, bf: string)
    requires HdfcFields(tok, desc, wi, wf, di, df, bi, bf)
    ensures var w, d, b := AmountText(wi, wf), AmountText(di, df), AmountText(bi, bf);
      NumTokens(HdfcLine(tok, desc, w, d, b)) == Split(tok, '/') + [w, d, b]
  {
    var w, d, b := AmountText(wi, wf), AmountText(di, df), AmountText(bi, bf);
    TokensBlank(d, b);
    TokensBlank(w, Blank(d, b));
    TokensBlank(desc, Blank(w, Blank(d, b)));
    TokensBlank(tok, Blank(desc, Blank(w, Blank(d, b))));
    HdfcDateOwnTokens(tok);
    WordsNoTokens(desc);
    AmountTokens(wi, wf);
    AmountTokens(di, df);
    AmountTokens(bi, bf);
  }

  /** A printed amount holds no whitespace. */
  lemma {:induction false} AmountClean(ip: string, fp: string)
    requires AmountParts(ip, fp)
    ensures Normalized(AmountText(ip, fp)) && AmountText(ip, fp) != []
  {
    var t := AmountText(ip, fp);
    forall k | 0 <= k < |t|
      ensures !IsSpace(t[k])
    {
      if k < |ip| { assert t[k] == ip[k]; }
      else if k > |ip| { assert t[k] == fp[k - |ip| - 1]; }
    }
    NoSpaceNormalized(t);
  }

  /** An HDFC line is already clean, so the parser's clean-up leaves it as it is. */
  lemma {:induction false} HdfcLineClean(tok: string, desc: string, wi: string, wf: string, di: string, df: string, bi: string, bf: string)
    requires HdfcFields(tok, desc, wi, wf, di, df, bi, bf)
    ensures var line := HdfcLine(tok, desc, AmountText(wi, wf), AmountText(di, df), AmountText(bi, bf));
      Normalize(line) == line
  {
    var w, d, b := AmountText(wi, wf), AmountText(di, df), AmountText(bi, bf);
    HdfcDateChars(tok);
    NoSpaceNormalized(tok);
    AmountClean(wi, wf);
    AmountClean(di, df);
    AmountClean(bi, bf);
    NormalizedJoin(d, b);
    NormalizedJoin(w, Blank(d, b));
    NormalizedJoin(desc, Blank(w, Blank(d, b)));
    NormalizedJoin(tok, Blank(desc, Blank(w, Blank(d, b))));
    NormalizeFixes(HdfcLine(tok, desc, w, d, b));
  }

  /** One differing character rules out an occurrence. */
  lemma {:induction false} Mismatch(s: string, w: string, k: nat, m: nat)
    requires m < |w| && k + m < |s| && s[k + m] != w[m]
    ensures !OccursAt(s, w, k)
  {
    if k + |w| <= |s| {
      assert s[k..k + |w|][m] == s[k + m];
    }
  }

  /** The withdrawal amount does not occur before the narration's end: no digit is there but the date's. */
  lemma {:induction false} NotBeforeNarrationEnd(tok: string, desc: string, wi: string, wf: string, r: string, k: nat)
    requires SlashedDigits(tok) && PlainWords(desc) && AmountParts(wi, wf)
    requires k < |tok| + 1 + |desc| + 1
    ensures !OccursAt(Blank(tok, Blank(desc, Blank(AmountText(wi, wf), r))), AmountText(wi, wf), k)
  {
    var w := AmountText(wi, wf);
    var r1 := Blank(desc, Blank(w, r));
    var line := Blank(tok, r1);
    var p1 := |tok| + 1;
    BlankParts(tok, r1);
    BlankParts(desc, Blank(w, r));
    if k >= p1 {
      assert line[k] == r1[k - p1];
      if k < p1 + |desc| { assert r1[k - p1] == desc[k - p1]; }
      assert w[0] == wi[0];
      Mismatch(line, w, k, 0);
    } else if |tok| < k + |wi| {
      assert w[|tok| - k] == wi[|tok| - k];
      Mismatch(line, w, k, |tok| - k);
    } else {
      if k + |wi| < |tok| { assert line[k + |wi|] == tok[k + |wi|]; }
      assert w[|wi|] == '.';
      Mismatch(line, w, k, |wi|);
    }
  }

  /** The withdrawal amount is first found right after the narration. */
  lemma {:induction false} HdfcLineFind(tok: string, desc: string, wi: string, wf: string, d: string, b: string)
    requires SlashedDigits(tok) && PlainWords(desc) && AmountParts(wi, wf)
    ensures var w := AmountText(wi, wf);
      PyFind(HdfcLine(tok, desc, w, d, b), w) == |tok| + 1 + |desc| + 1
  {
    var w := AmountText(wi, wf);
    var r2 := Blank(w, Blank(d, b));
    var r1 := Blank(desc, r2);
    var line := Blank(tok, r1);
    var p1 := |tok| + 1;
    var pw := p1 + |desc| + 1;
    BlankSuffix(line, 0, tok, r1);
    BlankSuffix(line, p1, desc, r2);
    assert line[pw..pw + |w|] == r2[..|w|] == w;
    assert OccursAt(line, w, pw);
    forall k | 0 <= k < pw
      ensures !OccursAt(line, w, k)
    {
      NotBeforeNarrationEnd(tok, desc, wi, wf, Blank(d, b), k);
    }
    ContainsIff(line, w);
  }

  /** Between the date and the withdrawal an HDFC line holds the narration with a blank on each side. */
  lemma {:induction false} HdfcLinePadded(tok: string, desc: string, r: string)
    ensures var line := Blank(tok, Blank(desc, r));
      |tok| + |desc| + 2 <= |line| && line[|tok|..|tok| + |desc| + 2] == " " + desc + " "
  {
    var r1 := Blank(desc, r);
    var line := Blank(tok, r1);
    BlankParts(tok, r1);
    BlankParts(desc, r);
    assert line[|tok|..|tok| + |desc| + 2] == [line[|tok|]] + r1[..|desc| + 1];
  }

  /** The HDFC narration is the stripped text between a leading date and the first of the last three numbers. */
  lemma HdfcCutAt(line: string, tok: string, nums: seq<string>, e: nat)
    requires |nums| >= 3 && OccursAt(line, tok, 0)
    requires |tok| <= e <= |line| && PyFind(line, nums[|nums| - 3]) == e
    ensures HdfcDescription(line, tok, nums) == Strip(line[|tok|..e])
  {
    HdfcDescriptionAt(line, tok, nums);
  }

  /** When the text the parser cuts out strips to the narration, the narration is what it returns. */
  lemma HdfcCutDescription(line: string, tok: string, nums: seq<string>, e: nat, x: string, desc: string)
    requires |nums| >= 3 && OccursAt(line, tok, 0)
    requires |tok| <= e <= |line| && PyFind(line, nums[|nums| - 3]) == e
    requires line[|tok|..e] == x && Strip(x) == desc
    ensures HdfcDescription(line, tok, nums) == desc
  {
    HdfcCutAt(line, tok, nums, e);
  }

  /** The narration the parser cuts out of an HDFC line is the one printed there. */
  lemma HdfcLineDescription(tok: string, desc: string, r: string, nums: seq<string>)
    requires desc != [] && Normalized(desc) && |nums| >= 3
    requires PyFind(Blank(tok, Blank(desc, r)), nums[|nums| - 3]) == |tok| + 1 + |desc| + 1
    ensures HdfcDescription(Blank(tok, Blank(desc, r)), tok, nums) == desc
  {
    var line := Blank(tok, Blank(desc, r));
    var e := |tok| + |desc| + 2;
    assert OccursAt(line, tok, 0) by {
      BlankParts(tok, Blank(desc, r));
    }
    HdfcLinePadded(tok, desc, r);
    var x := line[|tok|..e];
    StripPadded(x, desc);
    HdfcCutDescription(line, tok, nums, e, x, desc);
  }

  /** What the HDFC line parser returns, given what it finds on the line. */
  lemma {:induction false} HdfcParsedFrom(line: string, tok: string, desc: string, w: string, d: string, b: string, wv: real, dv: real, bv: real)
    requires |Split(line, ' ')| >= 4 && Split(line, ' ')[0] == tok && IsHdfcDate(tok)
    requires NumTokens(line) == Split(tok, '/') + [w, d, b]
    requires IsNumToken(w) && IsNumToken(d) && IsNumToken(b) && HasDigit(w) && HasDigit(d) && HasDigit(b)
    requires ParseAmount(w) == Some(wv) && ParseAmount(d) == Some(dv) && ParseAmount(b) == Some(bv)
    requires HdfcDescription(line, tok, NumTokens(line)) == desc
    ensures ParseHdfcLine(line) == Some(Transaction(HdfcDateOf(Split(tok, '/')), desc, wv, dv, bv))
  {
    var nums := NumTokens(line);
    var n := |nums|;
    assert nums[n - 3] == w && nums[n - 2] == d && nums[n - 1] == b;
    var r := ParseHdfcLine(line);
    assert r.Some?;
    var f := LastThree(nums);
    assert f == Some(Figures(r.value.withdrawal, r.value.deposit, r.value.balance));
    assert f.value.withdrawal == wv && f.value.deposit == dv && f.value.balance == bv;
  }

  /** The HDFC line parser reads back every field of an HDFC line. */
  lemma {:induction false} HdfcLineParses(tok: string, desc: string, wi: string, wf: string, di: string, df: string, bi: string, bf: string)
    requires HdfcFields(tok, desc, wi, wf, di, df, bi, bf)
    ensures ParseHdfcLine(HdfcLine(tok, desc, AmountText(wi, wf), AmountText(di, df), AmountText(bi, bf)))
      == Some(Transaction(HdfcDateOf(Split(tok, '/')), desc, DecimalValue(wi, wf), DecimalValue(di, df), DecimalValue(bi, bf)))
  {
    var w, d, b := AmountText(wi, wf), AmountText(di, df), AmountText(bi, bf);
    var line := HdfcLine(tok, desc, w, d, b);
    HdfcDateChars(tok);
    HdfcLineSplit(tok, desc, w, d, b);
    HdfcLineTokens(tok, desc, wi, wf, di, df, bi, bf);
    AmountRead(wi, wf);
    AmountRead(di, df);
    AmountRead(bi, bf);
    HdfcLineFind(tok, desc, wi, wf, d, b);
    HdfcLineDescription(tok, desc, Blank(w, Blank(d, b)), NumTokens(line));
    HdfcParsedFrom(line, tok, desc, w, d, b, DecimalValue(wi, wf), DecimalValue(di, df), DecimalValue(bi, bf));
  }

  /**
   * An HDFC line gives back the transaction it prints: the date its token names, the
   * narration, and the exact values of the three amounts.
   */
  lemma {:induction false} HdfcLineRoundTrip(tok: string, desc: string, wi: string, wf: string, di: string, df: string, bi: string, bf: string)
    requires HdfcFields(tok, desc, wi, wf, di, df, bi, bf)
    ensures ParseHdfc(HdfcLine(tok, desc, AmountText(wi, wf), AmountText(di, df), AmountText(bi, bf)))
      == Some(Transaction(HdfcDateOf(Split(tok, '/')), desc, DecimalValue(wi, wf), DecimalValue(di, df), DecimalValue(bi, bf)))
  {
    HdfcLineParses(tok, desc, wi, wf, di, df, bi, bf);
    HdfcLineClean(tok, desc, wi, wf, di, df, bi, bf);
  }

  /** Printed as `DD/MM/YYYY`, a line's date is read back as the date itself. */
  lemma {:induction false} HdfcFormattedRoundTrip(date: Date, desc: string, wi: string, wf: string, di: string, df: string, bi: string, bf: string)
    requires ValidDate(date) && PlainWords(desc)
    requires AmountParts(wi, wf) && AmountParts(di, df) && AmountParts(bi, bf)
    ensures ParseHdfc(HdfcLine(FormatHdfcDate(date), desc, AmountText(wi, wf), AmountText(di, df), AmountText(bi, bf)))
      == Some(Transaction(date, desc, DecimalValue(wi, wf), DecimalValue(di, df), DecimalValue(bi, bf)))
  {
    HdfcFormatParse(date);
    HdfcLineRoundTrip(FormatHdfcDate(date), desc, wi, wf, di, df, bi, bf);
  }
}
