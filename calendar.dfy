/**
 * Calendar dates and the two date formats the line parsers accept: the
 * `re.match` pre-check each parser applies to the first token, followed by
 * `datetime.strptime` with `%d-%m-%Y` (ICICI) or `%d/%m/%y`, `%d/%m/%Y` (HDFC).
 */
module Calendar {
  import opened Wrappers
  import opened Text

  datatype Date = Date(year: int, month: int, day: int)

  /** Gregorian leap years, as `datetime` uses them. */
  predicate IsLeap(y: int) {
    y % 4 == 0 && (y % 100 != 0 || y % 400 == 0)
  }

  function DaysInMonth(y: int, m: int): int
    requires 1 <= m <= 12
  {
    if m == 2 then (if IsLeap(y) then 29 else 28)
    else if m == 4 || m == 6 || m == 9 || m == 11 then 30
    else 31
  }

  /** What `datetime.date(year, month, day)` accepts (years 1 to 9999). */
  predicate ValidDate(d: Date) {
    1 <= d.year <= 9999 && 1 <= d.month <= 12 && 1 <= d.day <= DaysInMonth(d.year, d.month)
  }

  // ------------------------------------------------------------ strptime fields

  /** The text `%d` matches: `3[01]|[12]\d|0[1-9]|[1-9]| [1-9]`. */
  predicate DayField(f: string) {
    || (|f| == 1 && '1' <= f[0] <= '9')
    || (|f| == 2 && AllDigits(f) && 1 <= DigitsValue(f) <= 31)
    || (|f| == 2 && f[0] == ' ' && '1' <= f[1] <= '9')
  }

  /** The text `%m` matches: `1[0-2]|0[1-9]|[1-9]`. */
  predicate MonthField(f: string) {
    || (|f| == 1 && '1' <= f[0] <= '9')
    || (|f| == 2 && AllDigits(f) && 1 <= DigitsValue(f) <= 12)
  }

  function FieldValue(f: string): nat {
    if f != [] && f[0] == ' ' then DigitsValue(f[1..]) else DigitsValue(f)
  }

  /** `%y`: 00 to 68 are 2000 to 2068, 69 to 99 are 1969 to 1999. */
  function CenturyPivot(yy: nat): (y: int)
    requires yy < 100
    ensures 1969 <= y <= 2068 && y % 100 == yy
  {
    if yy <= 68 then 2000 + yy else 1900 + yy
  }

  /**
   * `datetime.strptime(tok, '%d<sep>%m<sep>%Y')` (`yearDigits == 4`) or
   * `'%d<sep>%m<sep>%y'` (`yearDigits == 2`). The day and month fields cannot
   * contain the separator, and the year is a fixed number of digits that must
   * reach the end of the token (otherwise strptime reports unconverted data),
   * so a token is accepted exactly when it splits into three such fields that
   * name a real calendar date.
   */
  function Strptime(tok: string, sep: char, yearDigits: nat): (r: Option<Date>)
    requires yearDigits == 2 || yearDigits == 4
    requires !IsDigit(sep) && sep != ' '
    ensures r.Some? ==> ValidDate(r.value)
  {
    var f := Split(tok, sep);
    if |f| != 3 || !DayField(f[0]) || !MonthField(f[1]) || |f[2]| != yearDigits || !AllDigits(f[2]) then None
    else
      var yv := DigitsValue(f[2]);
      var year := if yearDigits == 2 then (DigitsValueBound(f[2]); CenturyPivot(yv)) else yv;
      var d := Date(year, FieldValue(f[1]), FieldValue(f[0]));
      if ValidDate(d) then Some(d) else None
  }

  // --------------------------------------------------------------------- ICICI

  /** `re.match(r'\d{2}-\d{2}-\d{4}', tok)`: a prefix test. */
  predicate IciciDatePrefix(tok: string) {
    && |tok| >= 10
    && AllDigits(tok[..2]) && tok[2] == '-' && AllDigits(tok[3..5]) && tok[5] == '-' && AllDigits(tok[6..10])
  }

  /** The ICICI date check: the `re.match` pre-check, then `strptime(tok, '%d-%m-%Y')`. */
  function ParseIciciDate(tok: string): (r: Option<Date>)
    ensures r.Some? <==> IsIciciDate(tok)
    ensures r.Some? ==> r.value == IciciDateOf(tok) && ValidDate(r.value)
  {
    if !IciciDatePrefix(tok) then None
    else
      IciciStrptime(tok);
      Strptime(tok, '-', 4)
  }

  /** Under the pre-check, `strptime(tok, '%d-%m-%Y')` accepts exactly the ICICI dates. */
  lemma IciciStrptime(tok: string)
    requires IciciDatePrefix(tok)
    ensures Strptime(tok, '-', 4) == if IsIciciDate(tok) then Some(IciciDateOf(tok)) else None
  {
    IciciSplit(tok);
    var f := Split(tok, '-');
    if |tok| == 10 {
      IciciTenLacks(tok);
      assert f[2] == tok[6..10];
      assert FieldValue(tok[..2]) == DigitsValue(tok[..2]);
      assert FieldValue(tok[3..5]) == DigitsValue(tok[3..5]);
      assert DayField(f[0]) && MonthField(f[1]) <== ValidDate(IciciDateOf(tok));
    } else {
      assert |f| == 3 ==> |f[2]| != 4;
    }
  }

  /** A ten-character token that passes the pre-check has no dash after its sixth character. */
  lemma IciciTenLacks(tok: string)
    requires IciciDatePrefix(tok) && |tok| == 10
    ensures Lacks(tok, '-', 6, |tok|)
  {
    assert forall k :: 6 <= k < 10 ==> tok[k] == tok[6..10][k - 6];
    NotInDigits(tok, '-', 6, 10);
  }

  /** Exactly `DD-MM-YYYY`, ASCII digits, naming a real date. */
  predicate IsIciciDate(tok: string) {
    && |tok| == 10 && IciciDatePrefix(tok)
    && ValidDate(IciciDateOf(tok))
  }

  function IciciDateOf(tok: string): Date
    requires |tok| >= 10
  {
    Date(DigitsValue(tok[6..10]), DigitsValue(tok[3..5]), DigitsValue(tok[..2]))
  }

  /** A token that passes the pre-check splits at its two dashes. */
  lemma IciciSplit(tok: string)
    requires IciciDatePrefix(tok)
    ensures var f := Split(tok, '-');
      && |f| >= 2 && f[0] == tok[..2] && f[1] == tok[3..5]
      && (|f| == 3 <==> Lacks(tok, '-', 6, |tok|))
      && (|f| == 3 ==> f[2] == tok[6..])
  {
    assert forall k :: 0 <= k < 2 ==> tok[k] == tok[..2][k];
    assert forall k :: 3 <= k < 5 ==> tok[k] == tok[3..5][k - 3];
    NotInDigits(tok, '-', 0, 2);
    NotInDigits(tok, '-', 3, 5);
    SplitAtTwo(tok, '-', 2, 5);
    LacksSuffix(tok, '-', 6);
    SplitRest(tok[6..], '-');
  }

  /** `DD-MM-YYYY`, the form the ICICI pattern names. */
  function FormatIciciDate(d: Date): string
    requires ValidDate(d)
  {
    PadDigits(d.day, 2) + "-" + PadDigits(d.month, 2) + "-" + PadDigits(d.year, 4)
  }

  /** An accepted ICICI token is exactly the formatted form of the date read from it. */
  lemma IciciDateRoundTrip(tok: string)
    requires ParseIciciDate(tok).Some?
    ensures FormatIciciDate(ParseIciciDate(tok).value) == tok
  {
    var dd, mm, yyyy := tok[..2], tok[3..5], tok[6..10];
    assert ParseIciciDate(tok).value == Date(DigitsValue(yyyy), DigitsValue(mm), DigitsValue(dd));
    PadDigitsOfValue(dd);
    PadDigitsOfValue(mm);
    PadDigitsOfValue(yyyy);
    DashedPieces(tok);
  }

  /** A ten-character token with dashes at 2 and 5 is its three pieces joined by dashes. */
  lemma DashedPieces(tok: string)
    requires |tok| == 10 && tok[2] == '-' && tok[5] == '-'
    ensures tok == tok[..2] + "-" + tok[3..5] + "-" + tok[6..10]
  {
  }

  /** Formatting a date as `DD-MM-YYYY` and parsing it back gives the date. */
  lemma IciciFormatParse(d: Date)
    requires ValidDate(d)
    ensures ParseIciciDate(FormatIciciDate(d)) == Some(d)
  {
    var s := FormatIciciDate(d);
    PadDigitsValue(d.day, 2);
    PadDigitsValue(d.month, 2);
    PadDigitsValue(d.year, 4);
    assert s[..2] == PadDigits(d.day, 2);
    assert s[3..5] == PadDigits(d.month, 2);
    assert s[6..10] == PadDigits(d.year, 4);
    assert IciciDatePrefix(s) by {
      assert AllDigits(s[..2]) && AllDigits(s[3..5]) && AllDigits(s[6..10]);
    }
  }

  // ---------------------------------------------------------------------- HDFC

  /** `re.match(r'\d{1,2}/\d{1,2}/\d{2,4}', tok)`: a prefix test. */
  predicate HdfcDatePrefix(tok: string) {
    var a := SpanFrom(tok, 0, Digit);
    && 1 <= a <= 2 && a < |tok| && tok[a] == '/'
    && var b := SpanFrom(tok, a + 1, Digit);
    && 1 <= b - (a + 1) <= 2 && b < |tok| && tok[b] == '/'
    && SpanFrom(tok, b + 1, Digit) - (b + 1) >= 2
  }

  /**
   * The HDFC date check: the `re.match` pre-check, then `strptime` with `%d/%m/%y`
   * when the third `/`-separated piece has two characters and `%d/%m/%Y` otherwise
   * (a token with fewer than three pieces raises IndexError, which the parser
   * treats like a failed strptime).
   */
  function ParseHdfcDate(tok: string): (r: Option<Date>)
    ensures r.Some? <==> IsHdfcDate(tok)
    ensures r.Some? ==> r.value == HdfcDateOf(Split(tok, '/')) && ValidDate(r.value)
  {
    var f := Split(tok, '/');
    assert IsHdfcDate(tok) ==> HdfcDatePrefix(tok) by {
      if IsHdfcDate(tok) { HdfcShapeHasPrefix(tok); }
    }
    if !HdfcDatePrefix(tok) then None
    else if |f| < 3 then None
    else
      HdfcPrefixFields(tok);
      HdfcStrptime(tok, 2);
      HdfcStrptime(tok, 4);
      if |f[2]| == 2 then Strptime(tok, '/', 2) else Strptime(tok, '/', 4)
  }

  /** `D/M/YY` or `D/M/YYYY` (day and month with one or two digits), naming a real date. */
  predicate IsHdfcDate(tok: string) {
    var f := Split(tok, '/');
    HdfcShape(f) && ValidDate(HdfcDateOf(f))
  }

  /** Three pieces of digits: one or two, one or two, and two or four of them. */
  predicate HdfcShape(f: seq<string>) {
    && |f| == 3
    && 1 <= |f[0]| <= 2 && AllDigits(f[0])
    && 1 <= |f[1]| <= 2 && AllDigits(f[1])
    && (|f[2]| == 2 || |f[2]| == 4) && AllDigits(f[2])
  }

  function HdfcDateOf(f: seq<string>): Date
    requires |f| == 3
  {
    var yv := DigitsValue(f[2]);
    var year := if |f[2]| == 2 && yv < 100 then CenturyPivot(yv) else yv;
    Date(year, DigitsValue(f[1]), DigitsValue(f[0]))
  }

  /** Under the pre-check, the first two pieces are the digit runs it found. */
  lemma HdfcPrefixFields(tok: string)
    requires HdfcDatePrefix(tok)
    ensures var f := Split(tok, '/');
      |f| >= 3 && 1 <= |f[0]| <= 2 && AllDigits(f[0]) && 1 <= |f[1]| <= 2 && AllDigits(f[1])
  {
    var a := SpanFrom(tok, 0, Digit);
    var b := SpanFrom(tok, a + 1, Digit);
    TwoDigitRuns(tok, a, b);
    var rest := Split(tok[b + 1..], '/');
    assert Split(tok, '/') == [tok[..a], tok[a + 1..b]] + rest;
  }

  /** Two runs of digits, each closed by a slash, are the first two pieces of the split at slashes. */
  lemma TwoDigitRuns(tok: string, a: nat, b: nat)
    requires 0 < a < b < |tok| && tok[a] == '/' && tok[b] == '/'
    requires forall k :: 0 <= k < a ==> IsDigit(tok[k])
    requires forall k :: a + 1 <= k < b ==> IsDigit(tok[k])
    ensures Split(tok, '/') == [tok[..a], tok[a + 1..b]] + Split(tok[b + 1..], '/')
    ensures AllDigits(tok[..a]) && AllDigits(tok[a + 1..b])
  {
    NotInDigits(tok, '/', 0, a);
    NotInDigits(tok, '/', a + 1, b);
    SplitAtTwo(tok, '/', a, b);
    assert forall k :: 0 <= k < a ==> tok[..a][k] == tok[k];
    var m := tok[a + 1..b];
    assert forall k :: 0 <= k < |m| ==> m[k] == tok[a + 1 + k];
  }

  /** A token of the HDFC shape passes the pre-check. */
  lemma HdfcShapeHasPrefix(tok: string)
    requires HdfcShape(Split(tok, '/'))
    ensures HdfcDatePrefix(tok)
  {
    var a, b := SplitThreeAt(tok, '/');
    var f := Split(tok, '/');
    assert f[0] == tok[0..a] && f[1] == tok[a + 1..b] && f[2] == tok[b + 1..|tok|];
    HdfcRuns(tok, a, b);
  }

  /** Three digit runs closed by slashes are the runs the pre-check measures. */
  lemma HdfcRuns(tok: string, a: nat, b: nat)
    requires a < b < |tok| && tok[a] == '/' && tok[b] == '/'
    requires 1 <= a <= 2 && AllDigits(tok[0..a])
    requires 1 <= b - (a + 1) <= 2 && AllDigits(tok[a + 1..b])
    requires |tok| - (b + 1) >= 2 && AllDigits(tok[b + 1..|tok|])
    ensures HdfcDatePrefix(tok)
  {
    DigitSpan(tok, 0, a);
    DigitSpan(tok, a + 1, b);
    DigitSpan(tok, b + 1, |tok|);
    HdfcPrefixAt(tok, a, b);
  }

  /** The pre-check, with the ends of its two digit runs named. */
  lemma HdfcPrefixAt(tok: string, a: nat, b: nat)
    requires 1 <= a <= 2 && a < |tok| && tok[a] == '/' && SpanFrom(tok, 0, Digit) == a
    requires 1 <= b - (a + 1) <= 2 && b < |tok| && tok[b] == '/' && SpanFrom(tok, a + 1, Digit) == b
    requires SpanFrom(tok, b + 1, Digit) - (b + 1) >= 2
    ensures HdfcDatePrefix(tok)
  {
  }

  /** Under the pre-check, strptime with a `yearDigits`-digit year accepts exactly the HDFC dates with such a year. */
  lemma HdfcStrptime(tok: string, yearDigits: nat)
    requires yearDigits == 2 || yearDigits == 4
    requires var f := Split(tok, '/');
      |f| >= 3 && 1 <= |f[0]| <= 2 && AllDigits(f[0]) && 1 <= |f[1]| <= 2 && AllDigits(f[1])
    ensures var r := Strptime(tok, '/', yearDigits);
      && (r.Some? <==> |Split(tok, '/')[2]| == yearDigits && IsHdfcDate(tok))
      && (r.Some? ==> r.value == HdfcDateOf(Split(tok, '/')))
  {
    var f := Split(tok, '/');
    assert FieldValue(f[0]) == DigitsValue(f[0]);
    assert FieldValue(f[1]) == DigitsValue(f[1]);
    if |f| == 3 && AllDigits(f[2]) {
      DigitsValueBound(f[2]);
    }
  }

  /** `%d/%m/%Y` with zero padding, the four-digit form the HDFC check accepts. */
  function FormatHdfcDate(d: Date): string
    requires ValidDate(d)
  {
    PadDigits(d.day, 2) + "/" + PadDigits(d.month, 2) + "/" + PadDigits(d.year, 4)
  }

  /** Formatting a date as `DD/MM/YYYY` and parsing it back gives the date. */
  lemma HdfcFormatParse(d: Date)
    requires ValidDate(d)
    ensures ParseHdfcDate(FormatHdfcDate(d)) == Some(d)
  {
    var dd, mm, yyyy := PadDigits(d.day, 2), PadDigits(d.month, 2), PadDigits(d.year, 4);
    HdfcFormatSplit(d);
    PadDigitsValue(d.day, 2);
    PadDigitsValue(d.month, 2);
    PadDigitsValue(d.year, 4);
    assert HdfcDateOf([dd, mm, yyyy]) == d;
  }

  /** The formatted date splits at its two slashes into the three padded fields. */
  lemma HdfcFormatSplit(d: Date)
    requires ValidDate(d)
    ensures Split(FormatHdfcDate(d), '/') == [PadDigits(d.day, 2), PadDigits(d.month, 2), PadDigits(d.year, 4)]
  {
    var dd, mm, yyyy := PadDigits(d.day, 2), PadDigits(d.month, 2), PadDigits(d.year, 4);
    var s := FormatHdfcDate(d);
    assert s[..2] == dd && s[3..5] == mm && s[6..] == yyyy;
    TwoDigitRuns(s, 2, 5);
    NotInDigits(yyyy, '/', 0, 4);
    SplitNone(yyyy, '/');
  }
}
