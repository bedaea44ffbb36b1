/**
 * The two transaction-line parsers (`parse_icici_transaction_line`,
 * `parse_hdfc_transaction_line`). Each cleans the line, checks the token count and
 * the date token, reads amounts with the two patterns of `Amounts`, and builds a
 * record; any `float()` that raises makes the whole line `None`, as the parsers'
 * outer `except` does.
 */
module LineParsers {
  import opened Wrappers
  import opened Text
  import opened Calendar
  import opened Amounts

  /** One transaction record: the five keys of the dict the parsers return. */
  datatype Transaction = Transaction(date: Date, description: string, withdrawal: real, deposit: real, balance: real)

  /** The three locals `withdrawal`, `deposit` and `balance`. */
  datatype Figures = Figures(withdrawal: real, deposit: real, balance: real)

  /** The token holds a digit, so `float(t.replace(',', ''))` does not raise. */
  predicate HasDigit(t: string) {
    exists k :: 0 <= k < |t| && IsDigit(t[k])
  }

  /** A match of a plain-number pattern that holds a digit has a value. */
  lemma Readable(t: string)
    requires IsNumToken(t)
    ensures ParseAmount(t).Some? <==> HasDigit(t)
  {
  }

  predicate AllNumTokens(ts: seq<string>) {
    forall k :: 0 <= k < |ts| ==> IsNumToken(ts[k])
  }

  // ------------------------------------------------------------------- ICICI

  /** A balance read with its suffix: `Dr` makes it negative. */
  function Signed(v: real, x: Suffix): real {
    if x == Dr then -v else v
  }

  /**
   * The `if amounts:` block over the suffixed amounts of the line: the last is the
   * balance, signed by its suffix; the one before it is a withdrawal when it is `Dr`
   * and a deposit otherwise. `None` when one of those two holds no digit.
   */
  function MarkedFigures(ms: seq<Marked>): (r: Option<Figures>)
    requires forall k :: 0 <= k < |ms| ==> IsNumToken(ms[k].number)
    ensures r.None? <==> ms != [] && (!HasDigit(ms[|ms| - 1].number) || (|ms| >= 2 && !HasDigit(ms[|ms| - 2].number)))
    ensures ms == [] ==> r == Some(Figures(0.0, 0.0, 0.0))
    ensures r.Some? && ms != [] ==> r.value.balance == Signed(ParseAmount(ms[|ms| - 1].number).value, ms[|ms| - 1].suffix)
    ensures r.Some? && |ms| == 1 ==> r.value.withdrawal == 0.0 && r.value.deposit == 0.0
    ensures r.Some? && |ms| >= 2 ==>
      var v := ParseAmount(ms[|ms| - 2].number).value;
      if ms[|ms| - 2].suffix == Dr then r.value.withdrawal == v && r.value.deposit == 0.0
      else r.value.withdrawal == 0.0 && r.value.deposit == v
    ensures r.Some? ==> r.value.withdrawal >= 0.0 && r.value.deposit >= 0.0
  {
    if ms == [] then Some(Figures(0.0, 0.0, 0.0))
    else
      var last := ms[|ms| - 1];
      Readable(last.number);
      match ParseAmount(last.number)
      case None => None
      case Some(b) =>
        var balance := Signed(b, last.suffix);
        if |ms| == 1 then Some(Figures(0.0, 0.0, balance))
        else
          var prev := ms[|ms| - 2];
          Readable(prev.number);
          match ParseAmount(prev.number)
          case None => None
          case Some(v) =>
            if prev.suffix == Dr then Some(Figures(v, 0.0, balance)) else Some(Figures(0.0, v, balance))
  }

  /** The transaction-type keywords of the fallback. */
  predicate TransferLine(line: string) {
    Contains(line, "NEFT") || Contains(line, "ACH") || Contains(line, "CMS")
  }

  /**
   * The plain-number fallback, run when withdrawal and deposit are both zero. When
   * the last three plain numbers all read, the balance becomes the last of them, or
   * on a transfer line: all three figures (a line with `0.00`), the first as balance
   * (a `B/F` line), or the first as deposit and the second as balance. When one of the
   * three does not read, the `except: pass` leaves the figures as they were.
   */
  function PlainFallback(line: string, nums: seq<string>, f: Figures): (r: Figures)
    requires AllNumTokens(nums)
    ensures f.withdrawal >= 0.0 && f.deposit >= 0.0 ==> r.withdrawal >= 0.0 && r.deposit >= 0.0
    ensures var n := |nums|;
      n < 3 || !HasDigit(nums[n - 3]) || !HasDigit(nums[n - 2]) || !HasDigit(nums[n - 1]) ==> r == f
    ensures var n := |nums|;
      n >= 3 && HasDigit(nums[n - 3]) && HasDigit(nums[n - 2]) && HasDigit(nums[n - 1]) && !TransferLine(line) ==>
        r == Figures(f.withdrawal, f.deposit, ParseAmount(nums[n - 1]).value)
  {
    if |nums| < 3 then f
    else
      var n := |nums|;
      Readable(nums[n - 3]);
      Readable(nums[n - 2]);
      Readable(nums[n - 1]);
      match (ParseAmount(nums[n - 3]), ParseAmount(nums[n - 2]), ParseAmount(nums[n - 1]))
      case (Some(pw), Some(pd), Some(b)) =>
        if TransferLine(line) then
          if Contains(line, "0.00") then Figures(pw, pd, b)
          else if Contains(line, "B/F") then Figures(f.withdrawal, f.deposit, pw)
          else Figures(f.withdrawal, pw, pd)
        else Figures(f.withdrawal, f.deposit, b)
      case _ => f
  }

  /** `desc_end`: the last `Cr` of the line, else its last `Dr`, else its end. */
  function IciciDescEnd(line: string): int {
    if Contains(line, "Cr") then PyRFind(line, "Cr")
    else if Contains(line, "Dr") then PyRFind(line, "Dr")
    else |line|
  }

  /** The description: the text from the end of the date to `desc_end`, or the two tokens after the date. */
  function IciciDescription(line: string, parts: seq<string>, start: nat): string {
    var e := IciciDescEnd(line);
    var d := if e > start then Strip(PySlice(line, start, e)) else Join(PySlice(parts, 1, 3), " ");
    Strip(Collapse(d))
  }

  /** The figures after both steps: the suffixed amounts, then the fallback when both withdrawal and deposit are zero. */
  function IciciFigures(line: string): (r: Option<Figures>)
    ensures r.Some? <==> MarkedFigures(MarkedAmounts(line)).Some?
    ensures r.Some? ==> r.value.withdrawal >= 0.0 && r.value.deposit >= 0.0
  {
    match MarkedFigures(MarkedAmounts(line))
    case None => None
    case Some(f) =>
      if f.withdrawal == 0.0 && f.deposit == 0.0 then Some(PlainFallback(line, NumTokens(line), f)) else Some(f)
  }

  /** The conditions under which the `if amounts:` block raises: a suffixed amount it reads holds no digit. */
  predicate MarkedUnreadable(ms: seq<Marked>) {
    ms != [] && (!HasDigit(ms[|ms| - 1].number) || (|ms| >= 2 && !HasDigit(ms[|ms| - 2].number)))
  }

  /** `parse_icici_transaction_line` after its first statement, on the cleaned line. */
  function ParseIciciLine(line: string): (r: Option<Transaction>)
    ensures var parts := Split(line, ' ');
      r.None? <==> |parts| < 3 || !IsIciciDate(parts[0]) || MarkedUnreadable(MarkedAmounts(line))
    ensures var parts := Split(line, ' ');
      r.Some? ==> r.value.date == IciciDateOf(parts[0]) && ValidDate(r.value.date)
    ensures r.Some? ==> IciciFigures(line) == Some(Figures(r.value.withdrawal, r.value.deposit, r.value.balance))
  {
    var parts := Split(line, ' ');
    if |parts| < 3 then None
    else match ParseIciciDate(parts[0])
      case None => None
      case Some(date) =>
        match IciciFigures(line)
        case None => None
        case Some(g) => Some(Transaction(date, IciciDescription(line, parts, |parts[0]|), g.withdrawal, g.deposit, g.balance))
  }

  /** `parse_icici_transaction_line(raw)`: whitespace is cleaned up first. */
  function ParseIcici(raw: string): Option<Transaction> {
    ParseIciciLine(Normalize(raw))
  }

  // --------------------------------------------------------------------- HDFC

  /** The three figures read from the last three plain numbers, or `None` when one of them does not read. */
  function LastThree(nums: seq<string>): (r: Option<Figures>)
    requires |nums| >= 3 && AllNumTokens(nums)
    ensures var n := |nums|;
      r.Some? <==> HasDigit(nums[n - 3]) && HasDigit(nums[n - 2]) && HasDigit(nums[n - 1])
    ensures var n := |nums|; r.Some? ==>
      && r.value.withdrawal == ParseAmount(nums[n - 3]).value
      && r.value.deposit == ParseAmount(nums[n - 2]).value
      && r.value.balance == ParseAmount(nums[n - 1]).value
  {
    var n := |nums|;
    Readable(nums[n - 3]);
    Readable(nums[n - 2]);
    Readable(nums[n - 1]);
    match (ParseAmount(nums[n - 3]), ParseAmount(nums[n - 2]), ParseAmount(nums[n - 1]))
    case (Some(w), Some(d), Some(b)) => Some(Figures(w, d, b))
    case _ => None
  }

  /**
   * `parse_hdfc_transaction_line` after its first statement, on the cleaned line. The
   * `if amounts[-3] else 0.0` guards never apply, since a match is never empty. The
   * description runs from the end of the first occurrence of the date to the first
   * occurrence of the third-from-last number.
   */
  function ParseHdfcLine(line: string): (r: Option<Transaction>)
    ensures var parts := Split(line, ' '); var nums := NumTokens(line); var n := |nums|;
      r.None? <==> || |parts| < 4 || !IsHdfcDate(parts[0]) || n < 3
                   || !HasDigit(nums[n - 3]) || !HasDigit(nums[n - 2]) || !HasDigit(nums[n - 1])
    ensures var parts := Split(line, ' ');
      r.Some? ==> r.value.date == HdfcDateOf(Split(parts[0], '/')) && ValidDate(r.value.date)
    ensures var nums := NumTokens(line);
      r.Some? ==> |nums| >= 3 && LastThree(nums) == Some(Figures(r.value.withdrawal, r.value.deposit, r.value.balance))
    ensures var nums := NumTokens(line);
      r.Some? ==> |nums| >= 3 && r.value.description == HdfcDescription(line, Split(line, ' ')[0], nums)
  {
    var parts := Split(line, ' ');
    if |parts| < 4 then None
    else match ParseHdfcDate(parts[0])
      case None => None
      case Some(date) =>
        var nums := NumTokens(line);
        if |nums| < 3 then None
        else match LastThree(nums)
          case None => None
          case Some(g) => Some(Transaction(date, HdfcDescription(line, parts[0], nums), g.withdrawal, g.deposit, g.balance))
  }

  /** `line[line.find(date_str) + len(date_str):line.find(amounts[-3])].strip()`. */
  function HdfcDescription(line: string, date: string, nums: seq<string>): string
    requires |nums| >= 3
  {
    var start := PyFind(line, date) + |date|;
    var end := PyFind(line, nums[|nums| - 3]);
    Strip(PySlice(line, start, end))
  }

  /**
   * With the date at the front of the line and the third-from-last number found at `e`,
   * the description is the stripped text from the end of the date to `e`, and empty
   * when `e` is within the date.
   */
  lemma HdfcDescriptionAt(line: string, date: string, nums: seq<string>)
    requires |nums| >= 3 && OccursAt(line, date, 0) && PyFind(line, nums[|nums| - 3]) >= 0
    ensures var e := PyFind(line, nums[|nums| - 3]);
      && HdfcDescription(line, date, nums) == Strip(PySlice(line, |date|, e))
      && (e <= |date| ==> HdfcDescription(line, date, nums) == [])
  {
    FindAtFront(line, date);
    assert AllSpace([]);
  }

  /** `parse_hdfc_transaction_line(raw)`: whitespace is cleaned up first. */
  function ParseHdfc(raw: string): Option<Transaction> {
    ParseHdfcLine(Normalize(raw))
  }

  // ------------------------------------------------------------ ICICI lemmas

  /** The ten characters of an ICICI date are digits and dashes. */
  lemma IciciDateChars(tok: string)
    requires IsIciciDate(tok)
    ensures forall k :: 0 <= k < 10 ==> IsDigit(tok[k]) || tok[k] == '-'
  {
    forall k | 0 <= k < 10
      ensures IsDigit(tok[k]) || tok[k] == '-'
    {
      if k < 2 { assert tok[k] == tok[..2][k]; }
      else if 3 <= k < 5 { assert tok[k] == tok[3..5][k - 3]; }
      else if 6 <= k { assert tok[k] == tok[6..10][k - 6]; }
    }
  }

  /** A line that passes the date check starts with the date, followed by a blank. */
  lemma IciciDateAtFront(line: string)
    requires var parts := Split(line, ' '); |parts| >= 2 && IsIciciDate(parts[0])
    ensures |line| > 10 && line[..10] == Split(line, ' ')[0] && line[10] == ' '
  {
    SplitHead(line, ' ');
  }

  /**
   * The date's own digits are the first three plain numbers of the line: findall
   * finds at least three numbers on every line that passes the date check.
   */
  lemma IciciDateTokens(line: string)
    requires var parts := Split(line, ' '); |parts| >= 2 && IsIciciDate(parts[0])
    ensures var tok := Split(line, ' ')[0];
      NumTokens(line) == [tok[..2], tok[3..5], tok[6..10]] + NumTokensFrom(line, 11)
  {
    var tok := Split(line, ' ')[0];
    IciciDateAtFront(line);
    assert line[..2] == tok[..2] && line[3..5] == tok[3..5] && line[6..10] == tok[6..10];
    assert line[2] == tok[2] && line[5] == tok[5];
    ThreeDigitRuns(line, 2, 5, 10);
  }

  /** The `len(all_numbers) >= 3` test of the fallback holds on every line that reaches it. */
  lemma IciciFallbackSeesThree(line: string)
    requires ParseIciciLine(line).Some?
    ensures |NumTokens(line)| >= 3
  {
    IciciDateTokens(line);
  }

  /** `desc_end` lies past the date on every line that passes the date check. */
  lemma IciciDescEndPastDate(line: string)
    requires var parts := Split(line, ' '); |parts| >= 2 && IsIciciDate(parts[0])
    ensures 10 < IciciDescEnd(line) <= |line|
  {
    var tok := Split(line, ' ')[0];
    IciciDateAtFront(line);
    IciciDateChars(tok);
    assert forall m :: 0 <= m <= 10 ==> line[m] == ' ' || IsDigit(line[m]) || line[m] == '-' by {
      forall m | 0 <= m < 10 ensures line[m] == tok[m] { }
    }
    forall w, k | (w == "Cr" || w == "Dr") && OccursAt(line, w, k)
      ensures k > 10
    {
      assert line[k] == line[k..k + 2][0] == w[0];
    }
  }

  /**
   * The description of an accepted line is the text between the date and `desc_end`
   * (the last `Cr`, else the last `Dr`, else the end of the line), cleaned: the
   * `parts[1:3]` branch is never taken.
   */
  lemma IciciDescriptionSpan(line: string)
    requires ParseIciciLine(line).Some?
    ensures var e := IciciDescEnd(line);
      && 10 < e <= |line|
      && ParseIciciLine(line).value.description == Strip(Collapse(Strip(line[10..e])))
  {
    var parts := Split(line, ' ');
    IciciDescEndPastDate(line);
    assert PySlice(line, 10, IciciDescEnd(line)) == line[10..IciciDescEnd(line)];
  }

  /** Withdrawal and deposit of an ICICI record are never negative; only the balance carries a sign. */
  lemma IciciAmountsNonNegative(line: string)
    requires ParseIciciLine(line).Some?
    ensures ParseIciciLine(line).value.withdrawal >= 0.0 && ParseIciciLine(line).value.deposit >= 0.0
  {
    assert IciciFigures(line).Some?;
  }

  /**
   * With two or more suffixed amounts and a nonzero second-to-last one, the fallback
   * does not run: the last amount is the balance, negated when it is `Dr`, and the one
   * before it is the withdrawal when it is `Dr` and the deposit when it is `Cr`.
   */
  lemma IciciSuffixRule(line: string, b: real, v: real)
    requires ParseIciciLine(line).Some?
    requires var ms := MarkedAmounts(line);
      |ms| >= 2 && ParseAmount(ms[|ms| - 1].number) == Some(b) && ParseAmount(ms[|ms| - 2].number) == Some(v) && v != 0.0
    ensures var ms := MarkedAmounts(line); var t := ParseIciciLine(line).value;
      && t.balance == Signed(b, ms[|ms| - 1].suffix)
      && (ms[|ms| - 2].suffix == Dr ==> t.withdrawal == v && t.deposit == 0.0)
      && (ms[|ms| - 2].suffix == Cr ==> t.deposit == v && t.withdrawal == 0.0)
  {
    var ms := MarkedAmounts(line);
    var f := MarkedFigures(ms).value;
    assert f.withdrawal != 0.0 || f.deposit != 0.0;
    assert IciciFigures(line) == Some(f);
  }

  /**
   * When the suffix rule leaves withdrawal and deposit at zero and the last three plain
   * numbers read, a line without a transfer keyword takes the last plain number as its
   * balance, without a sign, even where that balance was read as a `Dr` amount.
   */
  lemma IciciFallbackBalance(line: string, t: Transaction, b: real)
    requires ParseIciciLine(line) == Some(t)
    requires var f := MarkedFigures(MarkedAmounts(line)); f.Some? && f.value.withdrawal == 0.0 && f.value.deposit == 0.0
    requires var nums := NumTokens(line);
      |nums| >= 3 && HasDigit(nums[|nums| - 3]) && HasDigit(nums[|nums| - 2]) && ParseAmount(nums[|nums| - 1]) == Some(b)
    requires !TransferLine(line)
    ensures t.balance == b && b >= 0.0
  {
    var nums := NumTokens(line);
    var f := MarkedFigures(MarkedAmounts(line)).value;
    Readable(nums[|nums| - 1]);
    assert IciciFigures(line) == Some(PlainFallback(line, nums, f));
  }

  /**
   * When the fallback runs on a line with `NEFT`, `ACH` or `CMS` and its last three plain
   * numbers read as `pw`, `pd` and `b`: a line holding `0.00` takes them as withdrawal,
   * deposit and balance; otherwise a `B/F` line takes `pw` as its balance and keeps
   * withdrawal and deposit at zero; any other line takes `pw` as its deposit and `pd`
   * as its balance, and its last number is dropped.
   */
  lemma IciciTransferFallback(line: string, t: Transaction, pw: real, pd: real, b: real)
    requires ParseIciciLine(line) == Some(t)
    requires var f := MarkedFigures(MarkedAmounts(line)); f.Some? && f.value.withdrawal == 0.0 && f.value.deposit == 0.0
    requires var nums := NumTokens(line);
      && |nums| >= 3 && ParseAmount(nums[|nums| - 3]) == Some(pw)
      && ParseAmount(nums[|nums| - 2]) == Some(pd) && ParseAmount(nums[|nums| - 1]) == Some(b)
    requires TransferLine(line)
    ensures Contains(line, "0.00") ==> t.withdrawal == pw && t.deposit == pd && t.balance == b
    ensures !Contains(line, "0.00") && Contains(line, "B/F") ==> t.withdrawal == 0.0 && t.deposit == 0.0 && t.balance == pw
    ensures !Contains(line, "0.00") && !Contains(line, "B/F") ==> t.withdrawal == 0.0 && t.deposit == pw && t.balance == pd
  {
    var nums := NumTokens(line);
    var f := MarkedFigures(MarkedAmounts(line)).value;
    assert IciciFigures(line) == Some(PlainFallback(line, nums, f));
  }

  // ------------------------------------------------------------- HDFC lemmas

  /**
   * The day, month and year of the date are the first three plain numbers of the line,
   * so findall finds at least three on every line that passes the date check.
   */
  lemma HdfcDateTokens(line: string)
    requires var parts := Split(line, ' '); |parts| >= 2 && IsHdfcDate(parts[0])
    ensures var tok := Split(line, ' ')[0];
      NumTokens(line) == Split(tok, '/') + NumTokensFrom(line, |tok| + 1)
  {
    var n := SplitStep(line, ' ');
    DateRunsInLine(line, n);
  }

  /** A date of the HDFC shape, closed by a blank, gives the first three numbers of the line. */
  lemma DateRunsInLine(line: string, n: nat)
    requires n < |line| && line[n] == ' ' && HdfcShape(Split(line[..n], '/'))
    ensures NumTokens(line) == Split(line[..n], '/') + NumTokensFrom(line, n + 1)
  {
    var tok := line[..n];
    var i, j := SplitThreeAt(tok, '/');
    PrefixSlice(line, n, 0, i);
    PrefixSlice(line, n, i + 1, j);
    PrefixSlice(line, n, j + 1, n);
    ThreeDigitRuns(line, i, j, n);
  }

  lemma PrefixSlice<T>(s: seq<T>, n: nat, a: nat, b: nat)
    requires a <= b <= n <= |s|
    ensures s[..n][a..b] == s[a..b] && (a < n ==> s[..n][a] == s[a])
  {
  }

  /** The `len(amounts) >= 3` test holds on every line that passes the date check: its final `return None` is reached only through an exception. */
  lemma HdfcThreeNumbers(line: string)
    requires var parts := Split(line, ' '); |parts| >= 4 && IsHdfcDate(parts[0])
    ensures |NumTokens(line)| >= 3
  {
    HdfcDateTokens(line);
  }

  /**
   * The description of a record (`ParseHdfcLine` states it is `HdfcDescription`) ends at
   * the first occurrence of the third-from-last number, which always exists; when that
   * occurrence lies within the date, the description is empty.
   */
  lemma HdfcDescriptionSpan(line: string)
    requires |Split(line, ' ')| >= 2 && |NumTokens(line)| >= 3
    ensures var tok := Split(line, ' ')[0]; var nums := NumTokens(line);
      var e := PyFind(line, nums[|nums| - 3]);
      && 0 <= e
      && HdfcDescription(line, tok, nums) == Strip(PySlice(line, |tok|, e))
      && (e <= |tok| ==> HdfcDescription(line, tok, nums) == [])
  {
    var tok := Split(line, ' ')[0];
    var nums := NumTokens(line);
    TokenFound(line, |nums| - 3);
    SplitHead(line, ' ');
    assert line[..|tok|] == tok;
    HdfcDescriptionAt(line, tok, nums);
  }

  /**
   * A line with no number after its date reads the day, month and year as withdrawal,
   * deposit and balance, with an empty description.
   */
  lemma HdfcDateOnlyLine(line: string)
    requires var parts := Split(line, ' '); |parts| >= 4 && IsHdfcDate(parts[0])
    requires NumTokensFrom(line, |Split(line, ' ')[0]| + 1) == []
    ensures var f := Split(Split(line, ' ')[0], '/');
      var t := ParseHdfcLine(line);
      && t.Some? && t.value.description == []
      && t.value.withdrawal == DigitsValue(f[0]) as real
      && t.value.deposit == DigitsValue(f[1]) as real
      && t.value.balance == DigitsValue(f[2]) as real
  {
    var tok := Split(line, ' ')[0];
    var f := Split(tok, '/');
    HdfcDateTokens(line);
    assert NumTokens(line) == f;
    ParseAmountDigits(f[0]);
    ParseAmountDigits(f[1]);
    ParseAmountDigits(f[2]);
    SplitHead(line, ' ');
    SplitThreePieces(tok, '/');
    assert line[..|f[0]|] == f[0];
    FindAtFront(line, tok);
    FindAtFront(line, f[0]);
  }
}
