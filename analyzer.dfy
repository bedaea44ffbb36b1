/**
 * `TransactionAnalyzer` (analyzer.py): three flag steps, each adding one boolean
 * column to a copy of the table, and the summary counts of `analyze_transactions`.
 *
 * A table is a sequence of rows; a row is a transaction record plus its flag
 * columns, by name. Tables are values, so a step cannot change its input: the copy
 * each step makes is implicit.
 *
 * The DD and RTGS steps, as written, evaluate a whole column in a boolean context
 * whenever a description holds the keyword, which raises in pandas. They are
 * modelled twice: as written (`FlagLargeDdAsWritten`, `FlagLargeRtgsAsWritten`,
 * `AnalyzeAsWritten`), and with the row's own amount in place of the column
 * (`FlagLargeDdWithdrawals`, `FlagLargeRtgsDeposits`, `Analyze`).
 */
module Analyzer {
  import opened Wrappers
  import opened Text
  import opened LineParsers
  import Calendar

  /** `self.suspicious_entities`. */
  const SuspiciousEntities: seq<string> := ["guddu", "prabhat", "arif", "coal india"]

  /** The default `threshold` of `flag_large_dd_withdrawals`. */
  const DdThreshold: real := 10000.0

  /** The default `threshold` of `flag_large_rtgs_deposits`. */
  const RtgsThreshold: real := 50000.0

  const LargeDdColumn: string := "is_large_dd"
  const LargeRtgsColumn: string := "is_large_rtgs"
  const SuspiciousColumn: string := "is_suspicious_entity"

  /** A row of the table: the record's five columns and the flag columns added so far. */
  datatype Row = Row(tx: Transaction, flags: map<string, bool>)

  /** The table the extractor builds from its records: no flag columns yet. */
  function Table(txs: seq<Transaction>): (r: seq<Row>)
    ensures |r| == |txs| && forall k :: 0 <= k < |txs| ==> r[k].tx == txs[k] && r[k].flags == map[]
  {
    seq(|txs|, k requires 0 <= k < |txs| => Row(txs[k], map[]))
  }

  // ------------------------------------------------------------ row predicates

  /** `'dd' in desc_lower or 'demand draft' in desc_lower`. */
  predicate DdKeyword(description: string) {
    var d := Lower(description);
    Contains(d, "dd") || Contains(d, "demand draft")
  }

  /** `'rtgs' in desc_lower`. */
  predicate RtgsKeyword(description: string) {
    Contains(Lower(description), "rtgs")
  }

  /** A DD withdrawal above the threshold, reading the row's own withdrawal amount. */
  predicate LargeDd(tx: Transaction, threshold: real) {
    DdKeyword(tx.description) && tx.withdrawal > 0.0 && tx.withdrawal > threshold
  }

  /** An RTGS deposit above the threshold, reading the row's own deposit amount. */
  predicate LargeRtgs(tx: Transaction, threshold: real) {
    RtgsKeyword(tx.description) && tx.deposit > 0.0 && tx.deposit > threshold
  }

  /** `any(entity in d for entity in entities)`. */
  function AnyEntity(d: string, entities: seq<string>): (r: bool)
    ensures r <==> exists k :: 0 <= k < |entities| && Contains(d, entities[k])
  {
    if entities == [] then false
    else if Contains(d, entities[0]) then
      assert Contains(d, entities[0]);
      true
    else
      var rest := AnyEntity(d, entities[1..]);
      assert forall k :: 1 <= k < |entities| ==> entities[k] == entities[1..][k - 1];
      rest
  }

  /** `contains_suspicious_entity(description)`. */
  predicate SuspiciousEntity(description: string) {
    AnyEntity(Lower(description), SuspiciousEntities)
  }

  /** The entity flag holds exactly when one of the four names occurs in the lower-cased description. */
  lemma SuspiciousEntityIff(description: string)
    ensures SuspiciousEntity(description) <==>
      var d := Lower(description);
      Contains(d, "guddu") || Contains(d, "prabhat") || Contains(d, "arif") || Contains(d, "coal india")
  {
    var d := Lower(description);
    assert SuspiciousEntities[0] == "guddu" && SuspiciousEntities[1] == "prabhat";
    assert SuspiciousEntities[2] == "arif" && SuspiciousEntities[3] == "coal india";
  }

  /** The rule reads the description case-insensitively: it sees only the lower-cased text. */
  lemma FlagsIgnoreCase(a: Transaction, b: Transaction)
    requires Lower(a.description) == Lower(b.description)
    requires a.withdrawal == b.withdrawal && a.deposit == b.deposit
    ensures forall t :: LargeDd(a, t) == LargeDd(b, t) && LargeRtgs(a, t) == LargeRtgs(b, t)
    ensures SuspiciousEntity(a.description) == SuspiciousEntity(b.description)
  {
  }

  /** Without the keyword no withdrawal is a large DD, whatever the amount and threshold. */
  lemma LargeDdNeedsKeyword(tx: Transaction, threshold: real)
    requires !Contains(Lower(tx.description), "dd") && !Contains(Lower(tx.description), "demand draft")
    ensures !LargeDd(tx, threshold)
  {
  }

  /** Without the keyword no deposit is a large RTGS, whatever the amount and threshold. */
  lemma LargeRtgsNeedsKeyword(tx: Transaction, threshold: real)
    requires !Contains(Lower(tx.description), "rtgs")
    ensures !LargeRtgs(tx, threshold)
  {
  }

  // --------------------------------------------------------------- columns

  /** `after` is `before` with the column `col` set to `values`, row by row: same rows, same order, other columns kept. */
  predicate AddsColumn(before: seq<Row>, after: seq<Row>, col: string, values: seq<bool>) {
    && |after| == |before| == |values|
    && forall k :: 0 <= k < |before| ==>
         && after[k].tx == before[k].tx
         && after[k].flags.Keys == before[k].flags.Keys + {col}
         && after[k].flags[col] == values[k]
         && forall c :: c in before[k].flags && c != col ==> after[k].flags[c] == before[k].flags[c]
  }

  /** `flagged[col] = values` on a copy of the table. */
  function WithColumn(rows: seq<Row>, col: string, values: seq<bool>): (r: seq<Row>)
    requires |values| == |rows|
    ensures AddsColumn(rows, r, col, values)
  {
    seq(|rows|, k requires 0 <= k < |rows| => Row(rows[k].tx, rows[k].flags[col := values[k]]))
  }

  /** Every row carries the column. */
  predicate HasColumn(rows: seq<Row>, col: string) {
    forall k :: 0 <= k < |rows| ==> col in rows[k].flags
  }

  /** `df[col]`, as a column of booleans. */
  function Column(rows: seq<Row>, col: string): (r: seq<bool>)
    requires HasColumn(rows, col)
    ensures |r| == |rows| && forall k :: 0 <= k < |rows| ==> r[k] == rows[k].flags[col]
  {
    seq(|rows|, k requires 0 <= k < |rows| => rows[k].flags[col])
  }

  // -------------------------------------------------------- the three steps

  /** `flag_large_dd_withdrawals`, reading each row's own withdrawal amount. */
  function FlagLargeDdWithdrawals(rows: seq<Row>, threshold: real): (r: seq<Row>)
    ensures |r| == |rows|
    ensures forall k :: 0 <= k < |rows| ==>
      && r[k].tx == rows[k].tx
      && r[k].flags.Keys == rows[k].flags.Keys + {LargeDdColumn}
      && (r[k].flags[LargeDdColumn] <==> LargeDd(rows[k].tx, threshold))
      && forall c :: c in rows[k].flags && c != LargeDdColumn ==> r[k].flags[c] == rows[k].flags[c]
  {
    WithColumn(rows, LargeDdColumn, seq(|rows|, k requires 0 <= k < |rows| => LargeDd(rows[k].tx, threshold)))
  }

  /** `flag_large_rtgs_deposits`, reading each row's own deposit amount. */
  function FlagLargeRtgsDeposits(rows: seq<Row>, threshold: real): (r: seq<Row>)
    ensures |r| == |rows|
    ensures forall k :: 0 <= k < |rows| ==>
      && r[k].tx == rows[k].tx
      && r[k].flags.Keys == rows[k].flags.Keys + {LargeRtgsColumn}
      && (r[k].flags[LargeRtgsColumn] <==> LargeRtgs(rows[k].tx, threshold))
      && forall c :: c in rows[k].flags && c != LargeRtgsColumn ==> r[k].flags[c] == rows[k].flags[c]
  {
    WithColumn(rows, LargeRtgsColumn, seq(|rows|, k requires 0 <= k < |rows| => LargeRtgs(rows[k].tx, threshold)))
  }

  /** `flag_specific_entities`. */
  function FlagSpecificEntities(rows: seq<Row>): (r: seq<Row>)
    ensures |r| == |rows|
    ensures forall k :: 0 <= k < |rows| ==>
      && r[k].tx == rows[k].tx
      && r[k].flags.Keys == rows[k].flags.Keys + {SuspiciousColumn}
      && (r[k].flags[SuspiciousColumn] <==> SuspiciousEntity(rows[k].tx.description))
      && forall c :: c in rows[k].flags && c != SuspiciousColumn ==> r[k].flags[c] == rows[k].flags[c]
  {
    WithColumn(rows, SuspiciousColumn, seq(|rows|, k requires 0 <= k < |rows| => SuspiciousEntity(rows[k].tx.description)))
  }

  // ------------------------------------------------- the steps as written

  /** The exception pandas raises when a column is used as a single truth value. */
  datatype AnalysisError = AmbiguousTruthValue

  /**
   * `df.apply(lambda row: ..., axis=1)` over cells that can raise: the cells in
   * row order, or the first exception.
   */
  function ApplyRows(cells: seq<Result<bool, AnalysisError>>): (r: Result<seq<bool>, AnalysisError>)
    ensures r.Failure? <==> exists k :: 0 <= k < |cells| && cells[k].Failure?
    ensures r.Success? ==> |r.value| == |cells| && forall k :: 0 <= k < |cells| ==> r.value[k] == cells[k].value
  {
    if cells == [] then Success([])
    else
      var rest := ApplyRows(cells[1..]);
      assert forall k :: 1 <= k < |cells| ==> cells[k] == cells[1..][k - 1];
      match cells[0]
      case Failure(e) => Failure(e)
      case Success(b) =>
        match rest
        case Failure(e) => Failure(e)
        case Success(bs) => Success([b] + bs)
  }

  /**
   * One cell of the DD step as written: with the keyword, `is_dd_withdrawal`
   * returns the Series `flagged['withdrawal_amount'] > 0`, and the lambda's `and`
   * asks for its truth value. The comparison with the threshold is never reached:
   * either the keyword is missing and `and` stops early, or the `and` raises first.
   */
  function DdCellAsWritten(tx: Transaction): Result<bool, AnalysisError> {
    if !DdKeyword(tx.description) then Success(false) else Failure(AmbiguousTruthValue)
  }

  /** One cell of the RTGS step as written; as in the DD step, the threshold is never compared. */
  function RtgsCellAsWritten(tx: Transaction): Result<bool, AnalysisError> {
    if !RtgsKeyword(tx.description) then Success(false) else Failure(AmbiguousTruthValue)
  }

  /** No row's description holds the DD keyword. */
  predicate NoDdKeyword(rows: seq<Row>) {
    forall k :: 0 <= k < |rows| ==> !DdKeyword(rows[k].tx.description)
  }

  /** No row's description holds the RTGS keyword. */
  predicate NoRtgsKeyword(rows: seq<Row>) {
    forall k :: 0 <= k < |rows| ==> !RtgsKeyword(rows[k].tx.description)
  }

  /**
   * `flag_large_dd_withdrawals` as written: it raises as soon as one description
   * holds the keyword, and otherwise adds a column that is false on every row.
   * `threshold` is the function's own parameter; the outcome never depends on it.
   */
  function FlagLargeDdAsWritten(rows: seq<Row>, threshold: real): (r: Result<seq<Row>, AnalysisError>)
    ensures r.Failure? <==> !NoDdKeyword(rows)
    ensures r.Success? ==> AddsColumn(rows, r.value, LargeDdColumn, seq(|rows|, k => false))
  {
    var cells := seq(|rows|, k requires 0 <= k < |rows| => DdCellAsWritten(rows[k].tx));
    match ApplyRows(cells)
    case Failure(e) => Failure(e)
    case Success(values) =>
      assert values == seq(|rows|, k => false);
      Success(WithColumn(rows, LargeDdColumn, values))
  }

  /** `flag_large_rtgs_deposits` as written; here too the outcome never depends on `threshold`. */
  function FlagLargeRtgsAsWritten(rows: seq<Row>, threshold: real): (r: Result<seq<Row>, AnalysisError>)
    ensures r.Failure? <==> !NoRtgsKeyword(rows)
    ensures r.Success? ==> AddsColumn(rows, r.value, LargeRtgsColumn, seq(|rows|, k => false))
  {
    var cells := seq(|rows|, k requires 0 <= k < |rows| => RtgsCellAsWritten(rows[k].tx));
    match ApplyRows(cells)
    case Failure(e) => Failure(e)
    case Success(values) =>
      assert values == seq(|rows|, k => false);
      Success(WithColumn(rows, LargeRtgsColumn, values))
  }

  /** A statement line that names a demand draft of 25,000: the DD step as written raises on it, the corrected step flags it. */
  lemma DdStepRaisesOnDemandDraft()
    ensures var tx := Transaction(Calendar.Date(2024, 1, 15), "DD ISSUED", 25000.0, 0.0, 5000.0);
      && FlagLargeDdAsWritten([Row(tx, map[])], DdThreshold) == Failure(AmbiguousTruthValue)
      && FlagLargeDdWithdrawals([Row(tx, map[])], DdThreshold)[0].flags[LargeDdColumn]
  {
    var tx := Transaction(Calendar.Date(2024, 1, 15), "DD ISSUED", 25000.0, 0.0, 5000.0);
    var d := Lower(tx.description);
    assert d[0..2] == "dd";
    assert OccursAt(d, "dd", 0);
    ContainsIff(d, "dd");
  }

  /** An RTGS credit of 60,000: the RTGS step as written raises on it, the corrected step flags it. */
  lemma RtgsStepRaisesOnRtgsCredit()
    ensures var tx := Transaction(Calendar.Date(2024, 1, 15), "RTGS CR", 0.0, 60000.0, 65000.0);
      && FlagLargeRtgsAsWritten([Row(tx, map[])], RtgsThreshold) == Failure(AmbiguousTruthValue)
      && FlagLargeRtgsDeposits([Row(tx, map[])], RtgsThreshold)[0].flags[LargeRtgsColumn]
  {
    var tx := Transaction(Calendar.Date(2024, 1, 15), "RTGS CR", 0.0, 60000.0, 65000.0);
    var d := Lower(tx.description);
    assert d[0..4] == "rtgs";
    assert OccursAt(d, "rtgs", 0);
    ContainsIff(d, "rtgs");
  }

  /** Where the DD step as written does not raise, it agrees with the corrected step. */
  lemma DdStepAgreesWithoutKeyword(rows: seq<Row>, threshold: real)
    requires NoDdKeyword(rows)
    ensures FlagLargeDdAsWritten(rows, threshold) == Success(FlagLargeDdWithdrawals(rows, threshold))
  {
    var a := FlagLargeDdAsWritten(rows, threshold).value;
    var b := FlagLargeDdWithdrawals(rows, threshold);
    forall k | 0 <= k < |rows|
      ensures a[k] == b[k]
    {
      assert !LargeDd(rows[k].tx, threshold);
      assert a[k].flags.Keys == b[k].flags.Keys;
      assert forall c :: c in a[k].flags ==> a[k].flags[c] == b[k].flags[c];
    }
    assert a == b;
  }

  /** Where the RTGS step as written does not raise, it agrees with the corrected step. */
  lemma RtgsStepAgreesWithoutKeyword(rows: seq<Row>, threshold: real)
    requires NoRtgsKeyword(rows)
    ensures FlagLargeRtgsAsWritten(rows, threshold) == Success(FlagLargeRtgsDeposits(rows, threshold))
  {
    var a := FlagLargeRtgsAsWritten(rows, threshold).value;
    var b := FlagLargeRtgsDeposits(rows, threshold);
    forall k | 0 <= k < |rows|
      ensures a[k] == b[k]
    {
      assert !LargeRtgs(rows[k].tx, threshold);
      assert a[k].flags.Keys == b[k].flags.Keys;
      assert forall c :: c in a[k].flags ==> a[k].flags[c] == b[k].flags[c];
    }
    assert a == b;
  }

  // ---------------------------------------------------------------- summary

  /** `Series.sum()` of a boolean column: the number of `True` values. */
  function Trues(bs: seq<bool>): (r: nat)
    ensures r <= |bs|
  {
    if bs == [] then 0 else Trues(bs[..|bs| - 1]) + (if bs[|bs| - 1] then 1 else 0)
  }

  /** The positions of the `True` values. */
  ghost function TrueSet(bs: seq<bool>): set<int> {
    set k | 0 <= k < |bs| && bs[k]
  }

  /** The sum of a boolean column is the number of rows where it is true. */
  lemma {:induction false} TruesCount(bs: seq<bool>)
    ensures Trues(bs) == |TrueSet(bs)|
  {
    if bs != [] {
      var init := bs[..|bs| - 1];
      TruesCount(init);
      assert forall k :: 0 <= k < |init| ==> init[k] == bs[k];
      if bs[|bs| - 1] {
        assert TrueSet(bs) == TrueSet(init) + {|bs| - 1};
      } else {
        assert TrueSet(bs) == TrueSet(init);
      }
    }
  }

  /** A column true wherever another is counts at least as many rows. */
  lemma {:induction false} TruesMonotone(a: seq<bool>, b: seq<bool>)
    requires |a| == |b| && forall k :: 0 <= k < |a| ==> a[k] ==> b[k]
    ensures Trues(a) <= Trues(b)
  {
    if a != [] {
      TruesMonotone(a[..|a| - 1], b[..|b| - 1]);
    }
  }

  /** The rows flagged by any of three columns are at most the three counts together. */
  lemma {:induction false} TruesUnion(a: seq<bool>, b: seq<bool>, c: seq<bool>, any: seq<bool>)
    requires |a| == |b| == |c| == |any|
    requires forall k :: 0 <= k < |any| ==> any[k] == (a[k] || b[k] || c[k])
    ensures Trues(any) <= Trues(a) + Trues(b) + Trues(c)
  {
    if any != [] {
      var n := |any| - 1;
      TruesUnion(a[..n], b[..n], c[..n], any[..n]);
    }
  }

  /** `Series.sum()` of an amount column, as an exact sum. */
  function Total(xs: seq<real>): real {
    if xs == [] then 0.0 else Total(xs[..|xs| - 1]) + xs[|xs| - 1]
  }

  /** A column of amounts none of which is negative sums to no less than zero, and to no less than any one of them. */
  lemma {:induction false} TotalBounds(xs: seq<real>)
    requires forall k :: 0 <= k < |xs| ==> xs[k] >= 0.0
    ensures Total(xs) >= 0.0
    ensures forall k :: 0 <= k < |xs| ==> xs[k] <= Total(xs)
  {
    if xs != [] {
      var init := xs[..|xs| - 1];
      assert forall k :: 0 <= k < |init| ==> init[k] == xs[k];
      TotalBounds(init);
    }
  }

  /** The withdrawal amounts of the table, in row order. */
  function Withdrawals(rows: seq<Row>): (r: seq<real>)
    ensures |r| == |rows| && forall k :: 0 <= k < |rows| ==> r[k] == rows[k].tx.withdrawal
  {
    seq(|rows|, k requires 0 <= k < |rows| => rows[k].tx.withdrawal)
  }

  /** The deposit amounts of the table, in row order. */
  function Deposits(rows: seq<Row>): (r: seq<real>)
    ensures |r| == |rows| && forall k :: 0 <= k < |rows| ==> r[k] == rows[k].tx.deposit
  {
    seq(|rows|, k requires 0 <= k < |rows| => rows[k].tx.deposit)
  }

  /** The `summary` dict. */
  datatype Summary = Summary(
    totalTransactions: nat,
    totalWithdrawals: real,
    totalDeposits: real,
    largeDdCount: nat,
    largeRtgsCount: nat,
    suspiciousEntityCount: nat,
    flaggedTransactions: nat)

  /** The table carries the three flag columns. */
  predicate Flagged(rows: seq<Row>) {
    HasColumn(rows, LargeDdColumn) && HasColumn(rows, LargeRtgsColumn) && HasColumn(rows, SuspiciousColumn)
  }

  /** The mask `is_large_dd | is_large_rtgs | is_suspicious_entity`. */
  function AnyFlag(rows: seq<Row>): (r: seq<bool>)
    requires Flagged(rows)
    ensures |r| == |rows|
    ensures forall k :: 0 <= k < |rows| ==>
      r[k] == (rows[k].flags[LargeDdColumn] || rows[k].flags[LargeRtgsColumn] || rows[k].flags[SuspiciousColumn])
  {
    seq(|rows|, k requires 0 <= k < |rows| =>
      rows[k].flags[LargeDdColumn] || rows[k].flags[LargeRtgsColumn] || rows[k].flags[SuspiciousColumn])
  }

  /**
   * The summary of a flagged table: every count is the number of rows its column
   * marks, and the rows marked by any flag are at least each count, at most their
   * sum and at most the row count.
   */
  function Summarize(rows: seq<Row>): (s: Summary)
    requires Flagged(rows)
    ensures s.totalTransactions == |rows|
    ensures s.largeDdCount == |TrueSet(Column(rows, LargeDdColumn))|
    ensures s.largeRtgsCount == |TrueSet(Column(rows, LargeRtgsColumn))|
    ensures s.suspiciousEntityCount == |TrueSet(Column(rows, SuspiciousColumn))|
    ensures s.flaggedTransactions == |TrueSet(AnyFlag(rows))|
    ensures s.largeDdCount <= s.flaggedTransactions && s.largeRtgsCount <= s.flaggedTransactions
    ensures s.suspiciousEntityCount <= s.flaggedTransactions
    ensures s.flaggedTransactions <= s.largeDdCount + s.largeRtgsCount + s.suspiciousEntityCount
    ensures s.flaggedTransactions <= s.totalTransactions
  {
    var dd, rtgs, ent, any := Column(rows, LargeDdColumn), Column(rows, LargeRtgsColumn), Column(rows, SuspiciousColumn), AnyFlag(rows);
    TruesCount(dd);
    TruesCount(rtgs);
    TruesCount(ent);
    TruesCount(any);
    TruesMonotone(dd, any);
    TruesMonotone(rtgs, any);
    TruesMonotone(ent, any);
    TruesUnion(dd, rtgs, ent, any);
    Summary(|rows|, Total(Withdrawals(rows)), Total(Deposits(rows)), Trues(dd), Trues(rtgs), Trues(ent), Trues(any))
  }

  /** The rows of the input that satisfy each rule. */
  ghost function LargeDdRows(rows: seq<Row>): set<int> {
    set k | 0 <= k < |rows| && LargeDd(rows[k].tx, DdThreshold)
  }

  ghost function LargeRtgsRows(rows: seq<Row>): set<int> {
    set k | 0 <= k < |rows| && LargeRtgs(rows[k].tx, RtgsThreshold)
  }

  ghost function SuspiciousRows(rows: seq<Row>): set<int> {
    set k | 0 <= k < |rows| && SuspiciousEntity(rows[k].tx.description)
  }

  /** `analyzed` is `rows` with the three flag columns added by the corrected rules. */
  predicate AnalyzedRows(rows: seq<Row>, analyzed: seq<Row>) {
    && |analyzed| == |rows| && Flagged(analyzed)
    && forall k :: 0 <= k < |rows| ==>
      && analyzed[k].tx == rows[k].tx
      && analyzed[k].flags.Keys == rows[k].flags.Keys + {LargeDdColumn, LargeRtgsColumn, SuspiciousColumn}
      && (analyzed[k].flags[LargeDdColumn] <==> LargeDd(rows[k].tx, DdThreshold))
      && (analyzed[k].flags[LargeRtgsColumn] <==> LargeRtgs(rows[k].tx, RtgsThreshold))
      && (analyzed[k].flags[SuspiciousColumn] <==> SuspiciousEntity(rows[k].tx.description))
  }

  /** The three steps in the order `analyze_transactions` runs them. */
  function FlagAll(rows: seq<Row>): (a: seq<Row>)
    ensures AnalyzedRows(rows, a)
  {
    var dd := FlagLargeDdWithdrawals(rows, DdThreshold);
    var rtgs := FlagLargeRtgsDeposits(dd, RtgsThreshold);
    var a := FlagSpecificEntities(rtgs);
    assert forall k :: 0 <= k < |rows| ==> a[k].flags[LargeDdColumn] == dd[k].flags[LargeDdColumn];
    a
  }

  /** `analyze_transactions`, with the DD and RTGS steps reading each row's own amount. */
  function Analyze(rows: seq<Row>): (r: (seq<Row>, Summary))
    ensures AnalyzedRows(rows, r.0)
    ensures r.1 == Summarize(r.0)
  {
    var a := FlagAll(rows);
    (a, Summarize(a))
  }

  /** The positions where any of three columns is true are the positions where one of them is. */
  lemma TrueSetUnion(a: seq<bool>, b: seq<bool>, c: seq<bool>, any: seq<bool>)
    requires |a| == |b| == |c| == |any|
    requires forall k :: 0 <= k < |any| ==> any[k] == (a[k] || b[k] || c[k])
    ensures TrueSet(any) == TrueSet(a) + TrueSet(b) + TrueSet(c)
  {
  }

  /** The rows each column of the analyzed table marks are the rows its rule marks in the input. */
  lemma FlagAllMarks(rows: seq<Row>)
    ensures TrueSet(Column(FlagAll(rows), LargeDdColumn)) == LargeDdRows(rows)
    ensures TrueSet(Column(FlagAll(rows), LargeRtgsColumn)) == LargeRtgsRows(rows)
    ensures TrueSet(Column(FlagAll(rows), SuspiciousColumn)) == SuspiciousRows(rows)
  {
  }

  /** Each count of the summary is the number of input rows its rule marks; the flagged count is the number marked by any rule. */
  lemma AnalyzeCounts(rows: seq<Row>)
    ensures Analyze(rows).1.totalTransactions == |rows|
    ensures Analyze(rows).1.largeDdCount == |LargeDdRows(rows)|
    ensures Analyze(rows).1.largeRtgsCount == |LargeRtgsRows(rows)|
    ensures Analyze(rows).1.suspiciousEntityCount == |SuspiciousRows(rows)|
    ensures Analyze(rows).1.flaggedTransactions == |LargeDdRows(rows) + LargeRtgsRows(rows) + SuspiciousRows(rows)|
  {
    var a := FlagAll(rows);
    FlagAllMarks(rows);
    TrueSetUnion(Column(a, LargeDdColumn), Column(a, LargeRtgsColumn), Column(a, SuspiciousColumn), AnyFlag(a));
  }

  /**
   * `analyze_transactions` as written: the DD step raises on a DD keyword, then the
   * RTGS step on an RTGS keyword; otherwise both flag columns are all false.
   */
  function AnalyzeAsWritten(rows: seq<Row>): (r: Result<(seq<Row>, Summary), AnalysisError>)
    ensures r.Failure? <==> !NoDdKeyword(rows) || !NoRtgsKeyword(rows)
  {
    match FlagLargeDdAsWritten(rows, DdThreshold)
    case Failure(e) => Failure(e)
    case Success(dd) =>
      match FlagLargeRtgsAsWritten(dd, RtgsThreshold)
      case Failure(e) => Failure(e)
      case Success(rtgs) =>
        var a := FlagSpecificEntities(rtgs);
        Success((a, Summarize(a)))
  }

  /** Where `analyze_transactions` as written returns, it returns what `Analyze` does. */
  lemma AnalyzeAgreesWithoutKeywords(rows: seq<Row>)
    requires NoDdKeyword(rows) && NoRtgsKeyword(rows)
    ensures AnalyzeAsWritten(rows) == Success(Analyze(rows))
  {
    DdStepAgreesWithoutKeyword(rows, DdThreshold);
    var dd := FlagLargeDdWithdrawals(rows, DdThreshold);
    assert NoRtgsKeyword(dd);
    RtgsStepAgreesWithoutKeyword(dd, RtgsThreshold);
  }

  /** Without DD or RTGS keywords no input row is a large DD or a large RTGS row, so both counts are zero. */
  lemma NoKeywordsNoLargeRows(rows: seq<Row>)
    requires NoDdKeyword(rows) && NoRtgsKeyword(rows)
    ensures LargeDdRows(rows) == {} && LargeRtgsRows(rows) == {}
  {
    assert forall k :: 0 <= k < |rows| ==> !LargeDd(rows[k].tx, DdThreshold) && !LargeRtgs(rows[k].tx, RtgsThreshold);
  }

  /** Amounts the extractors produce are never negative, so neither are the two totals of the summary. */
  lemma TotalsNonNegative(rows: seq<Row>)
    requires Flagged(rows)
    requires forall k :: 0 <= k < |rows| ==> rows[k].tx.withdrawal >= 0.0 && rows[k].tx.deposit >= 0.0
    ensures Summarize(rows).totalWithdrawals >= 0.0 && Summarize(rows).totalDeposits >= 0.0
  {
    TotalBounds(Withdrawals(rows));
    TotalBounds(Deposits(rows));
  }
}
