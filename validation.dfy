/**
 * `validate_transactions` (utils.py): a table is valid when it has every required
 * column and at least one row. Only the column labels and the row count of the
 * DataFrame matter to it, so that is all a `Frame` holds.
 */
module Validation {
  import opened LineParsers

  /** `required_columns`. */
  const RequiredColumns: seq<string> := ["transaction_date", "description", "withdrawal_amount", "deposit_amount", "balance"]

  /** What the validator reads of a DataFrame: its column labels, in order, and its number of rows. */
  datatype Frame = Frame(columns: seq<string>, rows: nat)

  /** `all(col in columns for col in required)`. */
  function AllPresent(required: seq<string>, columns: seq<string>): (r: bool)
    ensures r <==> forall k :: 0 <= k < |required| ==> required[k] in columns
  {
    if required == [] then true
    else if required[0] !in columns then false
    else
      var rest := AllPresent(required[1..], columns);
      assert forall k :: 1 <= k < |required| ==> required[k] == required[1..][k - 1];
      rest
  }

  /** `validate_transactions`: `False` on a missing column, then `False` on an empty table, else `True`. */
  function ValidateTransactions(frame: Frame): (r: bool)
    ensures r <==> (forall c :: c in RequiredColumns ==> c in frame.columns) && frame.rows > 0
  {
    if !AllPresent(RequiredColumns, frame.columns) then false
    else if frame.rows == 0 then false
    else true
  }

  /** A table without one of the required columns is rejected, however many rows it has. */
  lemma MissingColumnRejected(frame: Frame, c: string)
    requires c in RequiredColumns && c !in frame.columns
    ensures !ValidateTransactions(frame)
  {
  }

  /** A table with no rows is rejected, whatever its columns. */
  lemma EmptyTableRejected(frame: Frame)
    requires frame.rows == 0
    ensures !ValidateTransactions(frame)
  {
  }

  /** The order of the columns does not matter. */
  lemma ColumnOrderIrrelevant(f: Frame, g: Frame)
    requires multiset(f.columns) == multiset(g.columns) && f.rows == g.rows
    ensures ValidateTransactions(f) == ValidateTransactions(g)
  {
    assert forall c :: c in f.columns <==> c in multiset(f.columns);
    assert forall c :: c in g.columns <==> c in multiset(g.columns);
  }

  /** Columns beyond the required ones do not matter. */
  lemma ExtraColumnsIrrelevant(frame: Frame, extra: seq<string>)
    requires forall k :: 0 <= k < |extra| ==> extra[k] !in RequiredColumns
    ensures ValidateTransactions(Frame(frame.columns + extra, frame.rows)) == ValidateTransactions(frame)
  {
  }

  /** The keys of the record dicts both parsers return, in the order they are written. */
  const RecordColumns: seq<string> := ["transaction_date", "description", "withdrawal_amount", "deposit_amount", "balance"]

  /** `pd.DataFrame(transactions)`: the record keys as columns, or no columns at all when there is no record. */
  function FrameOf(txs: seq<Transaction>): Frame {
    Frame(if txs == [] then [] else RecordColumns, |txs|)
  }

  /** A table the extractors build is valid exactly when they found at least one transaction. */
  lemma ExtractedFrameValid(txs: seq<Transaction>)
    ensures ValidateTransactions(FrameOf(txs)) <==> txs != []
  {
    if txs == [] {
      assert "balance" in RequiredColumns && "balance" !in FrameOf(txs).columns;
    } else {
      assert forall c :: c in RequiredColumns ==> c in RecordColumns;
    }
  }
}
