/**
 * The transaction-section scan of `extract_transactions_icici` and
 * `extract_transactions_hdfc`: one pass over the lines of the text with an
 * "inside the section" flag. A start-marker line turns the flag on and is itself
 * dropped (also when the scan is already inside); inside, the first end-marker line
 * stops the scan, and blank and skip-marker lines are dropped.
 */
module Sections {
  import opened Wrappers
  import opened Text

  datatype Layout = IciciLayout | HdfcLayout

  /** The line contains every one of `words`. */
  predicate HasAll(line: string, words: seq<string>) {
    words == [] || (Contains(line, words[0]) && HasAll(line, words[1..]))
  }

  /** The line contains all the words of one of `groups`. */
  predicate HasAny(line: string, groups: seq<seq<string>>) {
    groups != [] && (HasAll(line, groups[0]) || HasAny(line, groups[1..]))
  }

  /** The marker lists of one layout: each list matches a line holding all the words of one of its groups. */
  datatype Markers = Markers(start: seq<seq<string>>, end: seq<seq<string>>, skip: seq<seq<string>>)

  /** The start, end and skip markers each extractor tests, as written in its loop. */
  function MarkersOf(layout: Layout): Markers {
    match layout
    case IciciLayout => Markers(
      [["Statement of transactions"], ["Date Particulars"]],
      [["Page Total"], ["Legends for transactions"], ["For ICICI Bank Limited"]],
      [["Page "], ["Category of service"], ["REGD ADDRESS"]])
    case HdfcLayout => Markers(
      [["Statement of account"], ["Date", "Narration"]],
      [["HDFC BANK LIMITED"], ["Page Total"], ["Statement Summary"]],
      [["Page No."], ["H HDFC BANK"]])
  }

  predicate IsStart(m: Markers, line: string) {
    HasAny(line, m.start)
  }

  predicate IsEnd(m: Markers, line: string) {
    HasAny(line, m.end)
  }

  /** `not line.strip()` or a skip marker. */
  predicate IsSkip(m: Markers, line: string) {
    AllSpace(line) || HasAny(line, m.skip)
  }

  /** An end marker that stops the scan: start markers are tested first, so a line with both does not stop it. */
  predicate IsStop(m: Markers, line: string) {
    IsEnd(m, line) && !IsStart(m, line)
  }

  /** A line inside the section that is kept. */
  predicate IsKept(m: Markers, line: string) {
    !IsStart(m, line) && !IsSkip(m, line)
  }

  // ------------------------------------------------------------ specification

  /** The first start-marker line at or after `k`. */
  function FirstStartFrom(m: Markers, lines: seq<string>, k: nat): (r: Option<nat>)
    ensures r.Some? ==> k <= r.value < |lines| && IsStart(m, lines[r.value])
    ensures r.Some? ==> forall j :: k <= j < r.value ==> !IsStart(m, lines[j])
    ensures r.None? ==> forall j :: k <= j < |lines| ==> !IsStart(m, lines[j])
    decreases |lines| - k
  {
    if k >= |lines| then None
    else if IsStart(m, lines[k]) then Some(k)
    else FirstStartFrom(m, lines, k + 1)
  }

  /** The first line at or after `k` that stops the scan, or the number of lines. */
  function FirstStopFrom(m: Markers, lines: seq<string>, k: nat): (r: nat)
    requires k <= |lines|
    ensures k <= r <= |lines|
    ensures r < |lines| ==> IsStop(m, lines[r])
    ensures forall j :: k <= j < r ==> !IsStop(m, lines[j])
    decreases |lines| - k
  {
    if k == |lines| || IsStop(m, lines[k]) then k
    else FirstStopFrom(m, lines, k + 1)
  }

  /** The kept lines of `ls`, in order. */
  function Keep(m: Markers, ls: seq<string>): (r: seq<string>)
    ensures |r| <= |ls|
  {
    if ls == [] then []
    else Keep(m, ls[..|ls| - 1]) + (if IsKept(m, ls[|ls| - 1]) then [ls[|ls| - 1]] else [])
  }

  /**
   * The section: the kept lines strictly between the first start-marker line and
   * the first stopping line after it; nothing when no line has a start marker.
   */
  function SectionLines(m: Markers, lines: seq<string>): seq<string> {
    match FirstStartFrom(m, lines, 0)
    case None => []
    case Some(s) => Keep(m, lines[s + 1..FirstStopFrom(m, lines, s + 1)])
  }

  // --------------------------------------------------------------------- scan

  /**
   * What the scan knows after the first `i` lines: outside the section no start
   * marker has been seen and nothing is kept; inside, the section began at the first
   * start marker, has not hit a stopping line, and the kept lines are those of the
   * section so far.
   */
  ghost predicate Scanned(m: Markers, lines: seq<string>, i: nat, inside: bool, start: nat, kept: seq<string>) {
    && i <= |lines|
    && (!inside ==> kept == [] && forall j :: 0 <= j < i ==> !IsStart(m, lines[j]))
    && (inside ==> start < i && FirstStartFrom(m, lines, 0) == Some(start)
                   && FirstStopFrom(m, lines, start + 1) >= i
                   && kept == Keep(m, lines[start + 1..i]))
  }

  /** The `for i, line in enumerate(lines)` loop that collects `transaction_lines`. */
  method ScanSection(m: Markers, lines: seq<string>) returns (kept: seq<string>)
    ensures kept == SectionLines(m, lines)
  {
    kept := [];
    var inside := false;
    ghost var start := 0;
    var i := 0;
    while i < |lines|
      invariant Scanned(m, lines, i, inside, start, kept)
    {
      var line := lines[i];
      ScanStep(m, lines, i, inside, start, kept);
      if IsStart(m, line) {
        if !inside {
          start := i;
        }
        inside := true;
      } else if inside {
        if IsEnd(m, line) {
          break;
        }
        if !IsSkip(m, line) {
          kept := kept + [line];
        }
      }
      i := i + 1;
    }
    if i == |lines| {
      ScanComplete(m, lines, inside, start, kept);
    }
  }

  /** What one line does to the scan, case by case. */
  lemma ScanStep(m: Markers, lines: seq<string>, i: nat, inside: bool, start: nat, kept: seq<string>)
    requires i < |lines| && Scanned(m, lines, i, inside, start, kept)
    ensures IsStart(m, lines[i]) ==> Scanned(m, lines, i + 1, true, if inside then start else i, kept)
    ensures !IsStart(m, lines[i]) && !inside ==> Scanned(m, lines, i + 1, false, start, kept)
    ensures !IsStart(m, lines[i]) && inside && IsEnd(m, lines[i]) ==> kept == SectionLines(m, lines)
    ensures !IsStart(m, lines[i]) && inside && !IsEnd(m, lines[i]) && IsSkip(m, lines[i]) ==>
      Scanned(m, lines, i + 1, true, start, kept)
    ensures !IsStart(m, lines[i]) && inside && !IsEnd(m, lines[i]) && !IsSkip(m, lines[i]) ==>
      Scanned(m, lines, i + 1, true, start, kept + [lines[i]])
  {
    if IsStart(m, lines[i]) {
      StartLine(m, lines, i, inside, start, kept);
    } else if inside {
      if IsEnd(m, lines[i]) {
        StopLine(m, lines, i, start, kept);
      } else if IsSkip(m, lines[i]) {
        DroppedLine(m, lines, i, start, kept);
      } else {
        KeptLine(m, lines, i, start, kept);
      }
    }
  }

  /** A start-marker line: the section begins here unless it already has. */
  lemma StartLine(m: Markers, lines: seq<string>, i: nat, inside: bool, start: nat, kept: seq<string>)
    requires i < |lines| && Scanned(m, lines, i, inside, start, kept) && IsStart(m, lines[i])
    ensures Scanned(m, lines, i + 1, true, if inside then start else i, kept)
  {
    if inside {
      KeepDrop(m, lines, start + 1, i);
      StopBeyond(m, lines, start + 1, i);
    } else {
      assert lines[i + 1..i + 1] == [];
    }
  }

  /** A stopping line inside the section: the kept lines are the whole section. */
  lemma StopLine(m: Markers, lines: seq<string>, i: nat, start: nat, kept: seq<string>)
    requires i < |lines| && Scanned(m, lines, i, true, start, kept)
    requires !IsStart(m, lines[i]) && IsEnd(m, lines[i])
    ensures kept == SectionLines(m, lines)
  {
  }

  /** A blank or skip-marker line inside the section is dropped. */
  lemma DroppedLine(m: Markers, lines: seq<string>, i: nat, start: nat, kept: seq<string>)
    requires i < |lines| && Scanned(m, lines, i, true, start, kept)
    requires !IsStart(m, lines[i]) && !IsEnd(m, lines[i]) && IsSkip(m, lines[i])
    ensures Scanned(m, lines, i + 1, true, start, kept)
  {
    KeepDrop(m, lines, start + 1, i);
    StopBeyond(m, lines, start + 1, i);
  }

  /** Any other line inside the section is kept. */
  lemma KeptLine(m: Markers, lines: seq<string>, i: nat, start: nat, kept: seq<string>)
    requires i < |lines| && Scanned(m, lines, i, true, start, kept)
    requires !IsStart(m, lines[i]) && !IsEnd(m, lines[i]) && !IsSkip(m, lines[i])
    ensures Scanned(m, lines, i + 1, true, start, kept + [lines[i]])
  {
    KeepAdd(m, lines, start + 1, i);
    StopBeyond(m, lines, start + 1, i);
  }

  /** All lines read without a stop: the kept lines are the section, or nothing without a start marker. */
  lemma ScanComplete(m: Markers, lines: seq<string>, inside: bool, start: nat, kept: seq<string>)
    requires Scanned(m, lines, |lines|, inside, start, kept)
    ensures kept == SectionLines(m, lines)
  {
  }

  // ------------------------------------------------------------------ lemmas

  /** One more line of the section that is dropped. */
  lemma KeepDrop(m: Markers, lines: seq<string>, a: nat, i: nat)
    requires a <= i < |lines| && !IsKept(m, lines[i])
    ensures Keep(m, lines[a..i + 1]) == Keep(m, lines[a..i])
  {
    assert lines[a..i + 1][..i - a] == lines[a..i];
  }

  /** One more line of the section that is kept. */
  lemma KeepAdd(m: Markers, lines: seq<string>, a: nat, i: nat)
    requires a <= i < |lines| && IsKept(m, lines[i])
    ensures Keep(m, lines[a..i + 1]) == Keep(m, lines[a..i]) + [lines[i]]
  {
    assert lines[a..i + 1][..i - a] == lines[a..i];
  }

  /** A line that does not stop the scan moves the stopping point past it. */
  lemma StopBeyond(m: Markers, lines: seq<string>, k: nat, i: nat)
    requires k <= |lines| && i < |lines| && FirstStopFrom(m, lines, k) >= i && !IsStop(m, lines[i])
    ensures FirstStopFrom(m, lines, k) >= i + 1
  {
  }

  /** Keeping commutes with concatenation, so the kept lines keep their input order. */
  lemma {:induction false} KeepAppend(m: Markers, a: seq<string>, b: seq<string>)
    ensures Keep(m, a + b) == Keep(m, a) + Keep(m, b)
    decreases |b|
  {
    if b != [] {
      var b' := b[..|b| - 1];
      assert (a + b)[..|a + b| - 1] == a + b';
      KeepAppend(m, a, b');
    } else {
      assert a + b == a;
    }
  }

  /** The kept lines are lines of the input, and kept ones. */
  lemma {:induction false} KeepSub(m: Markers, ls: seq<string>)
    ensures forall x :: x in Keep(m, ls) ==> x in ls && IsKept(m, x)
  {
    if ls != [] {
      KeepSub(m, ls[..|ls| - 1]);
    }
  }

  /** Text without a start marker has no transaction lines. */
  lemma NoStartNoSection(m: Markers, lines: seq<string>)
    requires forall j :: 0 <= j < |lines| ==> !IsStart(m, lines[j])
    ensures SectionLines(m, lines) == []
  {
  }

  /**
   * Every line of the section comes from strictly after the first start-marker line
   * and before the first stopping line after it, and is neither blank, nor a skip
   * line, nor a start-marker line.
   */
  lemma SectionBounds(m: Markers, lines: seq<string>)
    ensures forall x :: x in SectionLines(m, lines) ==>
      !IsStart(m, x) && !IsSkip(m, x) && !AllSpace(x)
    ensures FirstStartFrom(m, lines, 0).Some? ==>
      var s := FirstStartFrom(m, lines, 0).value;
      forall x :: x in SectionLines(m, lines) ==> x in lines[s + 1..FirstStopFrom(m, lines, s + 1)]
  {
    var r := SectionLines(m, lines);
    if FirstStartFrom(m, lines, 0).Some? {
      var s := FirstStartFrom(m, lines, 0).value;
      KeepSub(m, lines[s + 1..FirstStopFrom(m, lines, s + 1)]);
    }
    forall x | x in r
      ensures !IsStart(m, x) && !IsSkip(m, x) && !AllSpace(x)
    {
      assert IsKept(m, x);
      assert Strip(x) != [];
    }
  }

  /** The positions of the kept lines of `ls`, in order. */
  function KeptIndices(m: Markers, ls: seq<string>): (r: seq<nat>)
    ensures forall k :: 0 <= k < |r| ==> r[k] < |ls|
  {
    if ls == [] then []
    else KeptIndices(m, ls[..|ls| - 1]) + (if IsKept(m, ls[|ls| - 1]) then [|ls| - 1] else [])
  }

  /** One position per kept line, increasing, each holding its line. */
  lemma {:induction false} KeptIndicesPlace(m: Markers, ls: seq<string>)
    ensures var r := KeptIndices(m, ls);
      |r| == |Keep(m, ls)| &&
      (forall k :: 0 <= k < |r| ==> ls[r[k]] == Keep(m, ls)[k]) &&
      forall j, k :: 0 <= j < k < |r| ==> r[j] < r[k]
    decreases |ls|
  {
    if ls != [] {
      var p := ls[..|ls| - 1];
      KeptIndicesPlace(m, p);
      var q := KeptIndices(m, p);
      assert forall k :: 0 <= k < |q| ==> ls[q[k]] == p[q[k]];
    }
  }

  /** Every position whose line is kept is among the positions, and no other. */
  lemma {:induction false} KeptIndicesComplete(m: Markers, ls: seq<string>)
    ensures forall i :: 0 <= i < |ls| ==> (i in KeptIndices(m, ls) <==> IsKept(m, ls[i]))
    decreases |ls|
  {
    if ls != [] {
      var p := ls[..|ls| - 1];
      KeptIndicesComplete(m, p);
      assert forall i :: 0 <= i < |p| ==> ls[i] == p[i];
    }
  }

  /**
   * The section in input order: its `k`-th line is the line at position
   * `s + 1 + KeptIndices(..)[k]`, after the first start-marker line `s` and before the
   * first stopping line that follows it, and these positions increase with `k`.
   */
  lemma SectionPositions(m: Markers, lines: seq<string>)
    requires FirstStartFrom(m, lines, 0).Some?
    ensures var s := FirstStartFrom(m, lines, 0).value;
      var e := FirstStopFrom(m, lines, s + 1);
      var idx := KeptIndices(m, lines[s + 1..e]);
      |idx| == |SectionLines(m, lines)| &&
      forall k :: 0 <= k < |idx| ==> s < s + 1 + idx[k] < e && SectionLines(m, lines)[k] == lines[s + 1 + idx[k]]
  {
    var s := FirstStartFrom(m, lines, 0).value;
    KeptIndicesPlace(m, lines[s + 1..FirstStopFrom(m, lines, s + 1)]);
  }

  /** Lines after the end of the section do not matter. */
  lemma {:induction false} SectionIgnoresTail(m: Markers, lines: seq<string>, more: seq<string>)
    requires FirstStartFrom(m, lines, 0).Some?
    requires FirstStopFrom(m, lines, FirstStartFrom(m, lines, 0).value + 1) < |lines|
    ensures SectionLines(m, lines + more) == SectionLines(m, lines)
  {
    var s := FirstStartFrom(m, lines, 0).value;
    var e := FirstStopFrom(m, lines, s + 1);
    StartPrefix(m, lines, more, 0);
    StopPrefix(m, lines, more, s + 1);
    assert (lines + more)[s + 1..e] == lines[s + 1..e];
  }

  lemma {:induction false} StartPrefix(m: Markers, lines: seq<string>, more: seq<string>, k: nat)
    requires FirstStartFrom(m, lines, k).Some?
    ensures FirstStartFrom(m, lines + more, k) == FirstStartFrom(m, lines, k)
    decreases |lines| - k
  {
    assert (lines + more)[k] == lines[k];
    if !IsStart(m, lines[k]) {
      StartPrefix(m, lines, more, k + 1);
    }
  }

  lemma {:induction false} StopPrefix(m: Markers, lines: seq<string>, more: seq<string>, k: nat)
    requires k <= |lines| && FirstStopFrom(m, lines, k) < |lines|
    ensures FirstStopFrom(m, lines + more, k) == FirstStopFrom(m, lines, k)
    decreases |lines| - k
  {
    assert (lines + more)[k] == lines[k];
    if !IsStop(m, lines[k]) {
      StopPrefix(m, lines, more, k + 1);
    }
  }
}
