/**
 * `extract_transactions_icici` / `extract_transactions_hdfc` (the section scan, then
 * the parse loop) and the text and dispatch logic of `extract_from_pdf`. The PDF
 * library is not modelled: the document arrives as the texts `extract_text` gave its
 * pages, `None` for a page without text.
 */
module Extractor {
  import opened Wrappers
  import opened Text
  import opened BankDetection
  import opened AccountInfo
  import opened Sections
  import opened LineParsers

  // -------------------------------------------------------------- parse loop

  /** A line parser: the text of one line to its record, or `None` when it is skipped. */
  type LineParser = string -> Option<Transaction>

  /** The line parser of each layout. */
  function ParserOf(layout: Layout): LineParser {
    match layout
    case IciciLayout => ParseIcici
    case HdfcLayout => ParseHdfc
  }

  /** The parser's answer for each line. */
  function Answers(parse: LineParser, lines: seq<string>): (r: seq<Option<Transaction>>)
    ensures |r| == |lines| && forall k :: 0 <= k < |lines| ==> r[k] == parse(lines[k])
  {
    seq(|lines|, k requires 0 <= k < |lines| => parse(lines[k]))
  }

  /** The value of an answer, as a run of at most one. */
  function Kept<T>(o: Option<T>): (r: seq<T>)
    ensures |r| <= 1 && (r == [] <==> o.None?)
  {
    match o
    case Some(t) => [t]
    case None => []
  }

  /** The values of the answers that are not `None`, in order. */
  function Somes<T>(rs: seq<Option<T>>): (r: seq<T>)
    ensures |r| <= |rs|
  {
    if rs == [] then [] else Somes(rs[..|rs| - 1]) + Kept(rs[|rs| - 1])
  }

  /** The records of the lines that `parse` accepts, in the order of the lines. */
  function ParsedBy(parse: LineParser, lines: seq<string>): seq<Transaction> {
    Somes(Answers(parse, lines))
  }

  /** The records a layout's parser makes of the lines. */
  function Parsed(layout: Layout, lines: seq<string>): seq<Transaction> {
    ParsedBy(ParserOf(layout), lines)
  }

  /** The `for line in transaction_lines` loop: a record for each line that parses, in order. */
  method ParseLines(parse: LineParser, lines: seq<string>) returns (txs: seq<Transaction>)
    ensures txs == ParsedBy(parse, lines)
  {
    ghost var rs := Answers(parse, lines);
    txs := [];
    var i := 0;
    while i < |lines|
      invariant 0 <= i <= |lines|
      invariant txs == Somes(rs[..i])
    {
      assert rs[..i + 1][..i] == rs[..i];
      var t := parse(lines[i]);
      assert Somes(rs[..i + 1]) == Somes(rs[..i]) + Kept(t);
      if t.Some? {
        txs := txs + [t.value];
      }
      i := i + 1;
    }
    assert rs[..i] == rs;
  }

  /** Keeping the values of two runs of answers gives the values of both, in order. */
  lemma {:induction false} SomesAppend<T>(a: seq<Option<T>>, b: seq<Option<T>>)
    ensures Somes(a + b) == Somes(a) + Somes(b)
    decreases |b|
  {
    if b == [] {
      assert a + b == a;
    } else {
      var init := b[..|b| - 1];
      var ab := a + b;
      assert ab[..|ab| - 1] == a + init;
      assert ab[|ab| - 1] == b[|b| - 1];
      SomesAppend(a, init);
    }
  }

  /** Answers that all have a value keep every one of them, in place. */
  lemma {:induction false} SomesAll<T>(rs: seq<Option<T>>)
    requires forall k :: 0 <= k < |rs| ==> rs[k].Some?
    ensures |Somes(rs)| == |rs|
    ensures forall k :: 0 <= k < |rs| ==> Somes(rs)[k] == rs[k].value
  {
    if rs != [] {
      var init := rs[..|rs| - 1];
      assert forall k :: 0 <= k < |init| ==> init[k] == rs[k];
      SomesAll(init);
    }
  }

  /** Answers without a value keep nothing. */
  lemma {:induction false} SomesNone<T>(rs: seq<Option<T>>)
    requires forall k :: 0 <= k < |rs| ==> rs[k].None?
    ensures Somes(rs) == []
  {
    if rs != [] {
      var init := rs[..|rs| - 1];
      assert forall k :: 0 <= k < |init| ==> init[k] == rs[k];
      SomesNone(init);
    }
  }

  /** Parsing two runs of lines one after the other gives the records of both, in order: each line is parsed on its own. */
  lemma ParsedAppend(parse: LineParser, a: seq<string>, b: seq<string>)
    ensures ParsedBy(parse, a + b) == ParsedBy(parse, a) + ParsedBy(parse, b)
  {
    assert Answers(parse, a + b) == Answers(parse, a) + Answers(parse, b);
    SomesAppend(Answers(parse, a), Answers(parse, b));
  }

  /** A run of lines that all parse yields one record per line, each the line's own record. */
  lemma ParsedAll(parse: LineParser, lines: seq<string>)
    requires forall k :: 0 <= k < |lines| ==> parse(lines[k]).Some?
    ensures |ParsedBy(parse, lines)| == |lines|
    ensures forall k :: 0 <= k < |lines| ==> ParsedBy(parse, lines)[k] == parse(lines[k]).value
  {
    SomesAll(Answers(parse, lines));
  }

  /** Lines none of which parse yield no record. */
  lemma ParsedNone(parse: LineParser, lines: seq<string>)
    requires forall k :: 0 <= k < |lines| ==> parse(lines[k]).None?
    ensures ParsedBy(parse, lines) == []
  {
    SomesNone(Answers(parse, lines));
  }

  /** `extract_transactions_icici(text)` (`IciciLayout`) and `extract_transactions_hdfc(text)` (`HdfcLayout`). */
  method ExtractTransactions(layout: Layout, text: string) returns (txs: seq<Transaction>)
    ensures txs == Parsed(layout, SectionLines(MarkersOf(layout), Split(text, '\n')))
  {
    var kept := ScanSection(MarkersOf(layout), Split(text, '\n'));
    txs := ParseLines(ParserOf(layout), kept);
  }

  // ------------------------------------------------------------------ pages

  /** The text a page contributes: its text and a newline, or nothing when it has no text. */
  function PagePart(page: Option<string>): string {
    match page
    case Some(p) => if p != [] then p + "\n" else []
    case None => []
  }

  /** `full_text` after the page loop. */
  function PageText(pages: seq<Option<string>>): string {
    if pages == [] then [] else PageText(pages[..|pages| - 1]) + PagePart(pages[|pages| - 1])
  }

  /** The `for page in pdf.pages` loop that builds `full_text`. */
  method JoinPages(pages: seq<Option<string>>) returns (full: string)
    ensures full == PageText(pages)
  {
    full := "";
    var i := 0;
    while i < |pages|
      invariant 0 <= i <= |pages|
      invariant full == PageText(pages[..i])
    {
      assert pages[..i + 1][..i] == pages[..i];
      var pageText := pages[i];
      if pageText.Some? && pageText.value != [] {
        full := full + pageText.value + "\n";
      }
      i := i + 1;
    }
    assert pages[..i] == pages;
  }

  /** A page has no text to offer: it is missing, or its text is only whitespace. */
  predicate BlankPage(page: Option<string>) {
    page.None? || AllSpace(page.value)
  }

  lemma AllSpaceAppend(a: string, b: string)
    ensures AllSpace(a + b) <==> AllSpace(a) && AllSpace(b)
  {
    assert forall k :: 0 <= k < |a| ==> (a + b)[k] == a[k];
    assert forall k :: 0 <= k < |b| ==> (a + b)[|a| + k] == b[k];
  }

  /** The joined text is whitespace only exactly when every page is blank. */
  lemma {:induction false} PageTextBlank(pages: seq<Option<string>>)
    ensures AllSpace(PageText(pages)) <==> forall k :: 0 <= k < |pages| ==> BlankPage(pages[k])
  {
    if pages != [] {
      var init := pages[..|pages| - 1];
      var last := pages[|pages| - 1];
      PageTextBlank(init);
      AllSpaceAppend(PageText(init), PagePart(last));
      if last.Some? && last.value != [] {
        AllSpaceAppend(last.value, "\n");
      }
      assert forall k :: 0 <= k < |init| ==> init[k] == pages[k];
    }
  }

  // --------------------------------------------------------------- dispatch

  /** The two errors `extract_from_pdf` raises (its message strings are not modelled). */
  datatype ExtractError = EmptyDocument | UnsupportedIssuer

  /** What `extract_from_pdf` returns: the account info, the transactions and the tag. */
  datatype Extraction = Extraction(info: Info, transactions: seq<Transaction>, bank: Tag)

  /** The layout each supported tag reads its transactions with. */
  function LayoutOf(bank: Tag): Layout
    requires bank != UNKNOWN
  {
    if bank == ICICI then IciciLayout else HdfcLayout
  }

  /** `extract_from_pdf` after the PDF has been read, as a value. */
  function Extract(pages: seq<Option<string>>): (r: Result<Extraction, ExtractError>)
    ensures r == Failure(EmptyDocument) <==> forall k :: 0 <= k < |pages| ==> BlankPage(pages[k])
    ensures r == Failure(UnsupportedIssuer) <==>
      (exists k :: 0 <= k < |pages| && !BlankPage(pages[k])) && DetectBank(PageText(pages)) == UNKNOWN
    ensures r.Success? ==>
      var text := PageText(pages);
      && r.value.bank == DetectBank(text) && r.value.bank != UNKNOWN
      && r.value.info == (if r.value.bank == ICICI then IciciInfo(text) else HdfcInfo(text))
      && r.value.info.Keys == InfoKeys
      && r.value.transactions == Parsed(LayoutOf(r.value.bank), SectionLines(MarkersOf(LayoutOf(r.value.bank)), Split(text, '\n')))
  {
    var text := PageText(pages);
    PageTextBlank(pages);
    if Strip(text) == [] then Failure(EmptyDocument)
    else
      var bank := DetectBank(text);
      if bank == UNKNOWN then Failure(UnsupportedIssuer)
      else
        var layout := LayoutOf(bank);
        var info := if bank == ICICI then IciciInfo(text) else HdfcInfo(text);
        Success(Extraction(info, Parsed(layout, SectionLines(MarkersOf(layout), Split(text, '\n'))), bank))
  }

  /** `extract_from_pdf`: join the pages, reject blank text and unknown issuers, then run the matching extractors. */
  method ExtractFromPages(pages: seq<Option<string>>) returns (r: Result<Extraction, ExtractError>)
    ensures r == Extract(pages)
  {
    var text := JoinPages(pages);
    if Strip(text) == [] {
      return Failure(EmptyDocument);
    }
    var bank := DetectBank(text);
    var info: Info;
    var txs: seq<Transaction>;
    if bank == HDFC {
      info := ExtractAccountInfoHdfc(text);
      txs := ExtractTransactions(HdfcLayout, text);
    } else if bank == ICICI {
      info := ExtractAccountInfoIcici(text);
      txs := ExtractTransactions(IciciLayout, text);
    } else {
      return Failure(UnsupportedIssuer);
    }
    r := Success(Extraction(info, txs, bank));
  }
}
