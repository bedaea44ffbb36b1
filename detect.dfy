/**
 * Issuer detection (`PDFExtractor.detect_bank`): substring tests on the
 * upper-cased text, first for ICICI markers and then for HDFC markers, and
 * after them case-sensitive tests for holder names and account numbers.
 */
module BankDetection {
  import opened Text

  datatype Tag = ICICI | HDFC | UNKNOWN

  /** Issuer markers, tested on the upper-cased text. */
  predicate IciciMarker(upper: string) { Contains(upper, "ICICI BANK") || Contains(upper, "ICIC000") }
  predicate HdfcMarker(upper: string) { Contains(upper, "HDFC BANK") || Contains(upper, "HDFC000") }

  /** Holder names and account numbers, tested on the text as it is. */
  predicate IciciFallback(text: string) { Contains(text, "MR.SUBRAT KUMAR DAS") || Contains(text, "007701002532") }
  predicate HdfcFallback(text: string) { Contains(text, "MR SIZWAN ALAM") || Contains(text, "50100228994510") }

  /** `detect_bank(text)`. */
  function DetectBank(text: string): (r: Tag)
    ensures r == ICICI <==> IciciMarker(Upper(text)) || (!HdfcMarker(Upper(text)) && IciciFallback(text))
    ensures r == HDFC <==> !IciciMarker(Upper(text)) && (HdfcMarker(Upper(text)) || (!IciciFallback(text) && HdfcFallback(text)))
    ensures r == UNKNOWN <==> !IciciMarker(Upper(text)) && !HdfcMarker(Upper(text)) && !IciciFallback(text) && !HdfcFallback(text)
  {
    var upper := Upper(text);
    if IciciMarker(upper) then ICICI
    else if HdfcMarker(upper) then HDFC
    else if IciciFallback(text) then ICICI
    else if HdfcFallback(text) then HDFC
    else UNKNOWN
  }

  /** Upper-casing maps an occurrence of `w` to an occurrence of `Upper(w)`. */
  lemma {:induction false} UpperOccurs(text: string, w: string, i: int)
    requires OccursAt(text, w, i)
    ensures OccursAt(Upper(text), Upper(w), i)
  {
    assert Upper(text)[i..i + |w|] == Upper(text[i..i + |w|]);
  }

  /** A text that contains `w` in any letter case contains `Upper(w)` once upper-cased. */
  lemma ContainsUpper(text: string, w: string)
    requires Contains(text, w)
    ensures Contains(Upper(text), Upper(w))
  {
    ContainsIff(text, w);
    var i :| OccursAt(text, w, i);
    UpperOccurs(text, w, i);
    ContainsIff(Upper(text), Upper(w));
  }

  /** Text that names ICICI Bank in any letter case is read as ICICI, whatever else it names. */
  lemma IciciWins(text: string, w: string)
    requires Upper(w) == "ICICI BANK" && Contains(text, w)
    ensures DetectBank(text) == ICICI
  {
    ContainsUpper(text, w);
  }

  /** Text that names HDFC Bank in any letter case, and no ICICI marker, is read as HDFC. */
  lemma HdfcDetected(text: string, w: string)
    requires Upper(w) == "HDFC BANK" && Contains(text, w)
    requires !IciciMarker(Upper(text))
    ensures DetectBank(text) == HDFC
  {
    ContainsUpper(text, w);
  }
}
