/**
 * Account-information extraction (`extract_account_info_icici` and
 * `extract_account_info_hdfc`): a seven-key record filled field by field, each
 * field from the first pattern of its chain that is found, or a default.
 *
 * Nothing in the body of either `try` block can raise (every group the code reads
 * exists, and the helpers are total), so the `except` records are never returned;
 * they are kept as constants so that their shape can be stated.
 */
module AccountInfo {
  import opened Wrappers
  import opened Text
  import opened Patterns

  type Info = map<string, string>

  /** The seven keys of every account-information record. */
  const InfoKeys: set<string> :=
    {"account_number", "account_holder_name", "ifsc", "micr", "account_type", "address", "bank_name"}

  /** The record with the seven keys, in the source's order. */
  function MakeInfo(number: string, holder: string, ifsc: string, micr: string, kind: string, address: string, bank: string): (r: Info)
    ensures r.Keys == InfoKeys
    ensures r["account_number"] == number && r["account_holder_name"] == holder && r["ifsc"] == ifsc
    ensures r["micr"] == micr && r["account_type"] == kind && r["address"] == address && r["bank_name"] == bank
  {
    map["account_number" := number, "account_holder_name" := holder, "ifsc" := ifsc, "micr" := micr,
        "account_type" := kind, "address" := address, "bank_name" := bank]
  }

  /** `m.group(k + 1)`, for a group the code only reads when it exists. */
  function Group(groups: seq<string>, k: nat): string {
    if k < |groups| then groups[k] else ""
  }

  // ------------------------------------------------------------------- ICICI

  const IciciAccountChain: seq<Pattern> := [
    Field("Account Number", false, [Spaces(false)], Digit, OneOrMore),  // Account Number\s*([0-9]+)
    Field("Savings", false, [Spaces(true)], Digit, OneOrMore),          // Savings\s+([0-9]+)
    Fixed("007701002532")
  ]

  const IciciNameChain: seq<Pattern> := [
    TwoNames(false),                                                     // MR\.([A-Z\s]+)&([A-Z\s]+)
    Field("Your Details With Us:", false, [Spaces(false), Word("MR.")], UpperSpaceOrAmp, OneOrMore),
    TwoNames(true)                                                       // MR\.([A-Z\s]+)&\s*([A-Z\s]+)
  ]

  const IciciIfsc := Field("IFSC", false, [Spaces(false)], UpperOrDigit, Exactly(11))
  const IciciMicr := Field("MICR", false, [Spaces(false)], Digit, OneOrMore)
  const IciciAccountType := Field("Type of Account", false, [Spaces(false)], Letter, OneOrMore)

  const IciciAddressChain: seq<Pattern> := [
    Between("Your Details With Us:", ["Your Base Branch", "Summary of Account"]),
    PinAfterCity,
    Between("1485,PRAKRUTI NIVAS,SRIRAM NAGAR,LINGARAJ,", ["BHUBANESWAR"])
  ]

  const DefaultIciciHolder := "SUBRAJ KUMAR DAS & JASASWINI DAS"
  const DefaultIciciAddress := "1485,PRAKRUTI NIVAS,SRIRAM NAGAR,LINGARAJ, NEAR VETERINARY HOSPITAL, BHUBANESWAR, ODISHA - 751002"

  /** The account number: the first group of the first pattern found, the literal's own value, or `Not Found`. */
  function IciciAccountNumber(hit: Option<Hit>): string {
    match hit
    case Some(h) => if h.groups != [] then h.groups[0] else "007701002532"
    case None => "Not Found"
  }

  /** The holder name from the chain: both groups stripped and joined with ` & `, or the one group stripped. */
  function NamesFromHit(h: Hit): string {
    if |h.groups| >= 2 then Join([Strip(h.groups[0]), Strip(h.groups[1])], " & ")
    else Strip(Group(h.groups, 0))
  }

  /** The holder name when no chain pattern is found: the fallback pattern's non-empty groups, or the constant. */
  function NamesFromFallback(m: Option<seq<string>>): string {
    match m
    case Some(g) =>
      var second := Strip(Group(g, 1));
      Join([Strip(Group(g, 0))] + (if second != [] then [second] else []), " & ")
    case None => DefaultIciciHolder
  }

  /** The holder name: the name chain, then the fallback pattern, then the constant. */
  function IciciHolderName(text: string): string {
    match FirstMatch(IciciNameChain, text)
    case Some(h) => NamesFromHit(h)
    case None => NamesFromFallback(Search(NameFallback, text))
  }

  function IciciField(m: Option<seq<string>>, default: string): string {
    match m
    case Some(g) => Group(g, 0)
    case None => default
  }

  function IciciAddress(hit: Option<Hit>): string {
    match hit
    case Some(h) => Strip(Group(h.groups, 0))
    case None => DefaultIciciAddress
  }

  /** What `extract_account_info_icici(text)` returns. */
  function IciciInfo(text: string): (r: Info)
    ensures r.Keys == InfoKeys && r["bank_name"] == "ICICI Bank"
  {
    MakeInfo(
      IciciAccountNumber(FirstMatch(IciciAccountChain, text)),
      IciciHolderName(text),
      IciciField(Search(IciciIfsc, text), "ICIC0003054"),
      IciciField(Search(IciciMicr, text), "751229018"),
      IciciField(Search(IciciAccountType, text), "Savings"),
      IciciAddress(FirstMatch(IciciAddressChain, text)),
      "ICICI Bank")
  }

  /** `extract_account_info_icici`: fills the record field by field, each chain in a loop that stops at the first hit. */
  method ExtractAccountInfoIcici(text: string) returns (info: Info)
    ensures info == IciciInfo(text)
  {
    info := map[];
    var acc := ChainSearch(IciciAccountChain, text);
    info := info["account_number" := IciciAccountNumber(acc)];
    var holder := FindIciciHolder(text);
    info := info["account_holder_name" := holder];
    info := info["ifsc" := IciciField(Search(IciciIfsc, text), "ICIC0003054")];
    info := info["micr" := IciciField(Search(IciciMicr, text), "751229018")];
    info := info["account_type" := IciciField(Search(IciciAccountType, text), "Savings")];
    var addr := ChainSearch(IciciAddressChain, text);
    info := info["address" := IciciAddress(addr)];
    info := info["bank_name" := "ICICI Bank"];
  }

  /** The holder-name block: the name chain in a loop that stops at the first hit, then the fallback pattern. */
  method FindIciciHolder(text: string) returns (holder: string)
    ensures holder == IciciHolderName(text)
  {
    var name := ChainSearch(IciciNameChain, text);
    if name.Some? {
      holder := NamesFromHit(name.value);
    } else {
      holder := NamesFromFallback(Search(NameFallback, text));
    }
  }

  /** The record of the `except` branch. */
  const IciciErrorInfo: Info := MakeInfo("007701002532", DefaultIciciHolder, "ICIC0003054", "751229018", "Savings", DefaultIciciAddress, "ICICI Bank")

  /** `Not Found` is the account number exactly when none of the three patterns is found. */
  lemma IciciAccountNotFound(text: string)
    ensures IciciInfo(text)["account_number"] == "Not Found"
        <==> forall j :: 0 <= j < 3 ==> Search(IciciAccountChain[j], text).None?
  {
    var hit := FirstMatch(IciciAccountChain, text);
    if hit.Some? && hit.value.groups != [] {
      var g := hit.value.groups;
      assert hit.value.index < 2;
      DigitGroup(IciciAccountChain[hit.value.index], text, g);
      assert g[0][0] != "Not Found"[0];
    }
  }

  /** The group a digit `Field` pattern finds is made of digits. */
  lemma DigitGroup(p: Pattern, s: string, g: seq<string>)
    requires p.Field? && p.cls == Digit && Search(p, s) == Some(g)
    ensures |g| == 1 && |g[0]| >= 1 && AllDigits(g[0])
  {
    SearchField(p, s);
  }

  /** `Account Number` decides the account number whenever it is found, whatever the later patterns would give. */
  lemma IciciAccountNumberFirst(text: string, g: seq<string>)
    requires Search(IciciAccountChain[0], text) == Some(g)
    ensures IciciInfo(text)["account_number"] == g[0]
  {
  }

  /** Wherever the spaced-name pattern matches, the first name pattern matches too. */
  lemma SpacedImpliesPlain(s: string, i: nat)
    requires i <= |s| && MatchAt(TwoNames(true), s, i).Some?
    ensures MatchAt(TwoNames(false), s, i).Some?
  {
    assert MatchTwoNames(s, i + 3, true).Some?;
  }

  /**
   * The spaced-name pattern is never the one that decides: wherever it matches, the
   * first name pattern matches too, and is tried before it.
   */
  lemma SpacedNamesNeverDecide(text: string)
    ensures FirstMatch(IciciNameChain, text).Some? ==> FirstMatch(IciciNameChain, text).value.index != 2
  {
    var hit := FirstMatch(IciciNameChain, text);
    if hit.Some? && hit.value.index == 2 {
      assert Search(TwoNames(true), text).Some?;
      var i :| 0 <= i <= |text| && Search(TwoNames(true), text) == MatchAt(TwoNames(true), text, i)
        && forall k :: 0 <= k < i ==> MatchAt(TwoNames(true), text, k).None?;
      SpacedImpliesPlain(text, i);
      assert false;
    }
  }

  /** The second name pattern, `Your Details With Us:\s*MR\.(...)`, needs an `MR.` after its literal. */
  lemma DetailsNeedMr(s: string, i: nat)
    requires i <= |s| && MatchAt(IciciNameChain[1], s, i).Some?
    ensures exists j :: OccursAt(s, "MR.", j)
  {
    var a := i + |"Your Details With Us:"|;
    var w := SpanFrom(s, a, Space);
    assert StepsEnd(s, a, [Spaces(false), Word("MR.")], false).Some?;
    assert OccursAt(s, "MR.", w);
  }

  /**
   * The constant holder name applies whenever the text has no `MR.`: every name pattern
   * and the fallback pattern need one.
   */
  lemma IciciHolderDefault(text: string)
    requires !Contains(text, "MR.")
    ensures IciciInfo(text)["account_holder_name"] == DefaultIciciHolder
  {
    HolderNameDefault(text);
  }

  /** The holder-name block ends at the constant when the text has no `MR.`. */
  lemma HolderNameDefault(text: string)
    requires !Contains(text, "MR.")
    ensures IciciHolderName(text) == DefaultIciciHolder
  {
    ContainsIff(text, "MR.");
    SearchNeedsLead(IciciNameChain[0], text);
    SearchNeedsLead(IciciNameChain[2], text);
    SearchNeedsLead(NameFallback, text);
    if Search(IciciNameChain[1], text).Some? {
      var i :| 0 <= i <= |text| && Search(IciciNameChain[1], text) == MatchAt(IciciNameChain[1], text, i)
        && forall k :: 0 <= k < i ==> MatchAt(IciciNameChain[1], text, k).None?;
      DetailsNeedMr(text, i);
      assert false;
    }
    assert FirstMatch(IciciNameChain, text).None?;
  }

  /**
   * The constant address applies whenever none of the three address patterns' leading
   * literals occurs, in any letter case: `Your Details With Us:`, `MR.` and the street.
   */
  lemma IciciAddressDefault(text: string)
    requires forall i :: !OccursAtCi(text, "Your Details With Us:", i)
    requires forall i :: !OccursAtCi(text, "MR.", i)
    requires forall i :: !OccursAtCi(text, "1485,PRAKRUTI NIVAS,SRIRAM NAGAR,LINGARAJ,", i)
    ensures IciciInfo(text)["address"] == DefaultIciciAddress
  {
    AddressChainMisses(text);
  }

  /** None of the three address patterns is found when none of their leading literals occurs. */
  lemma AddressChainMisses(text: string)
    requires forall i :: !OccursAtCi(text, "Your Details With Us:", i)
    requires forall i :: !OccursAtCi(text, "MR.", i)
    requires forall i :: !OccursAtCi(text, "1485,PRAKRUTI NIVAS,SRIRAM NAGAR,LINGARAJ,", i)
    ensures FirstMatch(IciciAddressChain, text).None?
  {
    SearchNeedsLead(IciciAddressChain[0], text);
    SearchNeedsLead(IciciAddressChain[1], text);
    SearchNeedsLead(IciciAddressChain[2], text);
  }

  /** Both ICICI records, the extracted one and the fallback one, have the seven keys and name ICICI Bank. */
  lemma IciciInfoShape(text: string)
    ensures IciciInfo(text).Keys == InfoKeys && IciciErrorInfo.Keys == InfoKeys
    ensures IciciInfo(text)["bank_name"] == "ICICI Bank" && IciciErrorInfo["bank_name"] == "ICICI Bank"
  {
  }

  // -------------------------------------------------------------------- HDFC

  const HdfcAccount := Field("Account No", true, [Opt('.'), Spaces(false), Opt(':'), Spaces(false)], DigitOrX, OneOrMore)
  const HdfcIfsc := Field("IFSC", true, [Opt(':'), Spaces(false)], AlnumAnyCase, Exactly(11))
  const HdfcMicr := Field("MICR", true, [Opt(':'), Spaces(false)], Digit, Exactly(9))

  function FoundOr(m: Option<seq<string>>, strip: bool): string {
    match m
    case Some(g) => if strip then Strip(Group(g, 0)) else Group(g, 0)
    case None => "Not Found"
  }

  /** What `extract_account_info_hdfc(text)` returns. */
  function HdfcInfo(text: string): (r: Info)
    ensures r.Keys == InfoKeys && r["bank_name"] == "HDFC Bank" && r["account_type"] == "Savings"
  {
    MakeInfo(
      FoundOr(Search(HdfcAccount, text), false),
      FoundOr(Search(HolderLine, text), true),
      FoundOr(Search(HdfcIfsc, text), false),
      FoundOr(Search(HdfcMicr, text), false),
      "Savings",
      FoundOr(Search(AddressLine, text), true),
      "HDFC Bank")
  }

  /** `extract_account_info_hdfc`: fills the record field by field. */
  method ExtractAccountInfoHdfc(text: string) returns (info: Info)
    ensures info == HdfcInfo(text)
  {
    info := map[];
    info := info["account_number" := FoundOr(Search(HdfcAccount, text), false)];
    info := info["account_holder_name" := FoundOr(Search(HolderLine, text), true)];
    info := info["ifsc" := FoundOr(Search(HdfcIfsc, text), false)];
    info := info["micr" := FoundOr(Search(HdfcMicr, text), false)];
    info := info["account_type" := "Savings"];
    info := info["address" := FoundOr(Search(AddressLine, text), true)];
    info := info["bank_name" := "HDFC Bank"];
  }

  /** The record of the `except` branch. */
  const HdfcErrorInfo: Info := MakeInfo("Error", "Error", "Error", "Error", "Error", "Error", "HDFC Bank")

  /** The HDFC MICR is nine digits when found and `Not Found` exactly when the pattern is not found. */
  lemma HdfcMicrShape(text: string)
    ensures Search(HdfcMicr, text).Some? ==> |HdfcInfo(text)["micr"]| == 9 && AllDigits(HdfcInfo(text)["micr"])
    ensures HdfcInfo(text)["micr"] == "Not Found" <==> Search(HdfcMicr, text).None?
  {
    assert HdfcInfo(text)["micr"] == FoundOr(Search(HdfcMicr, text), false);
    if Search(HdfcMicr, text).Some? {
      SearchField(HdfcMicr, text);
      var g := Search(HdfcMicr, text).value;
      assert g[0][0] != "Not Found"[0];
    }
  }

  /** Both HDFC records have the seven keys and name HDFC Bank; the extracted one always says Savings. */
  lemma HdfcInfoShape(text: string)
    ensures HdfcInfo(text).Keys == InfoKeys && HdfcErrorInfo.Keys == InfoKeys
    ensures HdfcInfo(text)["bank_name"] == "HDFC Bank" && HdfcErrorInfo["bank_name"] == "HDFC Bank"
    ensures HdfcInfo(text)["account_type"] == "Savings"
  {
  }
}
