# Bank-statement extraction, modelled in Dafny

This project models the text-to-records core of a bank-statement analysis tool
for two Indian issuers, ICICI and HDFC. The tool turns the text of a PDF
statement into account information and transaction records, then flags risky
transactions. The model covers:

- **Issuer detection** (`detect_bank`): substring markers on the upper-cased
  text, then case-sensitive holder-name and account-number markers.
- **Account-information extraction** (`extract_account_info_icici`, `_hdfc`):
  a total seven-key map. Each field comes from an ordered chain of regular
  expressions where the first match wins, or else from a default. Each regular
  expression the code uses is a hand-written matcher with `re.search`'s
  leftmost, greedy/lazy semantics (module `Patterns`).
- **Transaction-section scanning** (`extract_transactions_*`): one pass over
  `text.split('\n')` with an "inside" flag, then a parse loop that keeps the
  lines whose parser answers something. Both are methods with loop invariants,
  proved against specification functions.
- **Line parsing** (`parse_icici_transaction_line`,
  `parse_hdfc_transaction_line`). The steps are: whitespace collapse, token
  count, a calendar-checked date (`strptime` with `%d-%m-%Y`, `%d/%m/%y` or
  `%d/%m/%Y`, leap years and the `%y` pivot at 69), `re.findall` of the amount
  patterns as a greedy left-to-right tokenizer, and exact decimal amounts.
- **The dispatch part of `extract_from_pdf`**: page texts in, then either the
  extraction or one of two errors (`EmptyDocument`, `UnsupportedIssuer`).
- **The analyzer's flag steps and summary counts**, and `validate_transactions`.
- **A round trip for HDFC lines** (module `LineRoundTrip`): a line printed
  as a date, a narration free of digits and commas, and three `ip.fp`
  amounts, separated by single blanks, parses back to that date, narration
  and amounts.

The source's quirks are modelled as written:

- The date's own digits are numeric matches.
- The ICICI fallback overwrites the balance with an unsigned number.
- The ICICI description runs to the last `Cr` (`rfind`), or else the last
  `Dr`, not to the first amount, so it can contain the amounts.
- The HDFC description ends at the first occurrence of the third-from-last
  number's text anywhere in the line, which can lie inside the date.
- In the ICICI plain-number fallback, a line without `NEFT`, `ACH` or `CMS`
  only gets its balance replaced; withdrawal and deposit are not reassigned by
  position.
- No statement in either account-information `try` block can raise, so the
  fallback records are never returned. They are kept as constants
  (`IciciErrorInfo`, `HdfcErrorInfo`).

## Model

| member | source | states |
|---|---|---|
| `BankDetection.DetectBank` | pdf_extractor.py:12-28 | The tag is ICICI, HDFC or UNKNOWN. ICICI exactly when an ICICI marker is in the upper-cased text, or no HDFC marker is and an ICICI holder/account marker is in the text as written. HDFC and UNKNOWN are characterised the same way. |
| `BankDetection.IciciWins` | pdf_extractor.py:17-20 | Text that names ICICI Bank in any letter case is ICICI, whatever HDFC markers it also holds. |
| `BankDetection.HdfcDetected` | pdf_extractor.py:19-20 | Text that names HDFC Bank in any letter case and has no ICICI marker is HDFC. |
| `Patterns.Search` | pdf_extractor.py:43 | `re.search` finds the groups of the leftmost position where the pattern matches; it finds nothing exactly when no position matches. |
| `Patterns.SearchField` | pdf_extractor.py:78-86 | A field pattern's single group is non-empty, made of its character class, and of its fixed length when it has one. |
| `Patterns.FirstMatch` | pdf_extractor.py:42-48 | The first pattern of the chain that is found decides, with its groups. Every earlier pattern is not found. Nothing is decided only when no pattern is found. |
| `Patterns.ChainSearch` | pdf_extractor.py:42-48 | The `for ... break / else` loop over a pattern list returns exactly `FirstMatch` of the chain. |
| `Patterns.FirstMatchSkips` | pdf_extractor.py:57-65 | A pattern that is not found is skipped: the chain's answer is the rest of the chain's answer, one index later. |
| `Patterns.FirstMatchIgnoresLater` | pdf_extractor.py:42-48 | Once a pattern of the chain is found, appending more patterns to the chain does not change the answer: the loop breaks before reaching them. |
| `Patterns.SearchNeedsLead` | pdf_extractor.py:43 | A pattern is never found in text where its leading literal occurs nowhere (in any letter case when the pattern ignores case). |
| `AccountInfo.IciciInfo` | pdf_extractor.py:30-105 | The ICICI record has exactly the seven keys, and `bank_name` is `ICICI Bank`. |
| `AccountInfo.ExtractAccountInfoIcici` | pdf_extractor.py:30-119 | Filling the record field by field, each chain in its loop, gives `IciciInfo(text)`. |
| `AccountInfo.FindIciciHolder` | pdf_extractor.py:51-75 | The holder name comes from the name chain, then from the fallback pattern, then from the constant. |
| `AccountInfo.IciciAccountNotFound` | pdf_extractor.py:36-48 | The account number is `Not Found` exactly when none of the three account patterns is found. |
| `AccountInfo.IciciAccountNumberFirst` | pdf_extractor.py:37-46 | When `Account Number\s*([0-9]+)` is found, its group is the account number, whatever later patterns would give. |
| `AccountInfo.SpacedNamesNeverDecide` | pdf_extractor.py:51-65 | The third name pattern never decides: wherever it matches, the first pattern matches too. |
| `AccountInfo.IciciHolderDefault` | pdf_extractor.py:51-75 | Text without `MR.` gets the constant holder name: none of the three name patterns and not the fallback pattern can match. |
| `AccountInfo.IciciAddressDefault` | pdf_extractor.py:89-104 | Text in which none of `Your Details With Us:`, `MR.` and the street literal occurs, in any letter case, gets the constant address. |
| `AccountInfo.IciciInfoShape` | pdf_extractor.py:105-117 | The extracted record and the `except` record both have the seven keys and name ICICI Bank. |
| `AccountInfo.HdfcInfo` | pdf_extractor.py:264-292 | The HDFC record has exactly the seven keys, `bank_name` is `HDFC Bank` and `account_type` is `Savings`. |
| `AccountInfo.ExtractAccountInfoHdfc` | pdf_extractor.py:264-305 | Filling the record field by field gives `HdfcInfo(text)`. |
| `AccountInfo.HdfcMicrShape` | pdf_extractor.py:282-283 | The MICR is nine digits when its pattern is found, and `Not Found` exactly when it is not. |
| `AccountInfo.HdfcInfoShape` | pdf_extractor.py:286-303 | Both HDFC records have the seven keys and name HDFC Bank; the extracted one always says Savings. |
| `Sections.ScanSection` | pdf_extractor.py:127-151 | The scan loop returns exactly the section lines. These are the kept lines strictly between the first start-marker line and the first stopping line after it, and nothing without a start marker. |
| `Sections.SectionBounds` | pdf_extractor.py:133-151 | No section line is blank, holds a skip marker or holds a start marker. Each comes after the first start marker and before the first end marker that follows it. |
| `Sections.SectionPositions` | pdf_extractor.py:133-151 | The `k`-th section line is the input line at an increasing position strictly between the first start-marker line and the first stopping line after it, so the section keeps input order, position by position. |
| `Sections.KeptIndicesPlace` | pdf_extractor.py:144-151 | The kept lines' positions: one per kept line, strictly increasing, each holding that line. |
| `Sections.KeptIndicesComplete` | pdf_extractor.py:144-151 | A position is among them exactly when its line is kept (not blank, no skip marker, no start marker). |
| `Sections.NoStartNoSection` | pdf_extractor.py:316-330 | Text without a start marker has no section lines. |
| `Sections.KeepAppend` | pdf_extractor.py:144-151 | Keeping lines commutes with concatenation, so section lines keep their input order. |
| `Sections.SectionIgnoresTail` | pdf_extractor.py:140-141 | Once the section has been closed by an end marker, lines appended after it change nothing. |
| `Text.Normalize` | pdf_extractor.py:168 | `re.sub(r'\s+', ' ', s.strip())` leaves no leading, trailing or repeated whitespace, and is empty exactly when the line is whitespace only. |
| `Text.NormalizeWords` | pdf_extractor.py:168 | The clean-up is `' '.join(line.split())`: the line's words (maximal runs of non-whitespace, defined on their own) in order, one blank between each two. |
| `Text.WordsStrip` | pdf_extractor.py:168 | Stripping the line first keeps every word: `line.strip().split() == line.split()`. |
| `Text.NormalizeFixes` | pdf_extractor.py:345 | A line that is already clean (no leading, trailing or repeated whitespace) is left unchanged by the whitespace collapse. |
| `Text.NormalizeIdempotent` | pdf_extractor.py:345 | Collapsing whitespace twice gives the same line as collapsing it once. |
| `Text.SplitJoin` | pdf_extractor.py:127 | Joining the pieces of `split` with the separator gives the text back. |
| `Calendar.ParseIciciDate` | pdf_extractor.py:176-184 | The ICICI date check accepts exactly ten-character `DD-MM-YYYY` tokens of ASCII digits that name a real calendar date, and answers that date. |
| `Calendar.IciciDateRoundTrip` | pdf_extractor.py:176-182 | An accepted ICICI token is exactly `DD-MM-YYYY` of the date read from it. |
| `Calendar.IciciFormatParse` | pdf_extractor.py:182 | Formatting a valid date as `DD-MM-YYYY` and checking it gives the date back. |
| `Calendar.CenturyPivot` | pdf_extractor.py:357 | `%y` maps a two-digit year to 1969-2068, keeping its last two digits. |
| `Calendar.ParseHdfcDate` | pdf_extractor.py:351-361 | The HDFC check accepts exactly `D/M/YY` or `D/M/YYYY` tokens (day and month one or two digits) that name a real date, reading a two-digit year with `%y`. |
| `Calendar.HdfcFormatParse` | pdf_extractor.py:351-359 | Formatting a valid date as `DD/MM/YYYY` and checking it gives the date back. |
| `Amounts.NumTokens` | pdf_extractor.py:215-216 | `re.findall(r'[0-9,]+\.?[0-9]*')` returns only tokens of that shape. |
| `Amounts.TokenFound` | pdf_extractor.py:372 | `line.find` finds every token findall returned. |
| `Amounts.NumTokensEmpty` | pdf_extractor.py:363-364 | findall finds nothing exactly when no digit or comma is left in the text. |
| `Amounts.MarkedNeedsSuffix` | pdf_extractor.py:192-193 | A line without `Cr` or `Dr` has no suffixed amounts. |
| `Amounts.ParseAmount` | pdf_extractor.py:199 | `float(t.replace(',', ''))` fails exactly when the token has no digit, and is otherwise a non-negative exact decimal. |
| `Amounts.ParseAmountDigits` | pdf_extractor.py:367-369 | A token of digits reads as the number it spells. |
| `Amounts.ParseAmountFloat` | pdf_extractor.py:199 | Every findall token reads as `float(t.replace(',', ''))`: the commas are removed, and the rest, digits with at most one point, is read as the exact decimal it spells. |
| `Amounts.CommaIgnored` | pdf_extractor.py:367-369 | Grouping commas do not affect the value: deleting one from a token leaves what it reads as unchanged. |
| `LineParsers.MarkedFigures` | pdf_extractor.py:195-210 | The last suffixed amount is the balance, negated iff `Dr`. The second-to-last is the withdrawal if `Dr` and the deposit otherwise. The line fails when one of them has no digit. Withdrawal and deposit are never negative. |
| `LineParsers.PlainFallback` | pdf_extractor.py:213-238 | Fewer than three plain numbers, or one without a digit, changes nothing. Without a transfer keyword only the balance changes, to the last number. Non-negative withdrawal and deposit stay non-negative. |
| `LineParsers.IciciFigures` | pdf_extractor.py:186-238 | The fallback runs only when withdrawal and deposit are both zero. The figures exist exactly when the suffix step reads, and withdrawal and deposit are non-negative. |
| `LineParsers.ParseIciciLine` | pdf_extractor.py:164-258 | `None` exactly when there are fewer than 3 tokens, the first token is not a valid `DD-MM-YYYY` date, or a suffixed amount read has no digit. Otherwise the record's date is that token's date and its figures are `IciciFigures` of the line. |
| `LineParsers.IciciFallbackSeesThree` | pdf_extractor.py:216-217 | On every accepted ICICI line the fallback sees at least three numbers, because the date's digits are three of them. |
| `LineParsers.IciciDateTokens` | pdf_extractor.py:215-216 | The first three plain numbers of a line that passes the date check are the day, month and year digits. |
| `LineParsers.IciciDescriptionSpan` | pdf_extractor.py:240-250 | An accepted line's description is the cleaned text from the end of the date to the last `Cr`, else the last `Dr`, else the line's end; the `parts[1:3]` branch is never taken. |
| `LineParsers.IciciAmountsNonNegative` | pdf_extractor.py:187-238 | Withdrawal and deposit of an ICICI record are never negative. |
| `LineParsers.IciciSuffixRule` | pdf_extractor.py:192-213 | With a nonzero second-to-last suffixed amount the fallback does not run. The balance is the last amount signed by its suffix, and the amount before it is the withdrawal if `Dr` and the deposit if `Cr`. |
| `LineParsers.IciciFallbackBalance` | pdf_extractor.py:213-223 | When withdrawal and deposit are both zero and the line has no transfer keyword, the balance becomes the last plain number, without a sign. |
| `LineParsers.IciciTransferFallback` | pdf_extractor.py:213-237 | When withdrawal and deposit are both zero on a `NEFT`/`ACH`/`CMS` line whose last three plain numbers read as `pw`, `pd`, `b`: with `0.00` in the line the figures are `pw`, `pd`, `b`; otherwise with `B/F` the balance is `pw` and withdrawal and deposit stay zero; otherwise the deposit is `pw`, the balance `pd` and the withdrawal stays zero. |
| `LineParsers.LastThree` | pdf_extractor.py:366-369 | The last three numbers read as withdrawal, deposit and balance, in that order, and read exactly when each holds a digit. |
| `LineParsers.ParseHdfcLine` | pdf_extractor.py:342-386 | `None` exactly when there are fewer than 4 tokens, the first token is not a valid HDFC date, fewer than three numbers are found, or one of the last three has no digit. Otherwise: the date of the token, the last three numbers as withdrawal, deposit and balance, and the description cut by `find`. |
| `LineParsers.HdfcThreeNumbers` | pdf_extractor.py:366 | On every line that passes the HDFC checks the `len(amounts) >= 3` test holds. |
| `LineParsers.HdfcDescriptionSpan` | pdf_extractor.py:371-373 | The description ends at the first occurrence of the third-from-last number, which always exists. It is empty when that occurrence lies within the date. |
| `LineParsers.HdfcDateOnlyLine` | pdf_extractor.py:363-373 | A line with no number after its date reads day, month and year as withdrawal, deposit and balance, with an empty description. |
| `LineRoundTrip.SplitConcat` | pdf_extractor.py:346 | `split` on the text `s + sep + t` gives the pieces of `s` followed by the pieces of `t`. |
| `LineRoundTrip.TokensBlank` | pdf_extractor.py:364 | No findall match runs across a blank: the matches of `a + " " + b` are those of `a` followed by those of `b`. |
| `LineRoundTrip.HdfcLineTokens` | pdf_extractor.py:363-364 | On a printed HDFC line (date, narration without digits or commas, three `ip.fp` amounts), findall returns the date's three digit runs and then the three amounts. |
| `LineRoundTrip.HdfcLineFind` | pdf_extractor.py:372 | On such a line, `line.find(amounts[-3])` lands exactly at the withdrawal field, just after the narration and its blank. |
| `LineRoundTrip.HdfcLineClean` | pdf_extractor.py:345 | A printed HDFC line is left unchanged by the whitespace collapse. |
| `LineRoundTrip.HdfcLineParses` | pdf_extractor.py:342-386 | The line parser reads back a printed HDFC line: the date named by the token, the narration as the description, and the three amounts in order. |
| `LineRoundTrip.HdfcLineRoundTrip` | pdf_extractor.py:342-386 | The same holds for the whole parser, the whitespace collapse included. |
| `LineRoundTrip.HdfcFormattedRoundTrip` | pdf_extractor.py:351-386 | A valid date printed as `DD/MM/YYYY` with a narration and three amounts parses back to exactly that date, narration and amounts. |
| `Extractor.ParseLines` | pdf_extractor.py:154-157 | The parse loop returns the records of the lines the parser accepts, in line order. |
| `Extractor.ParsedAppend` | pdf_extractor.py:154-157 | Each line is parsed on its own: parsing two runs of lines gives the records of both, in order. |
| `Extractor.ParsedAll` | pdf_extractor.py:154-157 | Lines that all parse give one record per line, each the line's own record. |
| `Extractor.ParsedNone` | pdf_extractor.py:154-157 | Lines none of which parse give no record. |
| `Extractor.ExtractTransactions` | pdf_extractor.py:121-162 | Extracting transactions is the parse loop over the section lines of `text.split('\n')`. |
| `Extractor.JoinPages` | pdf_extractor.py:392-396 | The page loop appends each non-empty page text and a newline. |
| `Extractor.PageTextBlank` | pdf_extractor.py:393-398 | The joined text is whitespace only exactly when every page is missing or blank. |
| `Extractor.Extract` | pdf_extractor.py:388-418 | `EmptyDocument` exactly when every page is blank. `UnsupportedIssuer` exactly when some page is not blank and the tag is UNKNOWN. Otherwise the tag unchanged, that layout's seven-key record, and its section's parsed records. |
| `Extractor.ExtractFromPages` | pdf_extractor.py:388-418 | The orchestrator returns exactly `Extract(pages)`. |
| `Analyzer.SuspiciousEntityIff` | analyzer.py:7-47 | The entity flag holds exactly when the lower-cased description contains `guddu`, `prabhat`, `arif` or `coal india`. |
| `Analyzer.AnyEntity` | analyzer.py:43-45 | `any(entity in d ...)` is true exactly when some entity occurs in `d`. |
| `Analyzer.LargeDdNeedsKeyword` | analyzer.py:13-20 | A row whose lower-cased description holds neither `dd` nor `demand draft` is never a large DD. |
| `Analyzer.LargeRtgsNeedsKeyword` | analyzer.py:28-35 | A row whose lower-cased description lacks `rtgs` is never a large RTGS. |
| `Analyzer.FlagsIgnoreCase` | analyzer.py:14-45 | The flags read the description only through its lower-cased form. |
| `Analyzer.FlagLargeDdWithdrawals` | analyzer.py:9-22 | The same rows in the same order, each with `is_large_dd` added (keyword, positive withdrawal over the threshold) and its other columns kept. |
| `Analyzer.FlagLargeRtgsDeposits` | analyzer.py:24-37 | The same rows in the same order, each with `is_large_rtgs` added and its other columns kept. |
| `Analyzer.FlagSpecificEntities` | analyzer.py:39-49 | The same rows in the same order, each with `is_suspicious_entity` added and its other columns kept. |
| `Analyzer.FlagLargeDdAsWritten` | analyzer.py:9-22 | As written, the DD step raises exactly when some description holds the keyword; otherwise it adds an all-false column. |
| `Analyzer.FlagLargeRtgsAsWritten` | analyzer.py:24-37 | As written, the RTGS step raises exactly when some description holds `rtgs`; otherwise it adds an all-false column. |
| `Analyzer.DdStepRaisesOnDemandDraft` | analyzer.py:15-18 | A 25,000 `DD ISSUED` withdrawal makes the step as written raise; the corrected step flags it. |
| `Analyzer.RtgsStepRaisesOnRtgsCredit` | analyzer.py:30-33 | A 60,000 `RTGS CR` deposit makes the step as written raise; the corrected step flags it. |
| `Analyzer.DdStepAgreesWithoutKeyword` | analyzer.py:13-20 | Where the DD step as written returns, it returns the corrected step's table. |
| `Analyzer.RtgsStepAgreesWithoutKeyword` | analyzer.py:28-35 | Where the RTGS step as written returns, it returns the corrected step's table. |
| `Analyzer.ApplyRows` | analyzer.py:17-20 | `apply` over the rows raises exactly when one cell raises, and otherwise gives the cells in row order. |
| `Analyzer.Summarize` | analyzer.py:59-71 | `total_transactions` is the row count. Each `*_count` is the number of rows its column marks. `flagged_transactions` is the number of rows marked by any flag: at least each count, at most their sum and at most the row count. |
| `Analyzer.TruesCount` | analyzer.py:63-65 | The sum of a boolean column is the number of rows where it is true. |
| `Analyzer.TruesUnion` | analyzer.py:66-70 | The rows flagged by any of three columns are at most the three counts together. |
| `Analyzer.Analyze` | analyzer.py:51-73 | The three steps in order add the three flags by their rules to every row, and the summary is that table's. |
| `Analyzer.AnalyzeCounts` | analyzer.py:59-70 | Each count is the number of input rows its rule marks; `flagged_transactions` is the size of the union. |
| `Analyzer.AnalyzeAsWritten` | analyzer.py:51-73 | As written, the analysis raises exactly when a description holds a DD or an RTGS keyword. |
| `Analyzer.AnalyzeAgreesWithoutKeywords` | analyzer.py:51-73 | Where the analysis as written returns, it returns what `Analyze` does. |
| `Analyzer.TotalsNonNegative` | analyzer.py:61-62 | Non-negative amounts give non-negative withdrawal and deposit totals. |
| `Validation.ValidateTransactions` | utils.py:17-27 | True exactly when all five required columns are present and the table has at least one row. |
| `Validation.AllPresent` | utils.py:21 | `all(col in columns ...)` holds exactly when every required column is among the columns. |
| `Validation.MissingColumnRejected` | utils.py:21-22 | A table missing a required column is rejected, however many rows it has. |
| `Validation.EmptyTableRejected` | utils.py:24-25 | A table with no rows is rejected. |
| `Validation.ColumnOrderIrrelevant` | utils.py:21 | The order of the columns does not change the result. |
| `Validation.ExtraColumnsIrrelevant` | utils.py:21 | Columns beyond the required ones do not change the result. |
| `Validation.ExtractedFrameValid` | utils.py:17-27 | A table the extractors build is valid exactly when it holds at least one transaction. |

## Left out

- Opening the PDF and `extract_text` (pdf_extractor.py:391-396) are the PDF library's work. The model takes the page texts as `seq<Option<string>>`.
- The `print` calls (pdf_extractor.py:160, 261, 338, 403) and the message wrapping at pdf_extractor.py:420-421. The two errors are the variants `EmptyDocument` and `UnsupportedIssuer`, without messages.
- The `except` blocks of `extract_transactions_*` and of the account-info extractors. Nothing in their `try` blocks can raise, so they are unreachable. The account-info fallback records are kept as constants.
- DataFrame construction (pdf_extractor.py:162, 340, 416). Tables are sequences of records, account info is a map, and `validate_transactions` sees a table's column labels and row count.
- Text.Upper: `str.upper`/`str.lower`/IGNORECASE are modelled for ASCII letters only. Unicode case mapping (which can change a string's length) is not modelled.
- Patterns.Search: only the regular expressions the extractors use, each hand-written. `\d` is the ASCII digits, while Python's `\d` also matches other Unicode decimal digits.
- Calendar.ParseIciciDate / Calendar.ParseHdfcDate: the date checks accept ASCII digits only. Python's `\d` in `re.match` and in `strptime`'s field patterns, and `int()`, also accept other Unicode decimal digits.
- Amounts.ParseAmount: amounts are exact decimals, not binary floats, so rounding in `float()` and in the column sums is not modelled.
- Analyzer on a table without a `description` column, such as an empty extraction, where pandas raises. Every modelled row has a description, and main.py:79 calls the analyzer only on a non-empty table.
- `main.py` (the Streamlit front end and temporary files), `visualizer.py` (charts), and `save_to_csv` and `format_currency` in utils.py: user interface, file system, clock and float formatting.

## Findings

| source | as written | input that shows it | evidently intended | confidence | as-written member | corrected member |
|---|---|---|---|---|---|---|
| analyzer.py:15-18 | `is_dd_withdrawal` returns the whole column `flagged['withdrawal_amount'] > 0` when the keyword is present, and the lambda's `and` then asks for its truth value, which raises | one row, description `DD ISSUED`, withdrawal 25,000 | flag the row when its own withdrawal is positive and over the threshold | high, not executed | `Analyzer.FlagLargeDdAsWritten` | `Analyzer.FlagLargeDdWithdrawals` |
| analyzer.py:30-33 | `is_rtgs_deposit` returns the column `flagged['deposit_amount'] > 0` when `rtgs` is present, and the lambda's `and` raises on it | one row, description `RTGS CR`, deposit 60,000 | flag the row when its own deposit is positive and over the threshold | high, not executed | `Analyzer.FlagLargeRtgsAsWritten` | `Analyzer.FlagLargeRtgsDeposits` |
