# BSC contract auditor — heuristic engine model

A Dafny model of the pure core of `bsc-auditor.py`, a heuristic triage tool that scans
Solidity source for rug-pull and malicious-owner patterns and writes a Markdown report.

The model covers five parts of the program:

- **Source normaliser** (`Cleaner`, cleaner.dfy). This is `_clean_source`. Each line is stripped, and only lines that open with one of eight Solidity keywords are kept. Lines carrying a license marker are dropped. The loop's `in_license` flag is modelled as written, and the model proves that it never changes the output.
- **Rule catalog** (`Catalog`, catalog.dfy). This is `DANGER_PATTERNS`: five rules in declaration order, each with its literal pattern texts, level and harm text.
- **Pattern matcher with exclusion suppression** (`Detector`, detector.dfy). This is `_detect_dangers`.
- **Snippet extractor** (`Snippet`, snippet.dfy). This is `_extract_snippet`. It computes the coarse `offset // 100 - 5` line window, filters the lines and truncates the result to 300 characters plus `...`.
- **Report composer** (`Report`, report.dfy). This is `generate_report`. The report is a list of sections rendered by concatenation.

`Auditor` (auditor.dfy) chains the parts into one audit run. `Text` (text.dfy) models
Python's `strip`, `split('\n')`, `'\n'.join`, `startswith`, `in`, ASCII `upper` and `str(int)`.
`Seqs` (seqs.dfy) holds order-preserving filtering and the subsequence relation.

Regular expressions are not modelled as a grammar. A pattern keeps its literal text, and
matching goes through `Regex.Oracle`, a pair of functions supplied by the caller:
- `count(p, t)` is `len(re.findall(p, t, re.I | re.M))`;
- `first(p, t)` is the start of `re.search(p, t, re.I | re.M)`.

`Regex.Consistent(o)` is the only assumption about the oracle: `first` finds a match, at an
offset no larger than the text's length, exactly when `count` is positive. It appears as a
`requires` only on the properties that need it.

Design notes:
- The "No snippet found" sentinel is an ordinary string, so an excerpt of arbitrary text could spell it. `Snippet.SentinelIffNoMatch` proves that this cannot happen for cleaned text: every cleaned line opens with a keyword, and no keyword starts with `N`. The auditor only searches the cleaned source (bsc-auditor.py:61, 115).
- The risk marker at bsc-auditor.py:176 has three branches: the flag for more than two findings, the flag again for one or two, and a blue circle for none. The model keeps all three. `Report.RiskMarkerIsBinary` shows that only the flag can appear in a report, because the conclusion is rendered only when there are findings.
- `generate_report` never reads `self.onchain_risk` (computed at bsc-auditor.py:64), so the model renders no on-chain data.
- bsc-auditor.py:98 tests `info.get('exclude')` for truthiness, so an empty exclusion pattern counts as absent.

## Model

| member | source | states |
|---|---|---|
| Cleaner.CleanLines | bsc-auditor.py:70-84 | the loop as written, `in_license` flag included, never outputs more lines than it reads, and every line it outputs opens with a keyword and carries no license marker |
| Cleaner.CleanSource | bsc-auditor.py:66-85 | the cleaned text is the stripped retained lines (keyword prefix, no license marker) joined by newlines |
| Cleaner.LicenseFlagHasNoEffect | bsc-auditor.py:70-84 | whatever the `in_license` flag, the loop keeps exactly the stripped lines that open with a keyword and carry no license marker |
| Cleaner.KeepPrefixExcludesNoise | bsc-auditor.py:80-83 | a line that opens with a kept keyword is non-empty, starts with one of `pcfmers`, and is never a comment or an obfuscated `var_` line |
| Cleaner.RetainedLinesSound | bsc-auditor.py:71-84 | there are never more cleaned lines than input lines; each cleaned line is a stripped input line with a keyword prefix and no license marker |
| Cleaner.RetainedLinesComplete | bsc-auditor.py:72-84 | every input line that, once stripped, has a keyword prefix and no marker appears in the output |
| Cleaner.RetainedLinesInOrder | bsc-auditor.py:71-84 | the cleaned lines are a subsequence of the stripped input lines (input order is kept) |
| Cleaner.CleanSourceLines | bsc-auditor.py:68-85 | splitting the cleaned text gives back exactly the retained lines (one empty line if none), so every line of cleaned text opens with a keyword or is empty |
| Text.Strip | bsc-auditor.py:72 | `strip()` returns a slice of the line with only whitespace outside it and no whitespace at either end |
| Text.StripIdempotent | bsc-auditor.py:120 | stripping an already stripped line changes nothing |
| Text.ContainsIsSlice | bsc-auditor.py:73 | the `in` substring test holds exactly when the marker occurs at some index |
| Text.Split | bsc-auditor.py:68 | `split('\n')` gives at least one piece, no piece holds a newline, and joining the pieces gives back the text |
| Text.SplitJoin | bsc-auditor.py:85 | splitting undoes `'\n'.join` for a non-empty list of newline-free lines |
| Text.AsciiUpper | bsc-auditor.py:172 | upper-casing keeps the length, maps each ASCII lower-case letter to its capital and keeps every other character |
| Text.DecimalRoundTrip | bsc-auditor.py:173 | the printed match count is a non-empty digit string with no leading zero (except `0`) that reads back as the count |
| Catalog.CatalogShape | bsc-auditor.py:15-51 | five uniquely named rules, the first three high and the last two medium; only `no_renounce` lacks an exclusion, and every exclusion is non-empty |
| Snippet.WindowStart | bsc-auditor.py:118 | the window starts at line 0 for offsets below 600, and otherwise at the offset's hundreds minus five |
| Snippet.Window | bsc-auditor.py:117-119 | the window holds at most ten lines; it is empty when the start lies past the end, and otherwise the `min(10, remaining)` consecutive lines from the start |
| Snippet.Truncate | bsc-auditor.py:122 | the result is at most 303 characters; text of at most 300 characters is unchanged; longer text keeps its first 300 characters followed by `...` |
| Snippet.ExtractSnippet | bsc-auditor.py:113-123 | the result is the sentinel when the pattern has no first match; otherwise it is the excerpt around the first match, so it is either the sentinel or at most 303 characters |
| Snippet.ShownLinesShape | bsc-auditor.py:120 | the kept lines are at most ten, an order-preserving subsequence of the window, each non-blank and not `var_[a-z]`; every such window line is kept |
| Snippet.ExcerptBounds | bsc-auditor.py:121-122 | a snippet is at most 303 characters; it is the joined lines unchanged, and at most 300 characters, when those are short enough; otherwise it is their first 300 characters plus `...` |
| Snippet.CleanTextLinesShown | bsc-auditor.py:120 | on cleaned text the snippet filter keeps exactly the non-empty lines: a cleaned line is already stripped and opens with a keyword, so it is never an obfuscated variable |
| Snippet.ExcerptOfCleanTextIsNotSentinel | bsc-auditor.py:116-122 | over cleaned text, an excerpt never equals the "No snippet found" string |
| Snippet.ExtractSnippetPath | bsc-auditor.py:115-123 | under the oracle axiom, no match gives the sentinel; a match gives the excerpt at the first match, within the text and at most 303 characters |
| Snippet.SentinelIffNoMatch | bsc-auditor.py:115-123 | under the oracle axiom and over cleaned text, the extractor returns the sentinel exactly when the pattern has no match |
| Detector.Detect | bsc-auditor.py:87-111 | there are never more findings than rules; every finding comes from a rule that fires and is not suppressed, and its match count is positive |
| Detector.DetectDangers | bsc-auditor.py:87-111 | over the catalog there are at most five findings, and each is the finding built from a catalog rule that fires and is not suppressed, with a positive match count |
| Detector.NoFindingsIffNothingEmits | bsc-auditor.py:90-111 | the findings list is empty exactly when no rule fires unsuppressed |
| Detector.FindingForRule | bsc-auditor.py:90-110 | for uniquely named rules, a rule has a finding exactly when its counts sum above zero and it is not suppressed; that finding is the one built from the rule |
| Detector.FindingsInRuleOrder | bsc-auditor.py:89-104 | finding names form a subsequence of rule names: declaration order, at most one finding per rule |
| Detector.EmittedFinding | bsc-auditor.py:95-110 | a finding copies the rule's name, level and harm, and its matches are structural plus signal count (positive); its snippet is located by the signal pattern when that matched, else by the structural pattern; under the oracle axiom it is a real excerpt, and over cleaned text it is never the sentinel |
| Detector.CatalogFindingIff | bsc-auditor.py:92-102 | a catalog rule yields a finding exactly when structural plus signal count is above zero and it is not the case that its exclusion exists and matches anywhere in the text |
| Detector.NoRenounceNeverSuppressed | bsc-auditor.py:44-48 | `no_renounce` has no exclusion, so whenever its counts are positive its finding is emitted, for every text |
| Detector.ExclusionSuppresses | bsc-auditor.py:98-102 | once a rule's exclusion pattern matches anywhere, that rule yields no finding, however many times its own patterns match |
| Detector.CatalogFindingsOrdered | bsc-auditor.py:89-90 | a catalog run yields at most five findings, in the catalog's declaration order |
| Report.GenerateReport | bsc-auditor.py:165-184 | the report opens with the header and closes with the Slither heading followed by one `- message` line per message |
| Report.SectionLayout | bsc-auditor.py:165-184 | the header comes first; the findings section (then the conclusion) appears exactly when findings exist; the no-dangers section appears exactly when none do; the Slither section appears exactly once, last |
| Report.RiskMarkerIsBinary | bsc-auditor.py:176 | every positive count gets the flag `chr(127988)`, so every rendered conclusion shows it; the 128309 branch is unreachable |
| Report.ReportText | bsc-auditor.py:167-183 | the report text starts with the header; after it comes the findings heading exactly when findings exist, and the no-dangers section exactly when none do; it ends with the Slither heading and one bullet per message |
| Report.SingleMessageClosesReport | bsc-auditor.py:180-182 | with a single message, such as the fallback message, the report ends with the Slither heading and that one bullet line |
| Report.BulletsAppend | bsc-auditor.py:181-182 | the Slither bullets distribute over concatenation, and one message gives the single line `- message` |
| Report.FindingBlocksAppend | bsc-auditor.py:171-175 | the finding blocks distribute over concatenation (one block per finding, in order), and each block opens with `#### ` and the upper-cased rule name |
| Auditor.Audit | bsc-auditor.py:61-64 | an audit run, from cleaning through to the report, gives a report that opens with the header and closes with one bullet per Slither message |
| Auditor.AuditSnippetsAreReal | bsc-auditor.py:61-62 | under the oracle axiom, every finding of an audit run has a snippet of at most 303 characters that is never "No snippet found" |
| Auditor.AuditReportShape | bsc-auditor.py:61-64 | an audit report opens with the header, shows the no-dangers section exactly when no rule fires unsuppressed on the cleaned source (the findings heading otherwise), and ends with the Slither section |

## Left out

- Reading the source file, the missing-file exit and `main` (bsc-auditor.py:56-60, 186-194): process I/O. The model starts from the source text.
- `_run_slither` (bsc-auditor.py:125-145): it writes a temporary file and calls a foreign analysis library. Its result is the `issues` parameter. That may be the single fallback message `Report.SlitherFallback`.
- `_check_onchain_risk` (bsc-auditor.py:147-163): RPC and HTTP calls. The report never reads its result, so the model has no on-chain data at all.
- Logging (bsc-auditor.py:12, 101): a side effect only.
- The regex engine: patterns are opaque literal texts, and matching is the caller's `Regex.Oracle`. No property depends on what a particular pattern matches.
- Text.AsciiUpper: models `str.upper()` on ASCII only. Non-ASCII case mappings (such as `ß` to `SS`) are left out because rule names are ASCII.
- Text.Strip: follows the whitespace table of Python's `str.isspace()` as a fixed character list. It does not consult the Unicode database.
- The exact typography of the report (emoji, Chinese labels): these are kept as literal constants. The properties speak about section presence and order, not about the characters inside the labels.
