# Heuristic shareholder extraction, modelled in Dafny

DocumentExtractor reads the text of a board consent or stock purchase agreement and recovers who holds the company's shares. Its heuristic parser does four things:

- It takes the company name from the document header or its first line. The name must carry a legal suffix: Inc., LLC or Corp.
- It finds the shareholder section, opened by "Exhibit A", "Schedule A" or "Restricted Stock Purchasers", case ignored. It keeps at most 10,000 characters from the anchor on.
- It scans the section with one global, case-insensitive regular expression of the form "two or three words, a number, `share`/`shares`". For each match it drops header words (schedule, vesting, stock, …) from the name. It then validates the record and keeps the first record of each name.
- It formats each record for display: the count grouped by thousands and its share of the total.

Two React panels sit on top of the parser:

- The warnings panel classifies each warning as high, medium or low from the words it holds.
- The results panel shows the formatted rows with a total. Clicks on its column headers set the sort state. It exports the rows as CSV or as tab-separated text for the clipboard.

The model states all of this as pure Dafny functions over `seq<char>`:

- `Count = Whole(n) | NaN` stands for the JavaScript numbers a share count can be.
- `Percentage = NotApplicable | Ratio(part, total)` stands for the percentage column, kept as an exact ratio.

The regular expression is modelled twice:

- `Matcher.MatchAt` is a deterministic matcher that takes maximal runs.
- `Matcher.Decomposes` is the language of the pattern.

Lemmas connect the two. The matcher only ever yields strings of the language, and wherever the language has a match the matcher finds one with the same cuts, at least as long. The repeated `exec` loop is `Matcher.Scan`. It is shown to be leftmost and non-overlapping.

Each export is paired with a reader: `Export.ReadCsv` for the CSV and `Export.ReadClipboard` for the clipboard text. The round-trip lemmas show that reading an export gives back the records it was made from.

Oracle lemmas (modules `Oracles` and `ScanOracle`) restate cases of the repository's test suite on the model. `ScanOracle.ExtractedFromLine` shows how the test with "SingleName 10000 shares" still yields "John Smith":

- The case-insensitive scanner matches "shares John Smith 10000 shares", taking the word "shares" of the previous line as the first of three name words.
- The header-word filter then removes that word from the name.

Two behaviours of the code are followed as written:

- A share count that `parseInt` cannot read is NaN. NaN passes both range checks of `isValidShareholder`, because every comparison with NaN is false (`Oracles.UnreadCount`). A match whose number capture is all commas therefore becomes a record with a NaN count.
- The header strategy of `extractCompanyName` checks the candidate's length before the comma is normalised, while the first-line strategy checks it after. So the header strategy can return a name of only five characters (`Oracles.ShortHeaderName`: "A,   LLC ACTION" gives "A LLC").

## Model

| member | source | states |
|---|---|---|
| Text.Lower | src/services/heuristicParser.js:56 | lower-casing keeps the length and maps every character in place, A–Z to a–z and every other character to itself |
| Text.IndexOf | src/services/heuristicParser.js:58 | `indexOf` gives an occurrence with none before it, and gives -1 (None) exactly when the pattern occurs nowhere |
| Text.Includes | src/services/heuristicParser.js:15 | `includes` holds exactly when the pattern occurs somewhere |
| Text.Trim | src/services/heuristicParser.js:85 | `trim` gives the infix left once the white space at both ends is removed; neither end of the result is white space |
| Text.Split | src/services/heuristicParser.js:32 | `split` on one character gives at least one piece, and no piece holds the separator |
| Text.SplitJoin | src/components/ExtractionResults.jsx:133-134 | joining pieces free of the separator and splitting at it again gives the pieces back |
| Text.SplitWsJoin | src/services/heuristicParser.js:89-91 | words without white space, joined by single spaces and split at white space, give the words back |
| Text.Tokens | src/services/heuristicParser.js:108 | the tokens of a name are non-empty and hold no white space |
| Text.TokensJoin | src/services/heuristicParser.js:108 | tokenising words joined by single spaces gives the words back |
| Text.TrimJoinWords | src/services/heuristicParser.js:91 | words joined by single spaces are already trimmed, so the `trim` after the join changes nothing |
| Text.Remove | src/services/heuristicParser.js:86 | `replace(/,/g, '')` leaves no comma and never lengthens the text |
| Text.RemoveKeeps | src/services/heuristicParser.js:86 | deleting commas changes nothing when there is none, keeps only characters of the input, and empties the text exactly when it is all commas |
| Numbers.ParseInt | src/services/heuristicParser.js:87 | `parseInt` is NaN exactly when the text is empty or does not start with a digit |
| Numbers.ParseIntOfDigits | src/services/heuristicParser.js:87 | `parseInt(String(n), 10)` is `n` |
| Numbers.Groups | src/services/heuristicParser.js:146 | the digit groups of `toLocaleString`: a first group of one to three digits without a leading zero, then groups of exactly three digits |
| Numbers.UngroupRoundTrip | src/services/heuristicParser.js:146 | the grouped form with its commas deleted reads back through `parseInt` as the number |
| Numbers.GroupSplit | src/services/heuristicParser.js:146 | the grouped form split at its commas gives its digit groups |
| Seqs.Filter | src/services/heuristicParser.js:90 | `filter` keeps only elements that pass, and never more than the input holds; `Seqs.FilterCons` fixes the result |
| Seqs.FilterCons | src/services/heuristicParser.js:90 | filtering a list with one more element in front gives that element, when it passes, in front of the filtered rest: with the empty list this fixes `filter` on every input |
| Seqs.FilterCount | src/services/heuristicParser.js:90 | the filtered list holds every copy of each passing value and no copy of a failing one |
| Seqs.FilterMembers | src/services/heuristicParser.js:90 | a value is in the filtered list exactly when it is in the input and passes |
| Seqs.FilterPartition | src/components/ExtractionWarnings.jsx:22-24 | filtering one list by three exclusive predicates that cover every element splits it: the parts together are a permutation of the list |
| Matcher.MatchAt | src/services/heuristicParser.js:80 | a match the regex finds at a position starts there and is a string of the pattern's language (two or three words of two or more letters, white space, digits and commas, optional white space, "share" or "shares") |
| Matcher.MatchAtComplete | src/services/heuristicParser.js:80 | wherever the pattern's language has a match, the matcher finds one at that position with the same cuts, ending no earlier |
| Matcher.SearchIsLeftmost | src/services/heuristicParser.js:84 | `exec` from `lastIndex` finds the leftmost position that matches, and finds nothing only when no later position matches |
| Matcher.Scan | src/services/heuristicParser.js:84 | the `while (exec)` loop: each match is what `exec` finds from the end of the match before it, and the last `exec` finds nothing; `Matcher.ExecIsLeftmost` turns this chain into the leftmost, non-overlapping property |
| Matcher.ExecIsLeftmost | src/services/heuristicParser.js:84 | the matches of the loop are in order and do not overlap, and no string of the language starts before, between or after them outside a match |
| Matcher.ScanDecomposes | src/services/heuristicParser.js:80-84 | every match of the loop is a string of the pattern's language |
| Matcher.NameWords | src/services/heuristicParser.js:80 | the name capture has two or three words, each of two or more letters |
| Matcher.NumberText | src/services/heuristicParser.js:80 | the number capture is non-empty and holds only digits and commas |
| Matcher.NameTextSplit | src/services/heuristicParser.js:85-89 | the name capture is already trimmed, and splitting it at white space gives exactly its words |
| Validator.SomeTooShort | src/services/heuristicParser.js:114 | `words.some(w => w.length < 2)` holds exactly when some word is shorter than two characters |
| Validator.EveryProper | src/services/heuristicParser.js:122-124 | `words.every(...)` holds exactly when every word is capitalised, an acronym or an initial |
| Validator.IsValidShareholder | src/services/heuristicParser.js:107-139 | a record is valid exactly when its name has two or more tokens, each of two or more characters and properly capitalised, the name is at most 50 characters, and the count is NaN or between 10 and 100,000,000 |
| Section.IndexOfLowered | src/services/heuristicParser.js:56-58 | searching the lowered text finds nothing exactly when the anchor does not occur case ignored, and otherwise finds its first case-ignoring occurrence |
| Section.Window | src/services/heuristicParser.js:60 | the section is the original text from the anchor on, cut after 10,000 characters |
| Section.FindShareholderSection | src/services/heuristicParser.js:55-75 | no section exactly when no anchor occurs; otherwise the window at the first occurrence of the first anchor in the order Exhibit A, Schedule A, Restricted Stock Purchasers that occurs at all; a section is never empty |
| Company.FirstKeyword | src/services/heuristicParser.js:25 | the first place at or after a position where ACTION, CONSENT or BOARD starts case ignored, with no keyword before it, or the end of the text |
| Company.BeforeKeyword | src/services/heuristicParser.js:25 | `split(/ACTION\|CONSENT\|BOARD/i)[0]` is the prefix before the first keyword, which holds no keyword |
| Company.FirstCommaBeforeSuffix | src/services/heuristicParser.js:28 | finds the first comma followed, after optional white space, by Inc., LLC or Corp., or reports that there is none |
| Company.NormalizeCommaNone | src/services/heuristicParser.js:28 | without a comma before a suffix the replacement changes nothing |
| Company.NormalizeCommaFirst | src/services/heuristicParser.js:28 | the first comma before a suffix, together with the white space after it, becomes one space, and nothing else changes |
| Company.NormalizeCommaKeepsSuffix | src/services/heuristicParser.js:28 | the replacement keeps a legal suffix |
| Company.TrimKeepsSuffix | src/services/heuristicParser.js:24-27 | trimming keeps a legal suffix, since a suffix holds no white space |
| Company.NormalizedName | src/services/heuristicParser.js:28-29 | a normalised name with a suffix is trimmed, non-empty and still has its suffix |
| Company.HeaderName | src/services/heuristicParser.js:24-30 | the header strategy answers exactly when its candidate (the trimmed first 100 characters cut before the first keyword) is 6 to 49 characters long and has a suffix; the answer is the normalised candidate |
| Company.LineName | src/services/heuristicParser.js:32-38 | the first-line strategy answers exactly when the trimmed first line is under 100 characters, has a suffix and normalises to 6 to 49 characters; the answer is the normalised line |
| Company.ExtractCompanyName | src/services/heuristicParser.js:23-41 | null exactly when neither strategy accepts; the header strategy's answer when it accepts, else the first line's; every name is trimmed, under 50 characters and has a legal suffix |
| Extractor.KeepNameParts | src/services/heuristicParser.js:81-90 | the kept words are name words that are not header words (compared in lower case), in the order of the name, and every such word value is kept |
| Extractor.KeepNamePartsCount | src/services/heuristicParser.js:90 | every copy of a word that is not a header word is kept and no copy of a header word, so with the order of `KeepNameParts` the kept list is fixed: "Ann Ann Lee" keeps both "Ann" |
| Extractor.CandidateName | src/services/heuristicParser.js:85-95 | the candidate name is the kept words of the match joined by single spaces, and the validator tokenises it back into exactly those words |
| Extractor.CandidateShares | src/services/heuristicParser.js:86-87 | the candidate count is NaN exactly when the number capture is all commas, and otherwise the value of its digits |
| Extractor.FirstNamed | src/services/heuristicParser.js:98 | `find(s => s.name === name)`: the earliest accepted candidate of a name, and none exactly when no candidate of that name is accepted |
| Extractor.FirstIndex | src/services/heuristicParser.js:98 | the position of the earliest accepted candidate of a name, or the end of the list exactly when no candidate of that name is accepted |
| Extractor.Collect | src/services/heuristicParser.js:97-101 | the kept records all pass, have pairwise different names, and are candidates taken in candidate order (as values), and every accepted candidate's name is among them |
| Extractor.CollectInMatchOrder | src/services/heuristicParser.js:97-101 | record k is the candidate at the first accepted position of its name, and those positions strictly increase with k: the records are in match order |
| Extractor.CollectUnique | src/services/heuristicParser.js:97-101 | any list that keeps every accepted name and lists each at its first accepted position, in increasing order of position, is the loop's result |
| Extractor.RepeatKeepsPlace | src/services/heuristicParser.js:97-101 | accepted candidates a, b, a with different names give [a, b]: a name seen again later keeps its first place |
| Extractor.CollectKeepsFirst | src/services/heuristicParser.js:97-101 | every kept record is the first accepted candidate of its name |
| Extractor.SectionCandidates | src/services/heuristicParser.js:84 | one candidate per match of the loop, in match order |
| Extractor.ExtractFromSection | src/services/heuristicParser.js:77-105 | every record has a non-empty valid name of two or more proper words of two or more characters, at most 50 characters, and a count in bounds or NaN; no two records share a name; every accepted candidate of the scan has its name kept; record k is the scan candidate at its name's first accepted position, those positions increasing, so by `Extractor.CollectUnique` the result is fixed |
| Extractor.ExtractedAreFirstCandidates | src/services/heuristicParser.js:77-105 | every record of a section is the first accepted candidate of its name among the scan's matches |
| Extractor.ExtractedHaveNoHeaderWords | src/services/heuristicParser.js:89-95 | no token of an extracted name is a header word |
| Extractor.ExtractedNamesAreLetters | src/services/heuristicParser.js:80-91 | every extracted name consists of letters and single spaces |
| Extractor.ExtractShareholders | src/services/heuristicParser.js:43-53 | no records without a section; otherwise the records extracted from the section |
| Formatter.Add | src/services/heuristicParser.js:142 | JavaScript `+` on counts: NaN when either side is NaN, otherwise the sum |
| Formatter.TotalShares | src/services/heuristicParser.js:142 | the total is NaN exactly when some record's count is NaN |
| Formatter.TotalSharesAppend | src/services/heuristicParser.js:142 | the total of two lists one after the other is the sum of their totals |
| Formatter.FormatShares | src/services/heuristicParser.js:146 | the grouped count reads back as the count once its commas are deleted, and splits at its commas into the digit groups |
| Formatter.PercentageOf | src/services/heuristicParser.js:147-149 | 'N/A' exactly when the total is not a positive number or the count is NaN; otherwise the ratio of the count to the total |
| Formatter.FormatShareholderData | src/services/heuristicParser.js:141-151 | one display record per record, in order, with the name unchanged and the grouped count; 'N/A' in every row exactly when the total is not positive; each ratio is the record's count over the total |
| Formatter.SharesAddUp | src/services/heuristicParser.js:142-149 | with a positive total, the numerators of the percentages add up to the total |
| Formatter.PartAt | src/services/heuristicParser.js:147-148 | with a positive total, every record's count is whole and is the numerator of its own percentage |
| Formatter.PercentText | src/services/heuristicParser.js:148 | 'N/A' is shown as such; a ratio exact to hundredths of a percent prints as a whole part, a point, two decimals and '%' |
| Formatter.PercentTextRead | src/services/heuristicParser.js:148 | the text of a ratio exact to hundredths reads back as `part * 10000 / total` hundredths of a percent: its whole part and its two decimals are digits, and the whole part has no leading zero |
| Severity.SeverityOf | src/components/ExtractionWarnings.jsx:11-19 | high exactly when the lowered warning holds "not found", "invalid" or "failed"; medium exactly when it holds none of those but "verify", "may" or "truncated"; low otherwise |
| Severity.Categorize | src/components/ExtractionWarnings.jsx:10-20 | each warning is paired with its own severity, in order |
| Severity.Classify | src/components/ExtractionWarnings.jsx:6-24 | nothing for absent or empty warnings; otherwise three lists, each holding only its severity and keeping the warnings' order, together a permutation of the categorised warnings |
| Parser.Warnings | src/services/heuristicParser.js:2-18 | the company warning is given exactly when no name was found, and then first; the no-shareholders warning exactly when no record was found; the restricted-stock hint exactly when no record was found and the text mentions both words, and then last, right after the no-shareholders warning; no warning repeats, so there are exactly as many warnings as conditions that hold |
| Parser.ParseShareholderInfo | src/services/heuristicParser.js:1-21 | the result holds the extracted company name and records, with the warnings given exactly under the conditions above, each once, in the order they are pushed |
| Parser.DistinctWarnings | src/services/heuristicParser.js:6-16 | the three warning texts differ, so each membership condition is about one warning |
| Parser.NoAnchorNoShareholders | src/services/heuristicParser.js:9-12 | a text with none of the section anchors yields no records and the no-shareholders warning |
| Export.PlainShares | src/components/ExtractionResults.jsx:124 | the shares column of the exports holds no comma |
| Export.DataRows | src/components/ExtractionResults.jsx:122-125 | one row per record, in order: its name and its shares without commas |
| Export.CsvRowsKept | src/components/ExtractionResults.jsx:127-132 | the row filter drops exactly the empty company row and keeps the header and data rows in order |
| Export.JoinRows | src/components/ExtractionResults.jsx:133 | each row becomes its cells joined by commas |
| Export.CsvLinesShape | src/components/ExtractionResults.jsx:127-133 | the CSV lines are the company line when the company name is truthy, the header line, then one `name,shares` line per record |
| Export.ClipboardLines | src/components/ExtractionResults.jsx:146-147 | one `name<TAB>shares` line per record, in order |
| Export.PlainSharesRead | src/components/ExtractionResults.jsx:124 | the exported shares read back through `parseInt` as the count they were formatted from, and hold no tab or line break |
| Export.ReadRecordLine | src/components/ExtractionResults.jsx:122-125 | a name without the separator, the separator and its plain shares read back as the record |
| Export.CsvSplits | src/components/ExtractionResults.jsx:134 | the CSV content splits at its line breaks into exactly its lines when no line holds one |
| Export.CsvRoundTrip | src/components/ExtractionResults.jsx:120-134 | reading the CSV back gives the company when it is truthy and the records it was made from, in order, when no name holds a comma or line break and the company name holds no line break |
| Export.ClipboardRoundTrip | src/components/ExtractionResults.jsx:145-148 | reading the clipboard text back gives the records it was made from, in order, when the list is not empty and no name holds a tab or line break |
| Results.DisplayList | src/components/ExtractionResults.jsx:9-11 | no rows exactly when the list is missing or empty; otherwise one row per record with its name and grouped count |
| Results.FooterText | src/components/ExtractionResults.jsx:52 | the footer total reads back as the sum of the counts, and is "NaN" as soon as one count is NaN |
| Results.FooterIsDenominator | src/components/ExtractionResults.jsx:52 | with a positive total, the footer shows the denominator of every row's percentage, and the numerators add up to it |
| Results.TotalSharesPermutation | src/components/ExtractionResults.jsx:52 | the total does not depend on the order of the records |
| Results.HandleSort | src/components/ExtractionResults.jsx:38-45 | a click selects the clicked column; on the column already selected it reverses the direction, on another it sorts ascending |
| Results.HandleSortTwice | src/components/ExtractionResults.jsx:38-41 | two clicks on the selected column restore the state |
| Results.ReplayIsCounted | src/components/ExtractionResults.jsx:38-45 | from the opening state (name, ascending), any series of clicks leaves the last clicked column, descending exactly when the clicks on it since its selection reverse an odd number of times |
| Results.ExtractedNamesHaveNoSeparators | src/services/heuristicParser.js:80-91 | no extracted name holds a comma, tab or line break |
| Results.ExtractedClipboardRoundTrip | src/components/ExtractionResults.jsx:145-148 | for every document that yields records, the clipboard text of the shown list reads back as the records |
| Results.ExtractedCsvRoundTrip | src/components/ExtractionResults.jsx:120-134 | for every document that yields records, the CSV of the shown list reads back as the company and the records, when the company name holds no line break |
| Results.DisplayCsvRoundTrip | src/components/ExtractionResults.jsx:120-134 | the CSV of a shown, non-empty list reads back as its company and records |
| Results.DisplayClipboardRoundTrip | src/components/ExtractionResults.jsx:145-148 | the clipboard text of a shown, non-empty list reads back as its records |
| Oracles.GroupedOracle | src/services/__tests__/heuristicParser.test.js:90-98 | 450000 is shown as "450,000" |
| Oracles.SplitOwnersOracle | src/services/__tests__/heuristicParser.test.js:101-111 | holdings of 75,000 and 25,000 are shown as 75.00% and 25.00% |
| Oracles.SoleOwnerOracle | src/services/__tests__/heuristicParser.test.js:114-122 | a sole holder is shown with 100.00% |
| Oracles.JohnDoe | src/services/__tests__/heuristicParser.test.js:61-73 | "John Doe" with 5 shares is rejected |
| Oracles.JaneSmith | src/services/__tests__/heuristicParser.test.js:61-73 | "Jane Smith" with 1,000 shares is accepted |
| Oracles.SingleName | src/services/__tests__/heuristicParser.test.js:143-155 | a one-word name is rejected |
| Oracles.UnreadCount | src/services/heuristicParser.js:130-136 | a NaN count passes both range checks |
| Oracles.HeaderWordOracle | src/services/__tests__/heuristicParser.test.js:48-58 | "Schedule" is dropped from "Schedule Iryna Krutenko" |
| Oracles.CompanyOracle | src/services/__tests__/heuristicParser.test.js:17-23 | "LEXSY, INC. ACTION BY UNANIMOUS WRITTEN CONSENT..." yields the company "LEXSY INC." |
| Oracles.ShortHeaderName | src/services/heuristicParser.js:24-30 | the header strategy checks the length before normalising, so "A,   LLC ACTION" yields the five-character name "A LLC" |
| ScanOracle.LineMatch | src/services/heuristicParser.js:80 | the case-insensitive regex matches "shares John Smith 10000 shares" with "shares" as the first of three name words |
| ScanOracle.LineScan | src/services/heuristicParser.js:84 | the loop finds exactly that one match on the line |
| ScanOracle.ExtractedFromLine | src/services/__tests__/heuristicParser.test.js:143-155 | the line yields John Smith alone, with 10,000 shares |

## Left out

- Unicode case folding: `toLowerCase` is modelled on A–Z only, one character for one. The regular expressions' `i` flag folds only ASCII letters onto ASCII letters here, so the matches are exact. The searches on the lowered text can differ in two ways:
  - A few non-ASCII characters lower to an ASCII letter (the Kelvin sign lowers to `k`), so the source can find an anchor or a keyword the model does not.
  - Some characters lower to a string of another length: U+0130 (capital I with dot above) lowers to two code units. Every index in the lowered text after such a character is shifted. The source uses the index found in the lowered text to cut the original text (heuristicParser.js:56-60), so its 10,000-character section starts elsewhere than `Section.Window`, which cuts at the index of the same place in the original.
- String lengths count characters, not UTF-16 code units. They differ only for characters outside the Basic Multilingual Plane.
- Formatter.PercentText: renders only ratios that are whole hundredths of a percent. The floating-point division and the rounding of `toFixed(2)` for other ratios are not modelled.
- Share counts above 2^53, where JavaScript numbers lose precision, are not modelled; counts are unbounded naturals.
- `toLocaleString` is fixed to a comma before every group of three digits, as in an English locale. Other locales are not modelled.
- Numbers.ParseInt: handles only text that starts with neither white space nor a sign. Its callers always pass digits and commas.
- The ordering of the displayed rows by the comparator of `Array.prototype.sort` (src/components/ExtractionResults.jsx:13-29) is not modelled. The comparator is not consistent (it never returns 0). The exports are stated on the list in the order the parser gives it. `Results.TotalSharesPermutation` shows the footer does not depend on that order.
- Export.CsvRoundTrip: needs names without commas and a company name without line breaks, since the export quotes nothing. Extracted names always meet the first requirement (`Results.ExtractedNamesHaveNoSeparators`). Extracted company names hold no line break when they come from the first line; a header name may hold one.
- The Blob, object URL and download link of the CSV export, the file name with `Date.now()`, the clipboard API and its `alert`, and all rendering of the panels are I/O and are not modelled.
- The PDF text extraction (src/services/pdfExtractor.js), the OpenAI-based parser (src/services/openaiParser.js), the upload component and the application shell are not part of this model.
- The expanded/collapsed state of the warnings panel is view state and is not modelled.
- The test suite's whole-document cases are not modelled as concrete lemmas. Tests 2 and 9 (Exhibit A tables) are not restated at all. Tests 3, 4 and 10 are restated only on their parts: a word list (`Oracles.HeaderWordOracle`), the validator (`Oracles.JohnDoe`, `Oracles.JaneSmith`, `Oracles.SingleName`) and one single-spaced line (`ScanOracle.ExtractedFromLine`). The general lemmas about `Extractor.ExtractFromSection` state properties every result has, not the records of those documents.
