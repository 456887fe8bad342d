# CSI 300 research panel and ticker normaliser — a Dafny model

This project models two scripts of a market-data repository.

`scripts/download_hs300.py` assembles a research panel for the CSI 300 index (沪深300). It runs four steps:
- it asks a data provider for the index constituents and keeps the first row per constituent code;
- it downloads daily quotes for 2015–2024 in one call, reusing a stored file when one exists;
- it downloads daily valuation metrics one calendar year at a time, again reusing a stored file, and stores the concatenation only when every year succeeded;
- it filters both tables to the constituents, parses the `YYYYMMDD` trade dates, left-merges metrics onto quotes by (code, day), sorts by (code, day) and stores the panel.

`scripts/a_stock/excel_to_csv.py` turns a constituents spreadsheet into a one-column list of exchange-qualified codes. It strips each code, appends `.SH` or `.SZ` to six-character codes, passes codes that already contain a `.` through unchanged, and rejects all others. The code column is the first accepted alias found among the sheet's columns.

Modules:
- `Wrappers` — `Option` and `Result`.
- `TradeDates` — decimal digit strings, the Gregorian calendar, `YYYYMMDD` parsing as `pd.to_datetime(..., format="%Y%m%d")` does it (including the nanosecond-Timestamp range 1677-09-22 … 2262-04-11), formatting, and the order on days.
- `TickerCodes` — Python's `str.strip` (its exact whitespace set), `normalize_code`, the column-alias search, and the whole conversion.
- `Hs300Data` — the table rows and `drop_duplicates(subset=["con_code"])`.
- `Hs300Panel` — `isin` filtering, date parsing of a table, pandas' left merge (including fan-out when metrics keys repeat), the (code, day) sort, and `build_hs300_panel`.
- `Hs300Fetch` — the provider as a class whose endpoints are fixed functions of the request and which logs every call; the artifact files as a class of maps keyed by file name; the cache-then-fetch steps; the year-by-year loop; and the whole run.

Each year loop iteration is proved against two functions: `FetchThrough`, the results for the years so far or the first failure, and `CallsThrough`, the calls made so far. The lemmas beside them state what those functions mean: one call per year in year order, the first failing year, and the concatenation.

The whole run is proved against functions of the provider's answers and the files on disk before the run. `DailyStep` and `BasicStep` give what each download step yields. `RunOutcome` gives the first failing step's error, or else the panel. `RunCalls` gives the calls made. `AfterStep` gives a file map after a step that writes only what it fetched itself.

## Model

| member | source | states |
|---|---|---|
| TradeDates.ParseTradeDate | scripts/download_hs300.py:113 | a string is read as a day only when it is eight ASCII digits naming a calendar day inside the Timestamp range |
| TradeDates.ParseThenFormat | scripts/download_hs300.py:113 | a date string that parses has year, month and day equal to the values of its digit groups, is a calendar day pandas can hold, and is exactly the eight-digit form of that day |
| TradeDates.FormatThenParse | scripts/download_hs300.py:113 | every calendar day in the Timestamp range is read back from its eight-digit form |
| TradeDates.ParseInjective | scripts/download_hs300.py:112-119 | distinct date strings never parse to the same day, so merging on parsed days joins the same rows as merging on equal strings |
| TradeDates.DateLeTotal | scripts/download_hs300.py:124 | the order on days is total and antisymmetric |
| TradeDates.DateLeTransitive | scripts/download_hs300.py:124 | the order on days is transitive |
| TradeDates.DecimalIsPadded | scripts/download_hs300.py:83-84 | `str` of a number with exactly `width` significant digits is its zero-padded form of that width |
| TickerCodes.Strip | scripts/a_stock/excel_to_csv.py:16 | stripping never lengthens a string |
| TickerCodes.StripShape | scripts/a_stock/excel_to_csv.py:16 | the strip is the slice of the string left after removing whitespace-only ends, and it neither starts nor ends with whitespace |
| TickerCodes.StripPadded | scripts/a_stock/excel_to_csv.py:16 | whitespace added around a string does not change its strip |
| TickerCodes.StripIdempotent | scripts/a_stock/excel_to_csv.py:16 | stripping twice is stripping once |
| TickerCodes.NormalizeCode | scripts/a_stock/excel_to_csv.py:14-29 | every accepted code contains a `.` and has no surrounding whitespace |
| TickerCodes.NormalizeCodeCases | scripts/a_stock/excel_to_csv.py:18-29 | on the stripped code: six characters starting with `6` gives code + `.SH`; six characters otherwise gives code + `.SZ`; another length with a `.` is returned unchanged; another length without a `.` is rejected with that code |
| TickerCodes.NormalizeIgnoresPadding | scripts/a_stock/excel_to_csv.py:16 | a code padded with whitespace on either side normalises exactly as the bare code |
| TickerCodes.NormalizeIdempotent | scripts/a_stock/excel_to_csv.py:14-29 | every accepted code normalises to itself |
| TickerCodes.DetectCodeColumn | scripts/a_stock/excel_to_csv.py:40-51 | the loop returns nothing exactly when no alias is among the columns, and otherwise the earliest alias in the preference list that is present |
| TickerCodes.NormalizeAll | scripts/a_stock/excel_to_csv.py:54 | the column converts exactly when every cell normalises; then it is one normalised code per cell in row order; otherwise the error is that of the first failing cell |
| TickerCodes.ExcelToCsv | scripts/a_stock/excel_to_csv.py:40-57 | fails with the whole alias list exactly when no alias is present; succeeds whenever an alias is present and every cell of the earliest alias column normalises; on success yields one code per row, each the normalisation of that row's cell in that column; a code error names a cell of that column that fails |
| Hs300Data.DedupFrom | scripts/download_hs300.py:45 | the pass over the rows never adds rows, and keeps no row whose code was already seen |
| Hs300Data.DropDuplicates | scripts/download_hs300.py:45 | the result has the same set of constituent codes, each code once, is a subsequence of the input, and every kept row is the first input row with its code |
| Hs300Panel.InUniverse | scripts/download_hs300.py:108-109 | the filtered table is a subsequence of the table holding every row of a universe code as often as the table does, and no other row |
| Hs300Panel.InUniverseMembers | scripts/download_hs300.py:105-109 | a row survives the filter exactly when it is in the table and its code is a constituent code |
| Hs300Panel.ParseDates | scripts/download_hs300.py:112-113 | parsing succeeds exactly when every trade date is a day; then row i is row i with its day; otherwise the error names a date string that is not a day |
| Hs300Panel.ParsedKeysUnique | scripts/download_hs300.py:112-113 | rows with distinct (code, date string) keys keep distinct (code, day) keys after parsing |
| Hs300Panel.Matches | scripts/download_hs300.py:116-122 | the metrics matched to a key all come from metrics rows with that key, and there are none exactly when no metrics row has the key |
| Hs300Panel.MergeRow | scripts/download_hs300.py:116-122 | one quote row yields at least one merged row, and each carries the quote's code, day and quote |
| Hs300Panel.MergeLeft | scripts/download_hs300.py:116-122 | the left merge has at least as many rows as the quotes |
| Hs300Panel.MergeLeftFromLeft | scripts/download_hs300.py:116-122 | every merged row carries the code, day and quote of some quote row: the left merge invents no rows |
| Hs300Panel.MergeLeftKeepsLeft | scripts/download_hs300.py:116-122 | every quote row reaches the merge: the merge is left-preserving |
| Hs300Panel.MatchesAtMostOne | scripts/download_hs300.py:116-122 | with unique metrics keys a key matches at most one metrics row |
| Hs300Panel.MergeRowUniqueRight | scripts/download_hs300.py:116-122 | with unique metrics keys one quote row yields exactly one merged row, whose metrics are the lookup of its key |
| Hs300Panel.MergeLeftUniqueRight | scripts/download_hs300.py:116-122 | with unique metrics keys the merge has one row per quote row, in order, whose metrics are the lookup of its key |
| Hs300Panel.StrLeTotal | scripts/download_hs300.py:124 | code-point order on strings is total and antisymmetric |
| Hs300Panel.StrLeTransitive | scripts/download_hs300.py:124 | code-point order on strings is transitive |
| Hs300Panel.KeyLeTotal | scripts/download_hs300.py:124 | the (code, day) order on panel rows is total |
| Hs300Panel.KeyLeTransitive | scripts/download_hs300.py:124 | the (code, day) order on panel rows is transitive |
| Hs300Panel.Insert | scripts/download_hs300.py:124 | inserting into a sorted panel gives a sorted panel holding the old rows and the new one |
| Hs300Panel.SortPanel | scripts/download_hs300.py:124 | the sorted panel is ascending by (code, day) and a permutation of its input |
| Hs300Panel.InsertStable | scripts/download_hs300.py:124 | insertion puts the new row in front of the rows that share its key and leaves their order alone |
| Hs300Panel.SortPanelStable | scripts/download_hs300.py:124 | the sort is stable: the rows with any one (code, day) key come out in their input order |
| Hs300Panel.PermutationKeepsUniqueKeys | scripts/download_hs300.py:124 | reordering rows with unique keys keeps the keys unique |
| Hs300Panel.BuildPanel | scripts/download_hs300.py:101-127 | every panel built is ascending by (code, day) |
| Hs300Panel.PanelFailsOnBadDate | scripts/download_hs300.py:112-113 | the build fails exactly when a quote or metrics row of a constituent code has a trade date that is not a day |
| Hs300Panel.PanelRowsFromUniverseDaily | scripts/download_hs300.py:105-109 | every panel row carries a quote row of the input whose code is a constituent code |
| Hs300Panel.PanelKeepsUniverseDaily | scripts/download_hs300.py:116-122 | every quote row of a constituent code appears in the panel |
| Hs300Panel.PanelIsSortedMerge | scripts/download_hs300.py:116-124 | whenever both filtered tables parse, the panel is ascending by (code, day) and a permutation of the left merge of the parsed, filtered tables |
| Hs300Panel.PanelOneRowPerDailyRow | scripts/download_hs300.py:116-122 | with unique metrics keys among constituent rows, the panel has as many rows as the filtered quotes |
| Hs300Panel.PanelRowMetrics | scripts/download_hs300.py:116-122 | with unique metrics keys, a panel row's metrics are absent exactly when no metrics row has its code and day, and otherwise come from such a row |
| Hs300Panel.LookupOfParsed | scripts/download_hs300.py:112-122 | looking a key up in parsed metrics finds nothing exactly when no unparsed row has that code and a date string for that day, and otherwise finds such a row's metrics |
| Hs300Panel.PanelUniqueKeys | scripts/download_hs300.py:116-124 | when both filtered tables have unique keys, no panel holds two rows for one (code, day) |
| Hs300Panel.ExampleDayFormat | scripts/download_hs300.py:113 | 2 January 2024 is written "20240102" |
| Hs300Panel.ParseExampleDay | scripts/download_hs300.py:113 | "20240102" is read as 2 January 2024 |
| Hs300Panel.PanelSingleQuoteNoMetrics | scripts/download_hs300.py:101-127 | one constituent with one quote and no metrics gives a one-row panel whose metrics are absent |
| Hs300Fetch.Provider.constructor | scripts/download_hs300.py:31-34 | a new provider connection has made no calls |
| Hs300Fetch.Provider.CallIndexWeight | scripts/download_hs300.py:44 | the constituents call is logged and answered by the constituents endpoint |
| Hs300Fetch.Provider.CallDaily | scripts/download_hs300.py:62 | the quotes call is logged and answered by the quotes endpoint |
| Hs300Fetch.Provider.CallDailyBasic | scripts/download_hs300.py:86-90 | the metrics call is logged and answered by the metrics endpoint |
| Hs300Fetch.ArtifactStore.constructor | scripts/download_hs300.py:26-28 | a fresh data directory holds no files |
| Hs300Fetch.ArtifactStore.WriteUniverse | scripts/download_hs300.py:46 | writing the universe file replaces that one file and nothing else |
| Hs300Fetch.ArtifactStore.WriteDaily | scripts/download_hs300.py:63 | writing the quotes file replaces that one file and nothing else |
| Hs300Fetch.ArtifactStore.WriteBasic | scripts/download_hs300.py:96 | writing the metrics file replaces that one file and nothing else |
| Hs300Fetch.ArtifactStore.WritePanel | scripts/download_hs300.py:125 | writing the panel file replaces that one file and nothing else |
| Hs300Fetch.GetHs300Universe | scripts/download_hs300.py:37-48 | exactly one constituents call for the index on the given day, with no cache check; on an answer, returns its deduplicated rows and overwrites the universe file with them; on an error, returns it and writes nothing |
| Hs300Fetch.GetDailyAll | scripts/download_hs300.py:51-65 | when the quotes file exists, returns its rows with no provider call; otherwise makes exactly one quotes call for the configured range and stores and returns the answer, or writes nothing on an error |
| Hs300Fetch.FetchBasicSegments | scripts/download_hs300.py:80-95 | the year loop returns the segmented download of its years and logs exactly that download's calls |
| Hs300Fetch.GetDailyBasicAll | scripts/download_hs300.py:68-98 | when the metrics file exists, returns its rows with no provider call; otherwise runs the year loop from the first to the last configured year and stores its result only when it succeeded |
| Hs300Fetch.BuildHs300Panel | scripts/download_hs300.py:101-127 | returns the panel of its inputs and stores it under the panel file, or returns the date error and stores nothing |
| Hs300Fetch.RunPipeline | scripts/download_hs300.py:130-142 | the outcome is the first failing step's error, else the panel; the calls are the constituents call, then each later step's calls up to and including the first failing step; the universe file is rewritten when the constituents call succeeds, the quotes and metrics files are written only by a step that fetched and succeeded, and the panel file only on success; a failed constituents call changes no file and makes no other call; every file written before a failure stays written |
| Hs300Fetch.CachedRunOutcome | scripts/download_hs300.py:130-142 | when both downloads are on disk the constituents call is the only call and the outcome is the panel of the stored tables and the new constituents |
| Hs300Fetch.RunOutcomeSuccess | scripts/download_hs300.py:101-142 | a successful run had every step succeed, and its panel is sorted and equal to the panel of the files the run leaves on disk |
| Hs300Fetch.GetDailyTwice | scripts/download_hs300.py:56-65 | after a successful quotes step, a second one returns the same rows and makes no provider call |
| Hs300Fetch.GetDailyBasicTwice | scripts/download_hs300.py:73-98 | after a successful metrics step, a second one returns the same rows and makes no provider call |
| Hs300Fetch.RunTwice | scripts/download_hs300.py:130-142 | the first run makes exactly the calls of a run from the stored files it started with; after a successful run, a second run asks only for the constituents and returns the same panel |
| Hs300Fetch.FirstYear | scripts/download_hs300.py:82 | the metrics download starts in 2015 |
| Hs300Fetch.LastYear | scripts/download_hs300.py:82 | the metrics download ends in 2024 |
| Hs300Fetch.CallsThrough | scripts/download_hs300.py:80-91 | a run of years makes at most one call per year |
| Hs300Fetch.CallsThroughRequests | scripts/download_hs300.py:80-91 | the calls made are the requests for consecutive years, starting with the first year |
| Hs300Fetch.SegmentedBasic | scripts/download_hs300.py:80-95 | the download fails for want of segments exactly when the first year is after the last |
| Hs300Fetch.SegmentedBasicMembers | scripts/download_hs300.py:86-95 | a downloaded row is a row some year in the range answered, and every answered row is downloaded |
| Hs300Fetch.FailureSticks | scripts/download_hs300.py:82-91 | once a year has failed, later years add neither results nor calls |
| Hs300Fetch.FetchThroughAnswered | scripts/download_hs300.py:80-91 | a run of years succeeds exactly when every year in it is answered |
| Hs300Fetch.FetchThroughSuccess | scripts/download_hs300.py:80-91 | a successful run of years holds one result per year, each that year's answer, and made one call per year |
| Hs300Fetch.FetchThroughFailure | scripts/download_hs300.py:80-91 | a failing run of years fails at the first year whose answer is an error, with that error, after one call per year up to and including that year |
| Hs300Fetch.FlattenLength | scripts/download_hs300.py:95 | the concatenation is as long as the segment lengths summed |
| Hs300Fetch.FlattenMembers | scripts/download_hs300.py:95 | a row is in the concatenation exactly when it is in some segment |
| Hs300Fetch.SegmentedBasicOutcome | scripts/download_hs300.py:80-95 | for any first and last year, given every year's answer, the download fails for want of segments exactly when the first year is after the last; otherwise it is the answers concatenated in year order, as long as their lengths summed |
| Hs300Fetch.SegmentedBasicFails | scripts/download_hs300.py:86-95 | one failing year makes the whole download fail with a provider error |
| Hs300Fetch.FourDigitYear | scripts/download_hs300.py:83-84 | a four-digit year is written with four digits |
| Hs300Fetch.YearStartIsFormat | scripts/download_hs300.py:83 | a year's start bound is the eight-digit form of 1 January of that year |
| Hs300Fetch.YearEndIsFormat | scripts/download_hs300.py:84 | a year's end bound is the eight-digit form of 31 December of that year |
| Hs300Fetch.SegmentBounds | scripts/download_hs300.py:83-84 | each segment's bounds are read back as 1 January and 31 December of its year |
| Hs300Fetch.SegmentOfDay | scripts/download_hs300.py:82-84 | a calendar day lies within the segment of its own year and of no other: the segments neither overlap nor leave gaps |
| Hs300Fetch.ConfiguredYears | scripts/download_hs300.py:82 | the first four characters of the configured bounds give the years 2015 and 2024 |
| Hs300Fetch.ConfiguredOuterBounds | scripts/download_hs300.py:21-22 | the first segment starts on the configured start day and the last ends on the configured end day |
| Hs300Fetch.ConfiguredDownload | scripts/download_hs300.py:82-90 | with every year answered, the configured download makes ten calls, one per year from 2015 to 2024 in order, each covering 1 January to 31 December of its year, from the configured start day to the configured end day |

## Left out

- File I/O is not modelled: Parquet, Excel and CSV reading and writing, `mkdir` and path resolution. The files are maps from file name to rows, and a file reads back exactly what was written.
- The provider's answers are fixed functions of the request. The model says nothing about what data a date range returns, so a segmented download is not compared with a single whole-range download. `SegmentOfDay` shows only that the year ranges partition the days.
- Provider errors are collapsed into one error value. Timeouts, network errors and malformed answers all abort the step in the same way.
- Loading the token from the local configuration (and the `RuntimeError` when it is missing) is not modelled, nor is `time.sleep(0.4)` between calls, nor any `print`.
- Quote and metric columns are opaque payloads (`seq<real>`); floating point is not modelled. The `_basic` merge suffix never applies, because the only shared columns are the two keys.
- `Hs300Fetch.FetchBasicSegments` takes the first and last year as arguments so that it can be stated for any years. With the configured constants the years are 2015 to 2024 (`ConfiguredYears`), so the empty-concatenation error cannot occur.
- The segments are whole calendar years (`{year}0101`–`{year}1231`), as the code requests them. They are not clipped to `START_DATE` or `END_DATE`.
- `Hs300Fetch.RunTwice` relies on the constituents endpoint giving the same answer on both runs, because the provider is modelled as a fixed function.
- `Hs300Panel.ParseDates` accepts exactly eight ASCII digits forming a day in the Timestamp range. Other spellings that pandas' parser might accept, missing dates (which pandas turns into NaT) and non-string dates are all treated as errors or are not modelled.
- The panel sort is an insertion sort rather than pandas' algorithm. Like pandas' sort on several columns it is stable (`SortPanelStable`), so rows with equal (code, day) keys keep the order the merge gave them. Equal keys arise when a quote key repeats or when a repeated metrics key fans one quote row out.
- `TickerCodes.ExcelToCsv` takes the cells as strings. `str()` of numeric Excel cells (a code read as the integer 1 loses its leading zeros) is not modelled, and neither are the other columns of the sheet.
