# Lucky Numbers (Belgian lottery analyser): a Dafny model

The repository has two halves:

- `scripts/fetch-data.js` reads the Loterie Nationale statistics workbook for Lotto (6 of 45) and EuroMillions (5 of 50 plus 2 of 12 stars). It writes per-number statistics and the recent draw history as a JSON file.
- `app.js` is a web page that reads that file. It:
  - suggests numbers by the cold, hot, balanced and due strategies;
  - computes the jackpot odds;
  - enumerates wheel boards;
  - keeps its settings in the browser's storage.

The model covers the deterministic core of both halves.

- **Cells** (`cells.dfy`): the cell interpreters `toNumber` and `toDate`, and the helpers `toDateString`, `maxDate`, `round`, `rowHasNumber` and `calculateDrawsSince`.
  - Cells are a datatype.
  - Dates are UTC timestamps in milliseconds.
  - The host's `new Date(text)` and the workbook library's date-code reader are oracles, passed in as parameters.
- **Columns** (`columns.dfy`): the column classifier, which tries the header row first and then falls back to value ranges.
  - `buildColumnStats`, `pickTimesColumn`, `pickFrequencyColumn`, `scoreDateColumn`, `pickDateColumn` and `pickGapColumn` are methods with the source's loops.
  - Each method is proved equal to a specification function.
  - The choice rules are proved as lemmas about those functions.
- **NumberStats** (`number_stats.dfy`): `extractNumberStats`. It selects the sheet, reads one raw record per number row, computes the draw count, normalises each record through its fallback chains, and builds the most- and least-drawn lists.
- **History** (`history.dfy`): `extractDrawHistory` and `dedupeHistory`. These scan the rows for draws, drop duplicates and invalid draws, sort newest first, and keep twenty.
- **Strategies** (`strategies.dfy`): `getColdNumbers`, `getHotNumbers`, `getBalancedNumbers` and `getDueNumbers`, over the records the extractor writes. JavaScript's stable `sort` is an insertion sort (`sorting.dfy`). `parseInt` is modelled on decimal text.
- **Combinatorics** (`combinatorics.dfy`):
  - `combinations`, an accumulator loop proved against Pascal's rule;
  - `getTotalCombinations`;
  - the `combine` recursion of `generateWheelBoards`, proved to enumerate every k-subset once, in lexicographic order;
  - the wheel branch of `generateMultiBoards`.
- **AppData** (`app_data.dfy`): the app's game table, `buildDrawnResults`, and `parseStatistics`. A round trip ties what the fetch script writes to what the app reads.
- **Settings** (`app_state.dfy`): a class `AppState` holding the fields of the app's `state` that these functions update. It covers `loadSettings`, `toggleWheelNumber` and the wheel case of `generateMultiBoards`. `saveSettings` appears as the partner of `loadSettings`: what it writes, the loader reads back.

Some behaviours of the code are modelled as written.

- **The accented gap keyword is dead.** The gap keyword `'Ã©cart'` can never match, because lower-casing turns every `Ã` of a header into `ã`.
- **The date fallback is not lexicographic.** It takes a candidate with more dates *or* a later median year.
- **Dedupe keys keep row order.** The key is the date plus the main numbers in row order, and an invalid draw does not take its key.
- **The fetched period never matches.** The app's period filter (`2011-Today`, `2016-Today`) never matches the period the fetch script writes, so the app always falls back to the first block of each kind.
- **Loading does not cap the wheel.** `loadSettings` keeps up to a whole grid of wheel numbers, not fifteen. With more than fifteen selected, a number removed by a click cannot be added back by clicking it again.

## Model

| member | source | states |
|---|---|---|
| Cells.ToNumber | scripts/fetch-data.js:178-186 | A number cell is returned unchanged. A text never reads as a negative number, and a text without any digit reads as null. Every other kind of cell gives null. |
| Cells.NumberTextRoundTrip | scripts/fetch-data.js:178-186 | The text of a whole number reads back as that number. |
| Cells.DecimalComma | scripts/fetch-data.js:181-182 | A decimal comma is read as a decimal point: `w,f` gives w + 0.f. |
| Cells.ParseFloatOfDecimal | scripts/fetch-data.js:182 | parseFloat of `w.f` (w and f made of digits, w not empty) is the whole number w plus the fraction 0.f. |
| Cells.ToDate | scripts/fetch-data.js:188-210 | Falsy cells, numbers below 20000, booleans and null give null. A date cell is kept. A number of at least 20000 gives UTC midnight of the workbook library's date for it, and null when that library reads no date. A text the host parses gives the host's date. |
| Cells.TextWithoutDigitsIsNoDate | scripts/fetch-data.js:197-209 | A text that the host rejects and that holds no digit is not a date. |
| Cells.TwoDigitYearIsThisCentury | scripts/fetch-data.js:201-206 | A `dd/mm/yy` text (separators `/`, `.` or `-`) that the host rejects is UTC midnight of day dd, month mm, year 20yy. |
| Cells.DmyTextIsDate | scripts/fetch-data.js:199-207 | A text the host rejects, whose leftmost D/M/Y match (1-2 digit day and month, 2-4 digit year, separators `/`, `.` or `-`) is at i, gives UTC midnight of that match's day, month and year. A two-digit year yy is read as 20yy, a longer one as written. |
| Cells.NoDmyIsNoDate | scripts/fetch-data.js:199-209 | A text the host rejects and with no D/M/Y match anywhere is not a date. |
| Cells.ShapeMatches | scripts/fetch-data.js:201 | At a place where the day, month and year groups fit, with the year group as long as the digits allow up to four, the pattern matches with exactly those groups. |
| Cells.MatchHasShape | scripts/fetch-data.js:201 | Every match of the pattern has that shape. |
| Cells.DateTextReadsBack | scripts/fetch-data.js:212-217 | For a four-digit year the date text is `YYYY-MM-DD`, and its three fields read back as the UTC year, month and day. |
| Cells.DateTextFields | scripts/fetch-data.js:212-217 | For a four-digit year, the text of a date has its fields at the fixed places `YYYY-MM-DD`, and they read back as the date. |
| Cells.MaxDate | scripts/fetch-data.js:219-223 | The result is null exactly when no date is present. Otherwise it is one of the dates, and no date is later. |
| Cells.MathRound | scripts/fetch-data.js:228 | Math.round gives the integer within half of x, rounding a half up. |
| Cells.Round | scripts/fetch-data.js:225-229 | Scaled by 10^digits, the result is the whole number Math.round gives for the scaled value. |
| Cells.RoundCents | scripts/fetch-data.js:225-229 | A value already written with two decimals is kept by round(_, 2). |
| Cells.RoundCentsIdempotent | scripts/fetch-data.js:225-229 | Rounding to two decimals twice is rounding once. |
| Cells.CalculateDrawsSince | scripts/fetch-data.js:235-238 | The result is floor(2·days/7) of the whole days between the timestamps, and 0 when the current date is not later. |
| Columns.ColumnSummaryIsRange | scripts/fetch-data.js:56-71 | A column has a range exactly when one of its cells holds a number. The range's min and max are then the least and greatest numbers of the column. |
| Columns.SummaryWhenNumber | scripts/fetch-data.js:60-63 | `stats[idx]` is set exactly when some row holds a number in column idx. |
| Columns.SummaryBounds | scripts/fetch-data.js:62-67 | min ≤ max, and every number of the column lies between them. |
| Columns.SummaryAttained | scripts/fetch-data.js:62-67 | The range's min and max are each a number that some row holds in the column. |
| Columns.StatsWidthIsLastColumn | scripts/fetch-data.js:56-71 | The array ends at the last column where some row holds a number. |
| Columns.NothingPastWidth | scripts/fetch-data.js:59-63 | No row holds a number at or past the array's length. |
| Columns.LastColumnHasNumber | scripts/fetch-data.js:59-63 | Some row holds a number in the array's last column. |
| Columns.ColumnStats | scripts/fetch-data.js:56-71 | The array has one entry per column up to that width. Each entry is that column's range. |
| Columns.ColumnStatsDetermined | scripts/fetch-data.js:56-71 | The ranges, together with the position of the last column that has one, determine the array. |
| Columns.BuildColumnStats | scripts/fetch-data.js:56-71 | The nested loops widen each column's range by every number they read. The result equals the range array. |
| Columns.AddRow | scripts/fetch-data.js:59-68 | The inner loop over one row's cells turns the ranges of the earlier rows into the ranges of the rows up to and including this one. |
| Columns.FirstHeaderFrom | scripts/fetch-data.js:99-103 | The result is the first header (outside the skipped columns) that holds a keyword, or null if none does. |
| Columns.FindHeader | scripts/fetch-data.js:74-80 | The header scan loop returns the first matching header. |
| Columns.AccentedGapKeyIsDead | scripts/fetch-data.js:165 | The mis-encoded keyword `'Ã©cart'` never matches a lower-cased header. |
| Columns.GapKeysWithoutAccent | scripts/fetch-data.js:165-166 | The gap header test matches exactly when one of the other five keywords matches. |
| Columns.BestTimes | scripts/fetch-data.js:85-94 | The result is the earliest candidate (a column other than the number column, with max ≤ 30000) whose max is the greatest. It is null when there is no candidate. |
| Columns.ScanTimes | scripts/fetch-data.js:85-94 | The `forEach` scan over the column ranges returns the specified best candidate. |
| Columns.PickTimesColumn | scripts/fetch-data.js:73-96 | The loop returns the specified times column. |
| Columns.TimesColumnChoice | scripts/fetch-data.js:73-96 | The times column is never the number column. An allowed header match wins. Otherwise the result is the earliest candidate with the greatest max. |
| Columns.FirstInRangeFrom | scripts/fetch-data.js:104-108 | The result is the first unskipped column whose values lie in [0, hi], or null. |
| Columns.FindInRange | scripts/fetch-data.js:104-109 | The range loop returns that first column. |
| Columns.PickFrequencyColumn | scripts/fetch-data.js:98-110 | The loops return the specified frequency column. |
| Columns.FrequencyColumnChoice | scripts/fetch-data.js:98-110 | The result is never the number column or the times column. A column chosen by range lies within [0, 100], and no earlier allowed column does. |
| Columns.PickGapColumn | scripts/fetch-data.js:161-176 | The loops return the specified gap column. |
| Columns.GapColumnChoice | scripts/fetch-data.js:161-176 | The result is never the number, times, frequency or date column. A column chosen by range lies within [0, 200], and no earlier allowed column does. |
| Columns.ScoreOf | scripts/fetch-data.js:112-122 | The count is the number of dates in the column. The median is 0 for an empty column and otherwise one of the column's years. |
| Columns.ColumnYears | scripts/fetch-data.js:113-117 | The loop collects the UTC year of every row's date in that column, in row order. |
| Columns.MedianSplitsYears | scripts/fetch-data.js:118-120 | The median year is at index floor(count/2) of the sorted years: no earlier year is later and no later year is earlier. |
| Columns.ScoreDateColumn | scripts/fetch-data.js:112-122 | The loop and sort compute the specified score. |
| Columns.SelectDate | scripts/fetch-data.js:148-157 | The fallback picks a candidate that passes (at least 10 dates, median year ≥ 2000). It picks none only when no candidate passes. |
| Columns.SelectDateLast | scripts/fetch-data.js:148-157 | The pick is the last replacement of the walk. It passes, it beats the best of the candidates before it, and no later passing candidate beats it. |
| Columns.DateChoiceIsNotLexicographic | scripts/fetch-data.js:153 | A concrete input on which a later median displaces more dates, and is displaced in turn by more dates. |
| Columns.DateChoiceTieNotFirst | scripts/fetch-data.js:152-156 | A concrete input where, of two candidates with the same score, the later one is picked, because a third candidate displaces the first in between. |
| Columns.FirstSeen | scripts/fetch-data.js:141-147 | The Map's keys are the columns that occur, each once. |
| Columns.FirstSeenOrder | scripts/fetch-data.js:141-147 | The keys come in the order of first insertion. Wherever a later key occurs in the input, every earlier key has already occurred. |
| Columns.CollectDateColumns | scripts/fetch-data.js:141-147 | The nested loops collect the date columns in first-seen order. |
| Columns.CollectRow | scripts/fetch-data.js:143-146 | The inner loop over one row's cells adds each new date column in cell order. |
| Columns.ScoreCandidates | scripts/fetch-data.js:150-151 | Each counted column is scored as `scoreDateColumn` specifies, in first-seen order. |
| Columns.SelectDateColumn | scripts/fetch-data.js:148-158 | The `forEach` walk computes the specified fallback choice. |
| Columns.PickDateColumn | scripts/fetch-data.js:124-159 | The method returns the specified date column. |
| Columns.DateColumnChoice | scripts/fetch-data.js:124-159 | A chosen date column passes the test. The header column is taken whenever it passes. |
| NumberStats.NumberOf | scripts/fetch-data.js:244-245 | A number row lists an integer in [min, max], held in its first cell. |
| NumberStats.NumberRows | scripts/fetch-data.js:242-245 | The result lists exactly the number rows, in sheet order. Duplicate numbers are kept. |
| NumberStats.FirstQualifying | scripts/fetch-data.js:241-247 | The result is the first sheet with at least max-min+1 number rows. Every earlier sheet is skipped. |
| NumberStats.Extract | scripts/fetch-data.js:240-305 | The result is an error, with the source's message, exactly when no sheet qualifies. |
| NumberStats.ExtractNumberStats | scripts/fetch-data.js:240-305 | The sheet loop with `continue` and `return` computes the specified result. |
| NumberStats.DrawCount | scripts/fetch-data.js:262-263 | The draw count is the integer nearest Σ timesDrawn / numbersPerDraw, with null counted as 0. |
| NumberStats.NotDrawnSince | scripts/fetch-data.js:274-278 | A gap value is taken when present. Otherwise the result is never negative. |
| NumberStats.NumberRowIsListed | scripts/fetch-data.js:231-233 | Every number row's number is found by `rowHasNumber`. So the frequency column, when there is one, is always consulted. |
| NumberStats.RecordsFacts | scripts/fetch-data.js:266-291 | Each record names its number and keeps its times drawn. Its draw id is '' exactly when the draw count is 0, and is drawCount − notDrawnSince otherwise. |
| NumberStats.FrequencyWithoutColumn | scripts/fetch-data.js:271-275 | Without a frequency column, or when `rowHasNumber` does not find the number, the frequency is round(timesDrawn/drawCount·100, 2). It is 0 when either value is 0 or missing. |
| NumberStats.FrequencyFromColumn | scripts/fetch-data.js:271-272 | With a frequency column and a number that `rowHasNumber` finds, the frequency is round(x, 2) of the number x that toNumber reads in the frequency column of the first number row naming the same number. It is 0 when that cell holds no number. |
| NumberStats.SheetStatsRecords | scripts/fetch-data.js:257-291 | There is one record per number row, in sheet order, naming that row's number. |
| NumberStats.Rank | scripts/fetch-data.js:293-301 | The most-drawn list is the first min(5, n) results by frequency. The least-drawn list is the last min(5, n), lowest first. The ranking is a permutation of the records, and no listed record is outranked by an unlisted one. |
| History.FirstDate | scripts/fetch-data.js:325 | The result is the date of the first cell that toDate reads as a date: no earlier cell is one. It is null when no cell is one. |
| History.Within | scripts/fetch-data.js:334 | The kept numbers are exactly those within the range, each as often as in the input. |
| History.WithinConcat | scripts/fetch-data.js:334 | The filter keeps input order: the numbers of a + b in range are those of a, then those of b. |
| History.FirstOutside | scripts/fetch-data.js:338 | The bonus is a number in range that is not a main number, and no earlier number is both. It is null when there is none. |
| History.MainOf | scripts/fetch-data.js:334 | The main numbers are the first mainNumbers of the row's numbers in [1, mainRange], in row order with repeats kept, or all of them when fewer are in range. |
| History.StarsOf | scripts/fetch-data.js:341 | The stars are the first starNumbers of the row's numbers in [1, starRange], in row order, or all of them when fewer are in range. They may overlap the main numbers. |
| History.RowEntryWhen | scripts/fetch-data.js:324-344 | A row gives a draw exactly when it has a date, mainNumbers main numbers in range and, for a game with stars, starNumbers stars in range. |
| History.RowEntryFields | scripts/fetch-data.js:325-344 | The draw holds the text of the row's first date and its main numbers. Without stars it carries the first number in range outside the mains as bonus, or null. With stars it carries the stars. |
| History.ScanFromRows | scripts/fetch-data.js:321-346 | Every scanned draw is the draw of some row of some sheet. |
| History.RowsFromRows | scripts/fetch-data.js:323-345 | Every draw of a sheet comes from one of its rows. |
| History.RowScanned | scripts/fetch-data.js:323-345 | Every row that gives a draw has its draw pushed. |
| History.ScanComplete | scripts/fetch-data.js:321-346 | Every draw that a row of any sheet gives is among the scanned draws. |
| History.RowDrawKeyKept | scripts/fetch-data.js:321-348 | The key of every valid draw a row gives survives deduplication. |
| History.ScanRows | scripts/fetch-data.js:323-345 | The row loop pushes the specified draws in row order. |
| History.DedupeHistory | scripts/fetch-data.js:307-319 | The `forEach` loop over `seen` and `unique` computes the specified deduplication. |
| History.DedupeFrom | scripts/fetch-data.js:307-319 | Every kept draw is a valid draw of the input. |
| History.DedupeDistinct | scripts/fetch-data.js:307-319 | No two kept draws share a key. |
| History.DedupeKeys | scripts/fetch-data.js:307-319 | The key of every valid draw of the input is kept. |
| History.DedupeKeepsFirst | scripts/fetch-data.js:307-319 | A valid draw whose key no earlier valid draw has is kept: the first valid draw of each key is the one kept. |
| History.InvalidDrawKeepsKeyFree | scripts/fetch-data.js:312-315 | A draw dropped as invalid leaves its key free for a later valid draw with the same key. |
| History.ExtractDrawHistory | scripts/fetch-data.js:321-351 | Scanning, deduplicating, sorting and slicing compute the specified history. |
| History.DrawHistoryOrdered | scripts/fetch-data.js:348-350 | The history has at most 20 draws, newest first, and no two share a key. |
| History.DrawHistoryLength | scripts/fetch-data.js:348-350 | The history holds min(20, n) draws, n being the number of deduplicated draws. |
| History.DrawHistoryNewest | scripts/fetch-data.js:348-350 | A deduplicated draw is left out only when the history holds 20 draws, none older than it. |
| History.DrawHistoryFromRows | scripts/fetch-data.js:321-351 | Every draw in the history is valid and comes from a row of the sheets. |
| Sorting.SortDesc | app.js:261-262 | The sorted copy is a permutation of the input with non-increasing keys. |
| Sorting.SortStable | app.js:261-262 | The sort is stable: the elements of each key come out in input order. |
| Sorting.InsertDesc | app.js:261-262 | Inserting into a non-increasing list keeps it non-increasing and adds exactly that element. |
| Sorting.InsertStable | app.js:261-262 | Among the elements of any key, the inserted one comes first and the others keep their order. |
| Sorting.SortAsc | app.js:541 | The numeric sort of the wheel selection is an ascending permutation of it. |
| Sorting.TopCount | app.js:261-263 | The first count of the sorted copy are min(count, n) input records, in order. No record left out has a larger key. |
| Sorting.TakenOrOutranked | app.js:261-263 | A record is left out only when count records with keys at least as large were taken. |
| Sorting.SortKeepsDistinct | app.js:261-262 | Sorting keeps distinct values distinct. |
| Strategies.ParseIntOfString | app.js:264 | parseInt reads back the number that `String(num)` wrote as a record's result. |
| Strategies.ColdFacts | app.js:260-270 | The result is min(count, n) records of the input, longest not-drawn first. No record left out has a longer gap than a picked one. Each pick reads its record. |
| Strategies.HotFacts | app.js:275-285 | The result is min(count, n) records of the input, most frequent first. No record left out is more frequent than a picked one. Each pick reads its record. |
| Strategies.TopDistinct | app.js:260-285 | The top records of records with distinct numbers have distinct numbers. |
| Strategies.Half | app.js:291 | ceil(count/2): twice it is count or count + 1. |
| Strategies.Without | app.js:296 | The remaining records are exactly the input records whose parsed number is not a cold pick's. NaN is filtered like any number. |
| Strategies.HotAvoidsCold | app.js:290-297 | No hot pick has the number of a cold pick. |
| Strategies.HalvesLength | app.js:290-296 | The cold half has ceil(count/2) picks, or one per record when there are fewer, and the two halves together have at most count picks. |
| Strategies.RelabelSplit | app.js:298-303 | Relabelling a run of picks followed by a run that avoids its numbers gives the first run the Cold reason and the second the Hot reason. |
| Strategies.BalancedLabels | app.js:290-305 | The result is exactly the cold half labelled Cold followed by the hot half labelled Hot. |
| Strategies.RelabelNoOverlap | app.js:292-303 | After relabelling, no pick of the first run shares a number with a pick of the second. |
| Strategies.BalancedNoOverlap | app.js:290-305 | No number is both a cold and a hot suggestion. |
| Strategies.ColdHalfDistinct | app.js:290-291 | When the records name distinct numbers, the cold half has distinct numbers. |
| Strategies.HotHalfDistinct | app.js:295-296 | The hot half, chosen among the records the cold half left, has distinct numbers too. |
| Strategies.RelabelDistinct | app.js:298-303 | Two runs with distinct numbers, the second avoiding the first's numbers, relabel into one run with distinct numbers. |
| Strategies.BalancedDistinct | app.js:290-305 | When the records name distinct numbers, no number is suggested twice. |
| Strategies.Behind | app.js:314-323 | The filtered picks are exactly the records with a positive deficit. |
| Strategies.BehindConcat | app.js:314-323 | The filter keeps record order: the picks of a + b are those of a, then those of b. |
| Strategies.DueFacts | app.js:310-329 | The result has at most count picks. Each is a record with deficit expected − timesDrawn > 0, and they are ordered by deficit, largest first. |
| Strategies.DueComplete | app.js:310-329 | A record that is behind is left out only when count picks with deficits at least as large were made. |
| Combinatorics.BinomAbove | app.js:578 | There is no way to choose more than n. |
| Combinatorics.BinomAll | app.js:579 | There is exactly one way to choose all n. |
| Combinatorics.BinomStep | app.js:581-582 | Each step of the running product `result * (n - i) / (i + 1)` is the next binomial coefficient. |
| Combinatorics.ProductStep | app.js:581-582 | On exact numbers the product after step i is C(n, i + 1). |
| Combinatorics.Combinations | app.js:577-585 | The accumulator loop returns the binomial coefficient C(n, k): 0 when k > n, 1 when k is 0 or n. |
| Combinatorics.LottoTickets | app.js:590-596 | A 6-of-45 game without stars has 8,145,060 tickets. |
| Combinatorics.EuroMillionsTickets | app.js:590-596 | A 5-of-50 game with 2-of-12 stars has 139,838,160 tickets. |
| Combinatorics.ChooseCount | app.js:540-557 | There are C(n, k) k-subsets. |
| Combinatorics.ChooseShape | app.js:540-557 | Each is a strictly ascending list of k numbers of the input. |
| Combinatorics.ChooseLexOrder | app.js:540-557 | They come in strictly increasing lexicographic order. |
| Combinatorics.ChooseComplete | app.js:540-557 | Every strictly ascending choice of k input numbers is among them. |
| Combinatorics.Combine | app.js:545-555 | The recursion with its loop appends the specified combinations. |
| Combinatorics.CombosChoose | app.js:545-555 | `combine(start, combo)` appends combo followed by each (k − \|combo\|)-subset of the numbers from start on. |
| Combinatorics.WheelIsChoose | app.js:541-557 | The wheel is the k-subsets of the sorted selection. |
| Combinatorics.CombineAll | app.js:545-557 | `combine(0, [])` emits exactly the k-subsets of the numbers, in order. |
| Combinatorics.SortedSelection | app.js:541 | A selection without repeats sorts into a strictly ascending list of the same numbers. |
| Combinatorics.WheelCombosFacts | app.js:540-557 | For a Set selection, the wheel emits exactly its k-subsets, each once, strictly ascending, in lexicographic order, C(n, k) of them. |
| Combinatorics.GenerateWheelBoards | app.js:540-557 | Sorting the selection and running `combine(0, [])` gives the wheel. |
| Combinatorics.WheelBranchFacts | app.js:628-644 | The result is null exactly when fewer than mainNumbers numbers are selected. Otherwise it is the first min(100, C(n, mainNumbers)) wheel boards, each a strictly ascending choice of selected numbers. |
| AppData.GameOfKey | app.js:18-37 | GAME_CONFIG gives a game for its own key and for no other. |
| AppData.ConfigOf | app.js:18-37 | Only EuroMillions has stars. |
| AppData.FirstMatch | app.js:226-228 | `find` gives the first block that matches, or none. |
| AppData.FetchedResults | scripts/fetch-data.js:396-416 | The file holds one block for a game without stars and two for a game with stars. |
| AppData.BlockFacts | app.js:226-231 | A block is found exactly when one of the kind exists. It is the first one for the period when there is one, and otherwise the first of the kind. |
| AppData.ParseStatisticsFacts | app.js:222-255 | The result is an error exactly without a main block. Otherwise everything comes from one main block with the lists cut to five, and there are star statistics exactly for a star game whose file has a star block. |
| AppData.OfficialPeriodNeverMatches | scripts/fetch-data.js:356 | The period the fetch script writes never contains the app's filter for either game. |
| AppData.OnlyBlock | app.js:226-231 | The only block of its kind is the one found. |
| AppData.FetchedRoundTrip | scripts/fetch-data.js:353-363 | Reading back the blocks `buildDrawnResults` writes gives the main statistics, the draw count and the first five of each list. It gives the star statistics exactly for a game with stars. |
| Settings.StrategyOfKey | app.js:652-695 | STRATEGY_INFO gives a strategy for its own key and for no other. |
| Settings.ModeOfKey | app.js:91-93 | Only 'smart', 'coverage' and 'wheel' give a mode, and each gives its own. |
| Settings.StoredCount | app.js:89-90 | A stored count is taken only when parseInt reads 2, 3, 5 or 10 from it. |
| Settings.Integers | app.js:94-95 | The stored entries that are integers are kept, and only those. |
| Settings.Unique | app.js:95 | The Set holds exactly the listed numbers, each once. |
| Settings.InRange | app.js:100-103 | The wheel keeps exactly the numbers in [1, mainRange], without repeats. |
| Settings.LoadedConsistent | app.js:77-106 | Loading keeps the count an offered one, and keeps the wheel a Set on the grid of the game now chosen. |
| Settings.LoadedFacts | app.js:77-106 | Nothing changes without readable settings. Otherwise each choice is the stored one when valid and the current one when not. A number is on the wheel exactly when it is on the grid and stored as an integer (or already selected, if no array is stored). |
| Settings.IntegersOfEntries | app.js:94-95 | The wheel array that `saveSettings` writes reads back as the same numbers. |
| Settings.UniqueOfDistinct | app.js:95 | A Set built from numbers without repeats keeps them in order. |
| Settings.InRangeKeepsAll | app.js:100-101 | The range filter keeps a wheel whose numbers are all on the grid. |
| Settings.LoadSaved | app.js:60-106 | Loading what `saveSettings` wrote restores consistent settings exactly. |
| Settings.Remove | app.js:1017 | `Set.delete` keeps exactly the other numbers, keeps a Set a Set, and shrinks a Set holding the number by one. |
| Settings.RemoveConcat | app.js:1017 | `Set.delete` keeps the order of the other numbers: deleting from a + b deletes from a and from b. |
| Settings.ToggledFacts | app.js:1015-1022 | The selection stays a Set. The number ends up selected exactly when it was not selected and fewer than 15 were. Every other number is untouched, and a selection of at most 15 stays at most 15. |
| Settings.ToggledConsistent | app.js:1001-1022 | A click on a number of the current game's grid keeps the settings consistent: the selection stays a Set of grid numbers. |
| Settings.ToggleTwice | app.js:1015-1022 | Two clicks on the same number restore a selection of at most 15. When the number was absent, they restore the very same list. |
| Settings.RemoveLast | app.js:1017-1020 | Deleting a number just added restores the selection. |
| Settings.AppState.constructor | app.js:40-56 | The app starts on Lotto, cold, 5 boards, smart mode, no wheel numbers. |
| Settings.AppState.LoadSettings | app.js:77-106 | The step-by-step loader leaves exactly the loaded settings and keeps the boards. |
| Settings.AppState.ToggleWheelNumber | app.js:1015-1022 | The selection becomes the toggled one, and nothing else changes. |
| Settings.AppState.GenerateWheelBoards | app.js:628-648 | The boards are the wheel branch's result. They become the generated boards only when not null, and the settings do not change. |

## Left out

- Network and file I/O are not modelled: fetching the statistics page and workbook, reading the workbook, writing the JSON files, and `getGameData`'s plumbing. The sheets are an input, and the `drawnResults` list that `getGameData` assembles is `AppData.FetchedResults`.
- `new Date(text)` and the workbook library's serial-date reader are oracles. Only the D/M/Y fallback is modelled concretely. Invalid `Date` values coming from the oracles are not modelled.
- Floating point is modelled with exact reals. This covers `Math.round`, `round`, `parseFloat` and the running product in `combinations`. Infinity and NaN are modelled as null or absent where the source tests for them.
- Cells.Round: `round` of a non-finite value returns 0 in the source. Cells hold finite numbers only, so that branch does not arise.
- Strategies.ParseInt: the `0x` hexadecimal prefix of `parseInt` is not modelled. Record results are decimal texts.
- Strategies.Due: requires totalNumbers > 0. A zero divisor would give Infinity in JavaScript.
- The reason texts of the strategies (`toFixed` formatting) are not modelled. A pick carries which kind of reason it has.
- `getSmartNumbers`, `getRandomNumbers`, `generateSmartBoards` and `generateCoverageBoards` are not modelled, and neither are the random star shuffle of `generateWheelBoards`, because they depend on `Math.random`. Wheel boards carry their main numbers only.
- `combine` shares one `combo` array through push and pop. The model passes each prefix as a value, so aliasing of that array is not captured.
- The page's rendering, the modal dialogs, clipboard, `alert`, formatting, the service worker and the icon generator are not modelled. The `localStorage` calls are not modelled either: stored settings are an input (`Settings.Stored`).
- Settings.LoadSettings has these limits:
  - GAME_CONFIG and STRATEGY_INFO lookups in JavaScript also accept inherited property names such as `toString`. The model accepts only the real keys.
  - A stored game, strategy or mode that is not a string is treated as absent. JavaScript would also accept a one-element array holding a valid game or strategy key, because the GAME_CONFIG and STRATEGY_INFO lookups turn it into its text. A mode must be the string itself, as modelled, because `includes` compares without conversion.
  - Number entries that are not integers are modelled as an abstract `NotInteger` entry.
- The sort key of the draw history is the host's `new Date(text)` as an oracle. Comparisons of invalid dates (NaN) are not modelled.
- NumberStats.Normalize: `lastWinningDrawId` is kept as the number drawCount − notDrawnSince, with null for the `''` of a zero draw count. Its text `String(drawCount - notDrawnSince)` is not modelled, because JavaScript's number-to-text conversion of non-integers is not modelled.
- Columns.SelectDate: among candidates with equal scores the first is not always kept, because the comparison is not transitive. The model keeps this behaviour and states the choice as the last replacement (`SelectDateLast`).
- Support.Lower: header lower-casing covers ASCII and the Latin-1 capitals only. JavaScript's `toLowerCase` also lowers other scripts, and maps U+0130 (İ) to "i" followed by a combining dot, so such a header may hold a keyword in JavaScript but not in the model.
- Columns.PickDateColumn: the single `counts.forEach` pass that scores each column and keeps the best runs as two loops in the model, `ScoreCandidates` and then `SelectDateColumn`. The scores depend only on the rows, so the choice is the same. Only the order in which work is done differs.
