# Index value service: a Dafny model

This project models `IndexValService`, the service of the index-tracking back end that works on
index values: one row per market index per trading day, with closing and other prices. The model
covers these operations:

- **Partial update** (`update`): every non-null field of a request overwrites the matching field of a stored row. Null fields leave the row as it was.
- **Query choice of the cursor page** (`findIndexData`): sets the default dates, then decides which repository query runs and with which arguments.
- **Export helpers**: the sort built by `getSort`, and `parseDateOrDefault`.
- **Lookback start** (`calculateStartDate`): today minus 1 day, 1 week, 1 month, 3 months or 1 year, by period keyword.
- **Favourite performance** (`getInterestIndexPerformance`): each favourite index is measured from its earliest to its latest row in the window.
- **Performance ranking** (`getIndexPerformanceRank`): each index is measured from its first row after the lookback start to its last row before today. The entries are stably sorted by descending rate and ranked from 1, then filtered to one index or cut to a limit.
- **Charts** (`getIndexChart`, `getIndexCharts`): closing prices in date order with 5- and 20-point moving averages (`calculateMovingAverage`).

Modules, one per file:

| module | content |
|---|---|
| `Results` | `Option` for nullable values and `Result` for the exceptions the service throws. |
| `Decimals` | `BigDecimal` as digits and a scale. Add, subtract and multiply are exact. `divide(…, s, HALF_UP)`, `setScale` and `compareTo` are modelled, with HALF_UP given by a reference predicate. |
| `Dates` | `LocalDate` on the proleptic ISO calendar, with `minusDays/Weeks/Months/Years` (clamping the day of month), a day count as reference order, and `calculateStartDate`. |
| `Records` | The entities, the patch of `update`, and the entity as a class with setters. |
| `Store` | The repository queries whose meaning their Spring Data method names fix, as filters over a sequence of rows. |
| `Paging` | `getSort`, `parseDateOrDefault`, and the query choice of `findIndexData`. |
| `Performance` | The two `createIndexPerformanceDto` overloads and their rates. |
| `InterestPerformance` | `getInterestIndexPerformance`. |
| `Ranking` | `getIndexPerformanceRank`. |
| `Charts` | `calculateMovingAverage`, `getIndexChart` and `getIndexCharts`. |

Methods that loop or mutate in the source are methods here. Each is proved equal to a reference
function of its inputs, and lemmas state what the source promises about that function. The
outside inputs become parameters:

- `LocalDate.now()` is `today`.
- The repositories are `indexes: seq<Index>` (in `findAll` order), `store: seq<IndexValue>` and, for `update`, a map from ids to entity objects.
- `LocalDate.parse`, `new BigDecimal(String)` and `BigDecimal.valueOf(double)` are function parameters. A parser returns `None` where the library throws.

Where the code and its description differ, the model follows the code:

- **Favourite performance with one row.** A favourite index with a single row in the window gets an entry with the same start and end row, so versus is 0 and the rate is 0. It is not left out. See `InterestPerformance.SingleRowNoChange`.
- **`parseDateOrDefault` on unparsable text.** Its doc comment says unparsable text falls back to the default. The code lets the `LocalDate.parse` exception through, and the model returns `Err(MalformedDate)`.

One behaviour of the code, kept as it is:

- **DAILY ranking runs backwards.** The lookback start for DAILY is yesterday, and the ranking takes the first row strictly after it as the start row and the last row strictly before today as the end row. The start row is therefore dated today or later and the end row earlier, so each daily rate is the change from today's price back to an earlier one, and an index without a row dated today (or later) is skipped. The model keeps this behaviour; see `Ranking.DailyBackwards`.

## Model

Source paths are relative to the repository root.

| member | source | states |
|---|---|---|
| Decimals.RoundHalfUp | src/main/java/com/sprint/findex_team6/service/IndexValService.java:250 | The integer rounding satisfies the HALF_UP reference predicate (nearest integer, halves away from zero) for a divisor of either sign. |
| Decimals.HalfUpUnique | src/main/java/com/sprint/findex_team6/service/IndexValService.java:250 | HALF_UP rounding has exactly one result. |
| Decimals.HalfUpCross | src/main/java/com/sprint/findex_team6/service/IndexValService.java:250 | HALF_UP of n/d depends only on the fraction: equal cross products give the same rounding. |
| Decimals.Divide | src/main/java/com/sprint/findex_team6/service/IndexValService.java:250 | `divide(b, s, HALF_UP)` fails with an ArithmeticException exactly when the divisor is zero, and otherwise has scale s. |
| Decimals.DivideAt | src/main/java/com/sprint/findex_team6/service/IndexValService.java:250 | The quotient's digits are a/b × 10^s rounded HALF_UP, stated at any common scale of a and b. |
| Decimals.SetScale | src/main/java/com/sprint/findex_team6/service/IndexValService.java:308 | `setScale(s, HALF_UP)` has scale s. Widening keeps the value (compareTo 0). Narrowing rounds the digits HALF_UP by 10^(old−s). |
| Decimals.AddExact | src/main/java/com/sprint/findex_team6/service/IndexValService.java:386 | `add` is exact: at any common scale the sum's digits are the sum of the digits. |
| Decimals.SubtractExact | src/main/java/com/sprint/findex_team6/service/IndexValService.java:249 | `subtract` is exact in the same sense. |
| Decimals.CompareAt | src/main/java/com/sprint/findex_team6/service/IndexValService.java:287 | `compareTo` is the sign of the difference, at any common scale, whatever the scales. |
| Decimals.CompareOrder | src/main/java/com/sprint/findex_team6/service/IndexValService.java:287 | `compareTo` is a total preorder: antisymmetric in sign, reflexive and transitive, including the strict and the equal cases. |
| Dates.LengthOfMonth | src/main/java/com/sprint/findex_team6/service/IndexValService.java:233-235 | Every month has 28 to 31 days. |
| Dates.PrevDay | src/main/java/com/sprint/findex_team6/service/IndexValService.java:231 | The previous day is a valid date before the given one. |
| Dates.OrdinalPrevDay | src/main/java/com/sprint/findex_team6/service/IndexValService.java:231 | `minusDays(1)` moves back exactly one day in the day count, across month and year ends. |
| Dates.MinusMonths | src/main/java/com/sprint/findex_team6/service/IndexValService.java:233-234 | `minusMonths(n)` lands n months earlier. It keeps the day of month when that month has it, and otherwise moves to the month's last day. |
| Dates.MinusYears | src/main/java/com/sprint/findex_team6/service/IndexValService.java:235 | `minusYears(n)` lands 12n months earlier, with the same day rule: the day is kept when the month has it, otherwise the month's last day (29 February becomes 28 February). |
| Dates.BeforeIsFewerDays | src/main/java/com/sprint/findex_team6/service/IndexValService.java:200-201 | `isBefore` (lexicographic on year, month, day) holds exactly when the day count is smaller. |
| Dates.OrdinalMinusDays | src/main/java/com/sprint/findex_team6/service/IndexValService.java:231-232 | `minusDays(n)` (and so `minusWeeks`) moves exactly n days back in the day count. |
| Dates.NextYearStart | src/main/java/com/sprint/findex_team6/service/IndexValService.java:235 | The day count of 1 January of the next year is that of this year plus the year's length (leap years by the Gregorian rule). |
| Dates.MonthsMakeYear | src/main/java/com/sprint/findex_team6/service/IndexValService.java:235 | The twelve months of a year add up to the year's length. |
| Dates.YearLength | src/main/java/com/sprint/findex_team6/service/IndexValService.java:235 | A year has as many days as its twelve months together, 365 or 366. |
| Dates.ParsePeriodExact | src/main/java/com/sprint/findex_team6/service/IndexValService.java:230-236 | A period keyword is recognised exactly when it equals one of the five names, case-sensitively. |
| Dates.CalculateStartDate | src/main/java/com/sprint/findex_team6/service/IndexValService.java:228-237 | Any other text fails with IllegalStateException. |
| Dates.LookbackBeforeToday | src/main/java/com/sprint/findex_team6/service/IndexValService.java:228-237 | Every lookback start is strictly before today. DAILY is exactly 1 day back and WEEKLY exactly 7 days back. |
| Dates.MonthBackAtLeast28Days | src/main/java/com/sprint/findex_team6/service/IndexValService.java:233 | One month back is at least 28 days back. |
| Dates.LookbackWindowsNested | src/main/java/com/sprint/findex_team6/service/IndexValService.java:230-236 | The windows grow strictly from DAILY through WEEKLY, MONTHLY and QUARTERLY to YEARLY. |
| Records.Patch | src/main/java/com/sprint/findex_team6/service/IndexValService.java:62-88 | Each of the nine fields takes the request's value when it is non-null (the two doubles through `BigDecimal.valueOf`). Otherwise it keeps the row's value. Id, index, date and source type never change. |
| Records.PatchNothing | src/main/java/com/sprint/findex_team6/service/IndexValService.java:62-88 | An all-null request changes nothing. |
| Records.PatchIdempotent | src/main/java/com/sprint/findex_team6/service/IndexValService.java:62-88 | Applying the same request twice is the same as applying it once. |
| Records.PatchCompose | src/main/java/com/sprint/findex_team6/service/IndexValService.java:62-88 | Two updates in a row equal one update with the later request's non-null fields over the earlier's. |
| Records.IndexVal.constructor | src/main/java/com/sprint/findex_team6/service/IndexValService.java:59-60 | An entity object holds the given row. |
| Records.IndexVal.ApplyUpdate | src/main/java/com/sprint/findex_team6/service/IndexValService.java:62-88 | The setters leave the entity holding the patched row. |
| Records.IndexVal.ApplyPriceUpdates | src/main/java/com/sprint/findex_team6/service/IndexValService.java:62-79 | The six price setters apply the price part of the patch. |
| Records.IndexVal.ApplyTradingUpdates | src/main/java/com/sprint/findex_team6/service/IndexValService.java:80-88 | The quantity and the two converted amounts apply the trading part of the patch. |
| Records.Update | src/main/java/com/sprint/findex_team6/service/IndexValService.java:58-90 | An unknown id fails with NotFoundException. Otherwise the entity is patched in place and returned, and no other entity changes. |
| Store.FilterUnique | src/main/java/com/sprint/findex_team6/service/IndexValService.java:190-191 | Selecting rows from a table with unique (index, date) keys keeps the keys unique. |
| Store.FindIndex | src/main/java/com/sprint/findex_team6/service/IndexValService.java:326-327 | `findById` finds an index with that id exactly when there is one. |
| Store.FindByIndexIdsInRange | src/main/java/com/sprint/findex_team6/service/IndexValService.java:190-191 | The fetched rows are exactly the stored rows of the listed indexes dated within [start, end], both ends included. |
| Store.FindByIndexIdsInRangeUnique | src/main/java/com/sprint/findex_team6/service/IndexValService.java:190-191 | The rows fetched from a table with unique (index, date) keys have unique keys. |
| Store.EarliestRow | src/main/java/com/sprint/findex_team6/service/IndexValService.java:200-203 | None exactly when the index has no row. Otherwise a row of that index with no earlier-dated row of it. |
| Store.LatestRow | src/main/java/com/sprint/findex_team6/service/IndexValService.java:205-208 | None exactly when the index has no row. Otherwise a row of that index with no later-dated row of it. |
| Store.FindFirstAfter | src/main/java/com/sprint/findex_team6/service/IndexValService.java:274-275 | The earliest row of the index dated strictly after the date. Empty exactly when there is none. |
| Store.FindLastBefore | src/main/java/com/sprint/findex_team6/service/IndexValService.java:276-277 | The latest row of the index dated strictly before the date. Empty exactly when there is none. |
| Store.InsertByDate | src/main/java/com/sprint/findex_team6/service/IndexValService.java:329-330 | Insertion adds exactly the new row: the result is the input plus that row, as a multiset. |
| Store.InsertAscending | src/main/java/com/sprint/findex_team6/service/IndexValService.java:329-330 | Inserting into a list ascending by date keeps it ascending. |
| Store.SortByDate | src/main/java/com/sprint/findex_team6/service/IndexValService.java:329-330 | The `OrderByBaseDateAsc` ordering is ascending by date and a permutation of its input. |
| Store.FindInRangeAscending | src/main/java/com/sprint/findex_team6/service/IndexValService.java:329-330 | Exactly the index's rows within [start, end], ascending by date, each as many times as it is stored (the same multiset as the matching rows). |
| Store.FindInRangeCount | src/main/java/com/sprint/findex_team6/service/IndexValService.java:329-330 | Counted row by row: a row of the index within [start, end] occurs as often as in the table, any other row not at all. |
| Paging.SelectQuery | src/main/java/com/sprint/findex_team6/service/IndexValService.java:127-170 | No index id gives the unfiltered `findAll`, whatever else is set. Otherwise: a missing sort order fails; dates default to 1900-01-01 and today; no cursor gives the range query; a cursor picks the closing-price or base-date query by property (only the exact text `closingPrice` picks the price queries), and the descending variant exactly for DESC. The cursor is parsed as a decimal or a date, and an unparsable cursor fails. |
| Paging.SelectQueryTotal | src/main/java/com/sprint/findex_team6/service/IndexValService.java:127-170 | With an index id, a sort order and a cursor that parses as the chosen query's type, a query is always issued. |
| Paging.GetSort | src/main/java/com/sprint/findex_team6/service/IndexValService.java:96-103 | A null or blank field (Java's whitespace) becomes `baseDate`; any other field is kept. ASC exactly for `asc` ignoring case, DESC otherwise, including null. |
| Paging.ParseDateOrDefault | src/main/java/com/sprint/findex_team6/service/IndexValService.java:447-452 | Null or empty text gives the default. Other text gives the parsed date, or fails when it does not parse. |
| Performance.PercentChange | src/main/java/com/sprint/findex_team6/service/IndexValService.java:249-250 | Fails with ArithmeticException exactly when the start price is zero. Otherwise a scale-4 percentage whose last two digits are zero. |
| Performance.RankingPercentChange | src/main/java/com/sprint/findex_team6/service/IndexValService.java:307-308 | Same failure condition; otherwise scale 2. |
| Performance.PercentChangeMeaning | src/main/java/com/sprint/findex_team6/service/IndexValService.java:249-250 | The rate over 100 is (end − start)/start rounded HALF_UP to 4 decimals, at the prices' common scale. |
| Performance.SecondRoundingExact | src/main/java/com/sprint/findex_team6/service/IndexValService.java:308 | The ranking path's `setScale(2, HALF_UP)` never changes the value of the rate. |
| Performance.EqualPricesNoChange | src/main/java/com/sprint/findex_team6/service/IndexValService.java:249-250 | Equal start and end prices give versus 0 and rate 0 on both paths. |
| Performance.FavoritePerformance | src/main/java/com/sprint/findex_team6/service/IndexValService.java:241-263 | No entry unless both rows exist. Otherwise it fails exactly on a zero start price, or carries the index's identity, versus = end − start, the rate, and the prices in the order (end, start). |
| Performance.RankedPerformanceOf | src/main/java/com/sprint/findex_team6/service/IndexValService.java:303-319 | Fails exactly on a zero start price. Otherwise identity, versus = end − start, the two-decimal rate, and the prices in the order (start, end). |
| Performance.OverloadsAgree | src/main/java/com/sprint/findex_team6/service/IndexValService.java:241-263 | For the same rows the two overloads agree on identity, versus and the rate's value, and list the prices in opposite orders. |
| InterestPerformance.EarliestAndLatestDates | src/main/java/com/sprint/findex_team6/service/IndexValService.java:193-209 | The loop's two maps hold, for exactly the indexes with rows, the dates of their earliest and latest rows. |
| InterestPerformance.EarliestStep | src/main/java/com/sprint/findex_team6/service/IndexValService.java:200-203 | One more row updates `earliestDateByIndex` so that it still holds the earliest date of each index seen so far. |
| InterestPerformance.LatestStep | src/main/java/com/sprint/findex_team6/service/IndexValService.java:205-208 | One more row updates `latestDateByIndex` so that it still holds the latest date of each index seen so far. |
| InterestPerformance.RowsOnDates | src/main/java/com/sprint/findex_team6/service/IndexValService.java:211-219 | The `toMap` holds an index exactly when it has a row on its recorded date, and maps it to such a row. |
| InterestPerformance.StartDataIsEarliest | src/main/java/com/sprint/findex_team6/service/IndexValService.java:211-214 | With unique keys, `startDataMap` maps each index to its earliest row, and to nothing when it has none. |
| InterestPerformance.EndDataIsLatest | src/main/java/com/sprint/findex_team6/service/IndexValService.java:216-219 | With unique keys, `endDataMap` maps each index to its latest row. |
| InterestPerformance.FavoriteEntriesAgree | src/main/java/com/sprint/findex_team6/service/IndexValService.java:221-224 | The entries depend only on the favourites' start and end rows. |
| InterestPerformance.InterestIndexPerformance | src/main/java/com/sprint/findex_team6/service/IndexValService.java:180-225 | The method equals the reference: the favourites in order, each from its earliest to its latest row within [lookback start, today]. |
| InterestPerformance.FavoriteEntriesShape | src/main/java/com/sprint/findex_team6/service/IndexValService.java:221-224 | One entry per favourite with both rows, in favourites order, carrying the index's id, classification and name, the prices (end price first), versus = end − start, and the favourite path's rate of start and end price. |
| InterestPerformance.FavoriteEntriesFail | src/main/java/com/sprint/findex_team6/service/IndexValService.java:221-224 | The request fails, with ArithmeticException, exactly when some favourite with both rows starts at price zero. |
| InterestPerformance.InterestPerformanceEntries | src/main/java/com/sprint/findex_team6/service/IndexValService.java:180-225 | A successful result has one entry per favourite with a fetched row, in favourites order. Each entry carries the favourite's id, classification and name; its start price comes from the earliest row and its end price from the latest; versus is their difference and the rate is HALF_UP((end − start)/start, 4) × 100. A favourite without rows gives no entry. |
| InterestPerformance.SingleRowNoChange | src/main/java/com/sprint/findex_team6/service/IndexValService.java:241-263 | A favourite with a single fetched row is included with versus 0 and rate 0. |
| Ranking.CandidatesFailFast | src/main/java/com/sprint/findex_team6/service/IndexValService.java:273-285 | Once measuring one index fails, the whole loop has failed with that error. |
| Ranking.CandidatesShape | src/main/java/com/sprint/findex_team6/service/IndexValService.java:273-285 | The measured list holds exactly the indexes with both boundary rows, in `findAll` order. Each is measured from its first row after the lookback start to its last row before today. |
| Ranking.CandidatesShapeStep | src/main/java/com/sprint/findex_team6/service/IndexValService.java:273-285 | One more pass of the loop keeps the measured list matched, entry for entry, to the indexes so far that have both boundary rows. |
| Ranking.CandidatesFail | src/main/java/com/sprint/findex_team6/service/IndexValService.java:273-285 | The loop fails exactly when some index has both boundary rows and its first row after the lookback start has closing price zero. |
| Ranking.CandidatesFailStep | src/main/java/com/sprint/findex_team6/service/IndexValService.java:273-285 | After one more index the loop has failed exactly when it had failed before or that index starts at price zero. |
| Ranking.DailyBackwards | src/main/java/com/sprint/findex_team6/service/IndexValService.java:266-279 | With DAILY, an index's start row (first after yesterday) is dated today or later and its end row before today, so the end row is dated before the start row; an index has a start row exactly when it has a row dated today or later. |
| Ranking.InsertByRate | src/main/java/com/sprint/findex_team6/service/IndexValService.java:287 | Insertion adds exactly the new entry: the result is the input plus that entry, as a multiset. |
| Ranking.InsertDescending | src/main/java/com/sprint/findex_team6/service/IndexValService.java:287 | Inserting into a list in descending rate order (by `compareTo`) keeps it descending. |
| Ranking.SortByRate | src/main/java/com/sprint/findex_team6/service/IndexValService.java:287 | The sort yields descending rates (by `compareTo`) and a permutation of its input. |
| Ranking.SortStable | src/main/java/com/sprint/findex_team6/service/IndexValService.java:287 | The sort is stable: the entries of any one rate keep their input order. |
| Ranking.InsertStable | src/main/java/com/sprint/findex_team6/service/IndexValService.java:287 | Insertion puts the new entry ahead of every entry of equal rate. |
| Ranking.Numbered | src/main/java/com/sprint/findex_team6/service/IndexValService.java:288-292 | Entry k of the sorted list gets rank k + 1 and keeps its performance. |
| Ranking.AssignRanks | src/main/java/com/sprint/findex_team6/service/IndexValService.java:288-292 | The counter loop numbers the sorted list from 1: entry k gets rank k + 1. |
| Ranking.SelectRanked | src/main/java/com/sprint/findex_team6/service/IndexValService.java:294-300 | With an id: exactly that id's entries, in order. Without one: a prefix of length min(limit, K), failing exactly when the limit is negative. |
| Ranking.MeasureIndexes | src/main/java/com/sprint/findex_team6/service/IndexValService.java:269-285 | The loop computes the reference candidate list, including its failure. |
| Ranking.IndexPerformanceRank | src/main/java/com/sprint/findex_team6/service/IndexValService.java:266-301 | The method equals the reference: measure, stable-sort descending, rank from 1, then select. |
| Ranking.RankingTop | src/main/java/com/sprint/findex_team6/service/IndexValService.java:287-300 | Without an id: min(limit, K) entries (K measured indexes, the limit non-negative), ranked 1, 2, … in non-increasing rate, each one of the measured entries. They are the head of the full stable ranking, and no measured index left out rates above a selected one. |
| Ranking.RankingOfIndex | src/main/java/com/sprint/findex_team6/service/IndexValService.java:294-297 | With an id, the limit plays no part. The result is exactly that index's entries of the full ranking, each keeping its rank there. |
| Charts.TotalExact | src/main/java/com/sprint/findex_team6/service/IndexValService.java:384-387 | The window sum is exact at any scale covering the values. |
| Charts.AddToTotal | src/main/java/com/sprint/findex_team6/service/IndexValService.java:386 | Adding one more value from the window, starting from ZERO in any order, gives the exact total of the values added so far. |
| Charts.Mean | src/main/java/com/sprint/findex_team6/service/IndexValService.java:388 | The average of a window has scale 4. |
| Charts.MeanMeaning | src/main/java/com/sprint/findex_team6/service/IndexValService.java:384-388 | An average is the window's sum over its count, rounded HALF_UP to 4 decimals. |
| Charts.ConstantMeanDigits | src/main/java/com/sprint/findex_team6/service/IndexValService.java:384-388 | Rounding n copies of a value with at most 4 decimals, divided by n, to 4 decimals gives that value's digits exactly. |
| Charts.MeanOfConstant | src/main/java/com/sprint/findex_team6/service/IndexValService.java:384-388 | The average of equal values with at most 4 decimals is that value. |
| Charts.MovingAverages | src/main/java/com/sprint/findex_team6/service/IndexValService.java:381-392 | There are max(0, n − p + 1) averages. Average k carries the date of point k + p − 1 and the mean of points k..k + p − 1. |
| Charts.WindowStep | src/main/java/com/sprint/findex_team6/service/IndexValService.java:384-387 | Adding the window's first value to the total of the rest gives the total of the window. |
| Charts.WindowSum | src/main/java/com/sprint/findex_team6/service/IndexValService.java:384-387 | The inner loop's sum is the exact total of the window's values. |
| Charts.MovingAverage | src/main/java/com/sprint/findex_team6/service/IndexValService.java:381-392 | The outer loop computes exactly the reference moving averages, with the inner loop as `WindowSum`. Its input is a value and is not changed. |
| Charts.ChartPoints | src/main/java/com/sprint/findex_team6/service/IndexValService.java:332-334 | One point per row, carrying the row's date and closing price. |
| Charts.BuildChart | src/main/java/com/sprint/findex_team6/service/IndexValService.java:329-347 | Builds the chart of a found index. |
| Charts.IndexChartFor | src/main/java/com/sprint/findex_team6/service/IndexValService.java:322-348 | The method equals the reference: the period is checked first, then an unknown index fails with INDEX_NOT_FOUND. |
| Charts.ChartShape | src/main/java/com/sprint/findex_team6/service/IndexValService.java:322-348 | A chart carries the index's id, classification and name and the requested period. Its points are ascending by date, are exactly the (date, closing price) of the index's rows in [lookback start, today], and there are as many as there are such rows. Its ma5 and ma20 are the 5- and 20-point moving averages of those points: max(0, n − 4) and max(0, n − 19) of them. |
| Charts.IndexCharts | src/main/java/com/sprint/findex_team6/service/IndexValService.java:352-379 | The method equals the reference: the period is checked once, then the ids are charted in order, stopping at the first unknown id. |
| Charts.ChartsOfPerId | src/main/java/com/sprint/findex_team6/service/IndexValService.java:357-377 | The loop succeeds exactly when every id is known (failing with INDEX_NOT_FOUND otherwise), giving one chart per id in order. |
| Charts.ChartsPerId | src/main/java/com/sprint/findex_team6/service/IndexValService.java:352-379 | The multi-index result is the single-index chart of each id: it succeeds exactly when the period is valid and every id is known. |
| Charts.ChartsOfFailFast | src/main/java/com/sprint/findex_team6/service/IndexValService.java:357-377 | Once one id is unknown, the later ids change nothing: the loop's error is final. |

## Left out

- CSV export (`exportIndexDataToCsv`): response headers, the writer and the CSV library's quoting are I/O and a library the model cannot see.
- `create` and `delete`: thin wrappers over repository save and delete. The only rule in them, that `create` stamps the source type USER, is not modelled.
- `AutoIntegrationService`: a repository-save wrapper returning HTTP status codes, with no logic of its own.
- Transactions, concurrency and the persistence context are not modelled. The update of an entity object stands for the managed entity that is flushed at commit.
- The custom `@Query` bodies of the four cursor queries and of `findByIndex_IdAndBaseDateBetween` with a pageable are not shown in the source. `Paging.SelectQuery` states which query runs with which arguments, not the rows it returns.
- The mappers (`IndexValMapper`, `CursorPageResponseMapper`) are not part of this model. `Records.Update` returns the patched row in place of its DTO, and `findIndexData` is modelled up to the query it issues.
- `BigDecimal.valueOf(double)`, `new BigDecimal(String)` and `LocalDate.parse` are function parameters. Floating point and the text formats are not modelled.
- Negative `BigDecimal` scales are not modelled: scales are natural numbers, and a value Java would hold at a negative scale (from `BigDecimal.valueOf` of a large double, or from text in exponent form) is held at scale 0 with the same value. Only the scale of such a result, not its value, can differ.
- `LocalDate`'s year range (±999999999) is not modelled: the years are unbounded integers.
- Null entity fields (a null closing price would throw when dereferenced) and a null period type (the `switch` throws on null) are not modelled. All entity fields are values, and the period type is a string.
- `Collectors.toMap` throws on duplicate keys. `InterestPerformance.InterestIndexPerformance` instead requires unique (index, base date) keys, the table's unique key.
- `result.sort` sorts an `ArrayList` in place with TimSort. `Ranking.SortByRate` is a stable insertion sort on a sequence with the same result (descending, stable, a permutation). The in-place update of the list is not modelled.
- Integer widths: `rank` is a Java `int` and the entity ids are `Long`; overflow would need more than 2^31 indexes and is not modelled.
- The five-point and twenty-point windows are the only ones the source uses. `Charts.MovingAverage` requires a window of at least 1; a window of 0 would divide by zero in the source.
