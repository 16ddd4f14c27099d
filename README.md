# Revenue reporting model

This is a Dafny model of the revenue reports of the cohortgenie back end
(`controllers/revenueController.js`). It covers four operations:

- **Period resolution.** `getDateRange` turns an optional month, quarter and
  year into a closed interval of local instants.
- **Range aggregation.** `getTotal` sums `amount` over one transaction
  collection, restricted to that interval.
- **Financial summary.** `getFinancialSummary` gives revenue, refunds, net
  revenue, gross profit and profit margin.
- **Monthly trend.** `getRevenueTrend` builds twelve monthly net-revenue
  points for a year.

The model also covers the year check of the combined report handler
`getFinancialReportHandler`.

The modules follow the data flow:

- `Calendar` (calendar.dfy) models the local calendar arithmetic that
  JavaScript's `Date` performs:
  - Gregorian leap years;
  - month indices outside 0..11 roll into other years;
  - day 0 is the last day of the previous month;
  - a day past the end of its month runs into the next month;
  - the years 0..99 are taken as 1900..1999.

  It also defines instants to the second, their chronological order, and
  `Tick`, the next second.
- `DateRanges` (date_range.dfy) holds the four branches of `getDateRange`
  and the dispatch between them. Its lemmas say:
  - which instants each interval contains;
  - that months and quarters are adjacent (each starts one second after the
    previous one ends), and so are years except across -1/0 and 99/100,
    where `new Date` reads two-digit years as 19yy;
  - that months and quarters tile the year.
- `Aggregation` (aggregation.dfy) holds the `$match`/`$sum` query as a filter
  and a sum over a `seq` of records, with a failed query as `None`. Lemmas
  show that totals are additive and that the year total is the sum of the
  month totals; a quarter's total is likewise the sum of its three months'.
- `Revenue` (revenue.dfy) holds:
  - the summary metrics;
  - the trend, as a method whose loop appends one point per month;
  - the handler, as a method;
  - lemmas that tie the trend to the month and year summaries.

Scope of the controller:

- The match filters on `txnDate` alone, with no tenant.
- The controller computes no retention, churn or lifetime-value metrics.
- It builds no heatmap, weekly or quarterly series, and no period comparison.
- The trend runs four range queries per month (48 per trend).

Inputs that the source takes from outside are parameters:

- The clock reading `now` is used by the fallback window and by
  `lastUpdated`.
- The contents and failure state of the four collections form a `Ledger`.
- For the handler, a parsed query string is a `Query`.

## Model

| member | source | states |
|---|---|---|
| Calendar.MakeDate | controllers/revenueController.js:27-35 | the constructed date is always a valid calendar date with the given time of day; for a day that exists in the normalised month it is exactly that day of that month |
| Calendar.NewDate | controllers/revenueController.js:27-35 | `new Date(y, monthIndex, day, h, m, s)` always yields a valid instant |
| Calendar.NewDateOfExistingDay | controllers/revenueController.js:27-35 | `new Date` reads a year in 0..99 as 1900 + y and keeps every other year, carries the month index into the year, keeps the time of day, and for a day that exists in the resulting month gives exactly that day (YearsAdjacent and OverflowExamples show the 19yy reading at work) |
| Calendar.Tick | controllers/revenueController.js:28 | the next second of a valid instant is valid |
| Calendar.TickIsNextInstant | controllers/revenueController.js:28 | one second later is strictly later, and no valid instant lies in between |
| Calendar.DayZeroIsLastDayOfPreviousMonth | controllers/revenueController.js:28 | 23:59:59 on day 0 of month index k is the last second of month k-1, with leap-aware month length; one second later is day 1 of month index k |
| DateRanges.Truthy | controllers/revenueController.js:26-33 | a query parameter counts as given exactly when it is present and not 0 (undefined and NaN are absent); the same test guards the trend at line 102 |
| DateRanges.InRange | controllers/revenueController.js:51 | the `$gte`/`$lte` filter: an instant is in an interval when it is neither before the start nor after the end, both bounds included |
| DateRanges.MonthRange | controllers/revenueController.js:26-28 | the month interval runs from day 1 00:00:00 to day DaysInMonth 23:59:59 of the normalised month |
| DateRanges.QuarterRange | controllers/revenueController.js:29-32 | the quarter interval starts on day 1 of month 3(q-1)+1, which is one of 1, 4, 7 or 10, and ends on the last day of the month two later at 23:59:59 (normalised into other years outside 1..4) |
| DateRanges.YearRange | controllers/revenueController.js:33-35 | the year interval is Jan 1 00:00:00 to Dec 31 23:59:59 of the full year |
| DateRanges.TrailingMonth | controllers/revenueController.js:36-40 | the fallback ends at `now` and starts strictly before it, on the same time of day; it is in the previous month when that month has `now`'s day, otherwise it runs on into `now`'s month |
| DateRanges.DateRange | controllers/revenueController.js:23-43 | every resolved interval (month, quarter, year or fallback) has valid bounds with start ≤ end |
| DateRanges.MonthTakesPrecedence | controllers/revenueController.js:26-29 | with year and month given the interval is that month whatever the quarter; for month 1..12 it is day 1 00:00:00 to the last day 23:59:59 |
| DateRanges.QuarterInterval | controllers/revenueController.js:29-32 | with year and quarter but no month the interval is the quarter; for q in 1..4 it runs from month 3q-2 day 1 to month 3q's last day 23:59:59 |
| DateRanges.YearInterval | controllers/revenueController.js:33-35 | with only a year the interval is Jan 1 00:00:00 to Dec 31 23:59:59 |
| DateRanges.FallbackInterval | controllers/revenueController.js:36-40 | without a year, whatever the month and quarter, the interval is the trailing month, which ends at `now` and starts strictly before it |
| DateRanges.MonthRangeContains | controllers/revenueController.js:26-28 | a valid instant lies in a month's interval if and only if it has that normalised year and month |
| DateRanges.QuarterRangeContains | controllers/revenueController.js:29-32 | a valid instant lies in a quarter's interval if and only if it has that year and one of the quarter's three months |
| DateRanges.YearRangeContains | controllers/revenueController.js:33-35 | a valid instant lies in a year's interval if and only if it has that full year |
| DateRanges.MonthsAdjacent | controllers/revenueController.js:26-28 | month m+1 starts exactly one second after month m ends, including across December to January |
| DateRanges.QuartersAdjacent | controllers/revenueController.js:29-32 | quarter q+1 starts exactly one second after quarter q ends |
| DateRanges.YearsAdjacent | controllers/revenueController.js:33-35 | Jan 1 of the next full year follows a year's end by one second; that is the next year's interval except across -1/0 and 99/100 |
| DateRanges.QuartersAndMonthsTileTheYear | controllers/revenueController.js:26-35 | quarter q starts with month 3q-2 and ends with month 3q; January and Q1 start, and December and Q4 end, exactly where the year does |
| DateRanges.MonthsInOrder | controllers/revenueController.js:106-108 | the months of a year are strictly chronological and disjoint |
| DateRanges.QuarterIsItsThreeMonths | controllers/revenueController.js:26-32 | a valid instant lies in a quarter's interval if and only if it lies in one of the intervals of months 3q-2, 3q-1 and 3q, and in at most one of them |
| DateRanges.FebruaryExamples | controllers/revenueController.js:26-28 | leap Februaries (2024, 2000) end on the 29th and the others (2023, 1900) on the 28th |
| DateRanges.OverflowExamples | controllers/revenueController.js:26-32 | year 24 means 1924; month 13 and quarter 5 fall in the next year |
| DateRanges.TrailingMonthExamples | controllers/revenueController.js:36-40 | the fallback from Mar 31 starts on Mar 3 and the one from Jan 15 on Dec 15 of the year before |
| Aggregation.Matching | controllers/revenueController.js:51 | the `$match` stage keeps the records dated within the interval and never yields more records than it was given; MatchingIsExact fixes which ones |
| Aggregation.SumAmounts | controllers/revenueController.js:52 | the `$sum` of `amount` over the matched records, 0 for none; SumAmountsAppend makes it additive |
| Aggregation.Total | controllers/revenueController.js:48-59 | `getTotal`: the sum of amounts over the records dated within both inclusive bounds, 0 when nothing matches and 0 when the query throws; MatchingIsExact, TotalAppend, TotalSingle and TotalIsZeroWithoutMatch fix its meaning |
| Aggregation.MatchingIsExact | controllers/revenueController.js:51 | the match keeps each record exactly as often as it occurs when start ≤ txnDate ≤ end, and drops it otherwise |
| Aggregation.TotalIsZeroWithoutMatch | controllers/revenueController.js:48-58 | the total is 0 when the query fails and 0 when no record is dated within the interval |
| Aggregation.TotalAppend | controllers/revenueController.js:50-52 | the total over a concatenation of collections is the sum of their totals |
| Aggregation.TotalSingle | controllers/revenueController.js:51-52 | a single record adds its amount exactly when its date lies within both inclusive bounds, and nothing otherwise |
| Aggregation.YearTotalIsSumOfMonths | controllers/revenueController.js:26-35 | over dated records, the year's total equals the sum of its twelve month totals |
| Aggregation.QuarterTotalIsSumOfMonths | controllers/revenueController.js:26-32 | over dated records, a quarter's total equals the sum of the totals of months 3q-2, 3q-1 and 3q |
| Revenue.MonthLabel | controllers/revenueController.js:123 | `toLocaleString("default", { month: "short" })` of a valid instant: the short English name of its month; TrendMonthBounds shows the trend's k-th label is the k-th name |
| Revenue.Percent | controllers/revenueController.js:79 | the percentage of a positive whole is never negative for a non-negative part, and a whole taken of itself is exactly 100 |
| Revenue.PeriodMetrics | controllers/revenueController.js:67-79 | revenue is invoices plus sales receipts and refunds are credit memos plus refund receipts; net revenue is revenue minus refunds and gross profit equals it; the margin is exactly 100 when net revenue is positive and 0 otherwise |
| Revenue.FinancialSummary | controllers/revenueController.js:64-96 | the reported cohort period is the interval `getDateRange` resolves for the query (pinned by MonthTakesPrecedence, QuarterInterval, YearInterval and FallbackInterval) and is ordered (start ≤ end); its metrics are those of that period; `source` is "QuickBooks" and `lastUpdated` is the clock reading |
| Revenue.SummaryOfPeriod | controllers/revenueController.js:64-79 | given a year, the summary's metrics are those of the month's, quarter's or year's range, by the precedence month, quarter, year |
| Revenue.NetRevenueOfMergedSources | controllers/revenueController.js:75-77 | when every query answers, revenue is the total over all revenue records and refunds the total over all refund records; net revenue is their difference |
| Revenue.YearNetIsSumOfMonthNets | controllers/revenueController.js:64-77 | the year summary's net revenue is the sum of the net revenues of months 1..12 |
| Revenue.QuarterMetricsAreSumOfMonths | controllers/revenueController.js:67-77 | over dated records, a quarter range's revenue, refunds and net revenue are each the sum of those of its three month ranges |
| Revenue.QuarterIsSumOfMonths | controllers/revenueController.js:64-77 | a quarter summary's revenue, refunds and net revenue are each the sum of those of its three month summaries |
| Revenue.MonthlyTrendPoints | controllers/revenueController.js:106-120 | the trend has one point per month of the year, twelve in all |
| Revenue.TrendMonthBounds | controllers/revenueController.js:107-109 | month index k's bounds in the trend are valid and are exactly the month interval of month k+1 used by the summary; the label of its first day is the k-th short month name |
| Revenue.TrendPointsAt | controllers/revenueController.js:106-120 | among the points of the first n months, point k is the one of month index k |
| Revenue.TrendStep | controllers/revenueController.js:106-120 | one pass of the loop, with the bounds and label it computes, appends exactly the next month's point of the trend |
| Revenue.TrendPointIsMonthSummary | controllers/revenueController.js:106-120 | point k of the trend is labelled Jan..Dec by k and carries the net revenue of the summary for month k+1 |
| Revenue.TrendSumIsYearNet | controllers/revenueController.js:101-126 | the net revenues of a monthly trend add up to the year summary's net revenue |
| Revenue.GetRevenueTrend | controllers/revenueController.js:101-133 | fails with "Year parameter is required for trend report." exactly when the year is missing, 0 or NaN; otherwise it returns, for that year and with source "QuickBooks", exactly the twelve monthly points in month order |
| Revenue.ParsedOrUndefined | controllers/revenueController.js:146-147 | `p ? parseInt(p) : undefined`: a missing parameter becomes undefined and a given one its parsed value, NaN included |
| Revenue.FinancialReportHandler | controllers/revenueController.js:138-168 | no year parameter gives 400 "Year is required for trend report". A year parsing to 0 or NaN gives 500 with the trend's message. Otherwise it gives 200 with the summary of the parsed period and the monthly trend of the year |

## Left out

- Milliseconds: JavaScript dates and stored `txnDate`s are millisecond-precise, but instants here are whole seconds. A record in the last fraction of a second after 23:59:59.000 would fall outside every interval in the source; the model cannot express that.
- Time zones: intervals are built in the server's local time and compared as instants. The model works in one local calendar, with no daylight-saving shifts, no UTC conversion of the date-only QuickBooks `TxnDate`, and no `toISOString` formatting of the bounds.
- Dates outside JavaScript's representable range (about ±275,760 years), where `new Date` is invalid and `toISOString` throws, are not modelled.
- Amounts are integers (cents) rather than JavaScript floating point; `toFixed(2)` on the margin is not modelled (it leaves 100 and 0 unchanged).
- `Promise.all` concurrency: the four collection totals are computed one after another. The collections are one snapshot for the whole request: their contents do not change between the source's separate reads, although those reads are not transactional and a sync could write between them. The lemmas that tie the trend and the quarter to the month and year summaries depend on that snapshot. Each collection either answers or fails for the whole request; a query that fails for one interval and succeeds for another is not modelled. The warning log on failure is left out.
- Month labels use the en-US short month names; other locales of `toLocaleString` are not modelled.
- The clock: the source reads `new Date()` separately for the fallback end, the fallback start and `lastUpdated`; the model uses one reading `now` for all three.
- The Express request and response objects, repeated query parameters, the details of `parseInt` (the `Query` carries its result) and unexpected exceptions other than the trend's year check are not modelled.
- The rest of the repository is not part of this model: QuickBooks synchronisation, users and authentication, billing, webhooks, e-mail, database wiring and the Mongoose schemas. The schemas only shape `Txn`.
