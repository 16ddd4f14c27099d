/**
 * The revenue reports of the revenue controller: the financial summary of
 * one period, the monthly net-revenue trend of a year, and the combined
 * report handler with its year check.
 */
module Revenue {
  import opened Wrappers
  import opened Calendar
  import opened DateRanges
  import opened Aggregation

  /** The four transaction collections; `None` is a collection whose aggregation query fails. */
  datatype Ledger = Ledger(
    invoices: Option<seq<Txn>>,
    salesReceipts: Option<seq<Txn>>,
    creditMemos: Option<seq<Txn>>,
    refundReceipts: Option<seq<Txn>>)

  datatype Metrics = Metrics(
    totalRevenue: int,
    totalRefunds: int,
    netRevenue: int,
    grossProfit: int,
    profitMargin: real)

  datatype Summary = Summary(cohortPeriod: Range, metrics: Metrics, lastUpdated: Instant, source: string)

  datatype TrendPoint = TrendPoint(month: string, netRevenue: int)

  datatype TrendReport = TrendReport(trendYear: int, trendData: seq<TrendPoint>, source: string)

  const QuickBooks: string := "QuickBooks"
  const TrendYearRequired: string := "Year parameter is required for trend report."
  const ReportYearRequired: string := "Year is required for trend report"

  /** Short month names of the default (en-US) locale. */
  const ShortMonthNames: seq<string> :=
    ["Jan", "Feb", "Mar", "Apr", "May", "Jun", "Jul", "Aug", "Sep", "Oct", "Nov", "Dec"]

  /** `toLocaleString("default", { month: "short" })` of an instant. */
  function MonthLabel(t: Instant): string
    requires t.Valid()
  {
    ShortMonthNames[t.month - 1]
  }

  /** Every record of every collection that answers carries a real date. */
  predicate LedgerDated(db: Ledger) {
    && (db.invoices.Some? ==> AllDated(db.invoices.value))
    && (db.salesReceipts.Some? ==> AllDated(db.salesReceipts.value))
    && (db.creditMemos.Some? ==> AllDated(db.creditMemos.value))
    && (db.refundReceipts.Some? ==> AllDated(db.refundReceipts.value))
  }

  /** `(part / whole) * 100` in floating point, here on exact reals; a whole of itself is 100. */
  function Percent(part: int, whole: int): (p: real)
    requires whole > 0
    ensures part == whole ==> p == 100.0
    ensures part >= 0 ==> p >= 0.0
  {
    DivideBySelf(whole as real);
    (part as real / whole as real) * 100.0
  }

  lemma DivideBySelf(w: real)
    requires w != 0.0
    ensures w / w == 1.0
  {
  }

  /**
   * The metrics of one interval: invoices and sales receipts are revenue,
   * credit memos and refund receipts are refunds, gross profit is the net
   * revenue itself, and the margin is gross profit over net revenue.
   */
  function PeriodMetrics(r: Range, db: Ledger): (m: Metrics)
    ensures m.totalRevenue == Total(db.invoices, r) + Total(db.salesReceipts, r)
    ensures m.totalRefunds == Total(db.creditMemos, r) + Total(db.refundReceipts, r)
    ensures m.netRevenue == m.totalRevenue - m.totalRefunds
    ensures m.grossProfit == m.netRevenue
    ensures m.profitMargin == if m.netRevenue > 0 then 100.0 else 0.0
  {
    var invoiceTotal := Total(db.invoices, r);
    var salesReceiptTotal := Total(db.salesReceipts, r);
    var creditMemoTotal := Total(db.creditMemos, r);
    var refundReceiptTotal := Total(db.refundReceipts, r);
    var totalRevenue := invoiceTotal + salesReceiptTotal;
    var totalRefunds := creditMemoTotal + refundReceiptTotal;
    var netRevenue := totalRevenue - totalRefunds;
    var grossProfit := netRevenue;
    var profitMargin := if netRevenue > 0 then Percent(grossProfit, netRevenue) else 0.0;
    Metrics(totalRevenue, totalRefunds, netRevenue, grossProfit, profitMargin)
  }

  /** `getFinancialSummary`; `now` is the clock reading used for the fallback window and `lastUpdated`. */
  function FinancialSummary(p: Period, now: Instant, db: Ledger): (s: Summary)
    requires now.Valid()
    ensures s.cohortPeriod == DateRange(p, now)
    ensures NotAfter(s.cohortPeriod.start, s.cohortPeriod.end)
    ensures s.metrics == PeriodMetrics(s.cohortPeriod, db)
    ensures s.lastUpdated == now && s.source == QuickBooks
  {
    var range := DateRange(p, now);
    Summary(range, PeriodMetrics(range, db), now, QuickBooks)
  }

  /** The summary of a month, a quarter or a year is the metrics of that month's, quarter's or year's range. */
  lemma SummaryOfPeriod(p: Period, now: Instant, db: Ledger)
    requires now.Valid() && Truthy(p.year)
    ensures Truthy(p.month) ==>
              FinancialSummary(p, now, db).metrics == PeriodMetrics(MonthRange(p.year.value, p.month.value), db)
    ensures !Truthy(p.month) && Truthy(p.quarter) ==>
              FinancialSummary(p, now, db).metrics == PeriodMetrics(QuarterRange(p.year.value, p.quarter.value), db)
    ensures !Truthy(p.month) && !Truthy(p.quarter) ==>
              FinancialSummary(p, now, db).metrics == PeriodMetrics(YearRange(p.year.value), db)
  {
  }

  /** The same, for one month, one quarter and one year. */
  lemma MonthSummaryMetrics(y: int, m: int, now: Instant, db: Ledger)
    requires now.Valid() && y != 0 && m != 0
    ensures FinancialSummary(Period(Some(m), None, Some(y)), now, db).metrics == PeriodMetrics(MonthRange(y, m), db)
  {
  }

  lemma YearSummaryMetrics(y: int, now: Instant, db: Ledger)
    requires now.Valid() && y != 0
    ensures FinancialSummary(Period(None, None, Some(y)), now, db).metrics == PeriodMetrics(YearRange(y), db)
  {
  }

  lemma QuarterSummaryMetrics(y: int, q: int, now: Instant, db: Ledger)
    requires now.Valid() && y != 0 && q != 0
    ensures FinancialSummary(Period(None, Some(q), Some(y)), now, db).metrics == PeriodMetrics(QuarterRange(y, q), db)
  {
  }

  /**
   * When every query answers, net revenue is the total over all revenue
   * records of the period minus the total over all refund records; a query
   * that fails contributes nothing.
   */
  lemma NetRevenueOfMergedSources(r: Range, db: Ledger)
    requires db.invoices.Some? && db.salesReceipts.Some? && db.creditMemos.Some? && db.refundReceipts.Some?
    ensures PeriodMetrics(r, db).totalRevenue == Total(Some(db.invoices.value + db.salesReceipts.value), r)
    ensures PeriodMetrics(r, db).totalRefunds == Total(Some(db.creditMemos.value + db.refundReceipts.value), r)
    ensures PeriodMetrics(r, db).netRevenue
            == Total(Some(db.invoices.value + db.salesReceipts.value), r)
               - Total(Some(db.creditMemos.value + db.refundReceipts.value), r)
  {
    TotalAppend(db.invoices.value, db.salesReceipts.value, r);
    TotalAppend(db.creditMemos.value, db.refundReceipts.value, r);
  }

  /** `MonthsTotal` of a collection that may fail. */
  function SourceMonthsTotal(src: Option<seq<Txn>>, y: int, n: nat): int {
    if src.Some? then MonthsTotal(src.value, y, n) else 0
  }

  /** Net revenue of months 1..n of year `y`. */
  function MonthNets(y: int, n: nat, db: Ledger): int {
    if n == 0 then 0 else MonthNets(y, n - 1, db) + PeriodMetrics(MonthRange(y, n), db).netRevenue
  }

  lemma {:induction false} MonthNetsBySource(y: int, n: nat, db: Ledger)
    ensures MonthNets(y, n, db)
            == SourceMonthsTotal(db.invoices, y, n) + SourceMonthsTotal(db.salesReceipts, y, n)
               - SourceMonthsTotal(db.creditMemos, y, n) - SourceMonthsTotal(db.refundReceipts, y, n)
  {
    if n > 0 {
      MonthNetsBySource(y, n - 1, db);
    }
  }

  lemma SourceYearTotal(src: Option<seq<Txn>>, y: int)
    requires src.Some? ==> AllDated(src.value)
    ensures Total(src, YearRange(y)) == SourceMonthsTotal(src, y, 12)
  {
    if src.Some? {
      YearTotalIsSumOfMonths(src.value, y);
    }
  }

  /** The year summary's net revenue is the sum of the net revenues of its twelve month summaries. */
  lemma YearNetIsSumOfMonthNets(y: int, now: Instant, db: Ledger)
    requires now.Valid() && y != 0 && LedgerDated(db)
    ensures FinancialSummary(Period(None, None, Some(y)), now, db).metrics.netRevenue == MonthNets(y, 12, db)
  {
    YearSummaryMetrics(y, now, db);
    MonthNetsBySource(y, 12, db);
    SourceYearTotal(db.invoices, y);
    SourceYearTotal(db.salesReceipts, y);
    SourceYearTotal(db.creditMemos, y);
    SourceYearTotal(db.refundReceipts, y);
  }

  lemma SourceQuarterTotal(src: Option<seq<Txn>>, y: int, q: int)
    requires src.Some? ==> AllDated(src.value)
    ensures Total(src, QuarterRange(y, q))
            == Total(src, MonthRange(y, 3 * q - 2)) + Total(src, MonthRange(y, 3 * q - 1))
               + Total(src, MonthRange(y, 3 * q))
  {
    if src.Some? {
      QuarterTotalIsSumOfMonths(src.value, y, q);
    }
  }

  /** A quarter's metrics are the sums of those of its three months. */
  lemma QuarterMetricsAreSumOfMonths(y: int, q: int, db: Ledger)
    requires LedgerDated(db)
    ensures var qm := PeriodMetrics(QuarterRange(y, q), db);
            var m1 := PeriodMetrics(MonthRange(y, 3 * q - 2), db);
            var m2 := PeriodMetrics(MonthRange(y, 3 * q - 1), db);
            var m3 := PeriodMetrics(MonthRange(y, 3 * q), db);
            && qm.totalRevenue == m1.totalRevenue + m2.totalRevenue + m3.totalRevenue
            && qm.totalRefunds == m1.totalRefunds + m2.totalRefunds + m3.totalRefunds
            && qm.netRevenue == m1.netRevenue + m2.netRevenue + m3.netRevenue
  {
    SourceQuarterTotal(db.invoices, y, q);
    SourceQuarterTotal(db.salesReceipts, y, q);
    SourceQuarterTotal(db.creditMemos, y, q);
    SourceQuarterTotal(db.refundReceipts, y, q);
  }

  /** A quarter summary's metrics are the sums of those of its three month summaries. */
  lemma QuarterIsSumOfMonths(y: int, q: int, now: Instant, db: Ledger)
    requires now.Valid() && y != 0 && q != 0 && LedgerDated(db)
    ensures var qm := FinancialSummary(Period(None, Some(q), Some(y)), now, db).metrics;
            var m1 := FinancialSummary(Period(Some(3 * q - 2), None, Some(y)), now, db).metrics;
            var m2 := FinancialSummary(Period(Some(3 * q - 1), None, Some(y)), now, db).metrics;
            var m3 := FinancialSummary(Period(Some(3 * q), None, Some(y)), now, db).metrics;
            && qm.totalRevenue == m1.totalRevenue + m2.totalRevenue + m3.totalRevenue
            && qm.totalRefunds == m1.totalRefunds + m2.totalRefunds + m3.totalRefunds
            && qm.netRevenue == m1.netRevenue + m2.netRevenue + m3.netRevenue
  {
    QuarterSummaryMetrics(y, q, now, db);
    MonthSummaryMetrics(y, 3 * q - 2, now, db);
    MonthSummaryMetrics(y, 3 * q - 1, now, db);
    MonthSummaryMetrics(y, 3 * q, now, db);
    QuarterMetricsAreSumOfMonths(y, q, db);
  }

  /** The points `getRevenueTrend` builds for year `y`: one per month, January first. */
  function MonthlyTrendPoints(y: int, db: Ledger): (ps: seq<TrendPoint>)
    ensures |ps| == 12
  {
    TrendPoints(y, db, 12)
  }

  /** The point of month index k: its short name and the net revenue of month k+1. */
  function MonthPoint(y: int, db: Ledger, k: int): TrendPoint
    requires 0 <= k < 12
  {
    TrendPoint(ShortMonthNames[k], PeriodMetrics(MonthRange(y, k + 1), db).netRevenue)
  }

  /** The points of the first n months of year `y`. */
  function TrendPoints(y: int, db: Ledger, n: nat): (ps: seq<TrendPoint>)
    requires n <= 12
    ensures |ps| == n
  {
    if n == 0 then [] else TrendPoints(y, db, n - 1) + [MonthPoint(y, db, n - 1)]
  }

  lemma {:induction false} TrendPointsAt(y: int, db: Ledger, n: nat, k: int)
    requires 0 <= k < n <= 12
    ensures TrendPoints(y, db, n)[k] == MonthPoint(y, db, k)
  {
    if k < n - 1 {
      TrendPointsAt(y, db, n - 1, k);
    }
  }

  /** Point k of the trend is labelled with month k+1 and carries that month summary's net revenue. */
  lemma TrendPointIsMonthSummary(y: int, db: Ledger, k: int, now: Instant)
    requires y != 0 && 0 <= k < 12 && now.Valid()
    ensures MonthlyTrendPoints(y, db)[k]
            == TrendPoint(ShortMonthNames[k], FinancialSummary(Period(Some(k + 1), None, Some(y)), now, db).metrics.netRevenue)
  {
    TrendPointsAt(y, db, 12, k);
    MonthSummaryMetrics(y, k + 1, now, db);
  }

  /** The sum of the net revenues of a series. */
  function NetSum(points: seq<TrendPoint>): int {
    if points == [] then 0 else NetSum(points[..|points| - 1]) + points[|points| - 1].netRevenue
  }

  lemma {:induction false} TrendPrefixSum(y: int, db: Ledger, n: nat)
    requires n <= 12
    ensures NetSum(TrendPoints(y, db, n)) == MonthNets(y, n, db)
  {
    if n > 0 {
      TrendPrefixSum(y, db, n - 1);
      var ps := TrendPoints(y, db, n);
      assert ps[..n - 1] == TrendPoints(y, db, n - 1);
    }
  }

  /**
   * The monthly trend adds up to the year: the net revenues of its twelve
   * points sum to the net revenue of the year summary.
   */
  lemma TrendSumIsYearNet(y: int, now: Instant, db: Ledger)
    requires now.Valid() && y != 0 && LedgerDated(db)
    ensures NetSum(MonthlyTrendPoints(y, db)) == FinancialSummary(Period(None, None, Some(y)), now, db).metrics.netRevenue
  {
    TrendPrefixSum(y, db, 12);
    YearNetIsSumOfMonthNets(y, now, db);
  }

  /** The trend's own month bounds are those of the summary for month index + 1, labelled by that month. */
  lemma TrendMonthBounds(y: int, month: int)
    requires 0 <= month < 12
    ensures NewDate(y, month, 1, 0, 0, 0).Valid()
    ensures MonthLabel(NewDate(y, month, 1, 0, 0, 0)) == ShortMonthNames[month]
    ensures Range(NewDate(y, month, 1, 0, 0, 0), NewDate(y, month + 1, 0, 23, 59, 59)) == MonthRange(y, month + 1)
  {
  }

  /**
   * One iteration of the trend loop: with the bounds it computes and the
   * net revenue of the four totals over them, it appends the next month's point.
   */
  lemma TrendStep(y: int, db: Ledger, month: int, trend: seq<TrendPoint>, start: Instant, end: Instant, net: int)
    requires 0 <= month < 12 && trend == TrendPoints(y, db, month)
    requires start == NewDate(y, month, 1, 0, 0, 0) && end == NewDate(y, month + 1, 0, 23, 59, 59)
    requires net == Total(db.invoices, Range(start, end)) + Total(db.salesReceipts, Range(start, end))
                    - (Total(db.creditMemos, Range(start, end)) + Total(db.refundReceipts, Range(start, end)))
    ensures start.Valid()
    ensures trend + [TrendPoint(MonthLabel(start), net)] == TrendPoints(y, db, month + 1)
  {
    TrendMonthBounds(y, month);
    assert net == PeriodMetrics(MonthRange(y, month + 1), db).netRevenue;
  }

  /**
   * `getRevenueTrend`: fails without a (truthy) year; otherwise the twelve
   * monthly points, in month order.
   */
  method GetRevenueTrend(year: Option<int>, db: Ledger) returns (r: Result<TrendReport, string>)
    ensures r.Failure? <==> !Truthy(year)
    ensures r.Failure? ==> r.error == TrendYearRequired
    ensures r.Success? ==> r.value == TrendReport(year.value, MonthlyTrendPoints(year.value, db), QuickBooks)
  {
    if !Truthy(year) {
      return Failure(TrendYearRequired);
    }
    var y := year.value;
    var trend: seq<TrendPoint> := [];
    for month := 0 to 12
      invariant trend == TrendPoints(y, db, month)
    {
      var monthStart := NewDate(y, month, 1, 0, 0, 0);
      var monthEnd := NewDate(y, month + 1, 0, 23, 59, 59);

      var invoiceTotal := Total(db.invoices, Range(monthStart, monthEnd));
      var salesReceiptTotal := Total(db.salesReceipts, Range(monthStart, monthEnd));
      var creditMemoTotal := Total(db.creditMemos, Range(monthStart, monthEnd));
      var refundReceiptTotal := Total(db.refundReceipts, Range(monthStart, monthEnd));

      var totalRevenue := invoiceTotal + salesReceiptTotal;
      var totalRefunds := creditMemoTotal + refundReceiptTotal;
      var netRevenue := totalRevenue - totalRefunds;
      TrendStep(y, db, month, trend, monthStart, monthEnd, netRevenue);

      trend := trend + [TrendPoint(MonthLabel(monthStart), netRevenue)];
    }
    return Success(TrendReport(y, trend, QuickBooks));
  }

  /** A query-string parameter: absent or empty, or a non-empty string with its `parseInt` value. */
  datatype Param = Missing | Given(parsed: Option<int>)

  datatype Query = Query(month: Param, quarter: Param, year: Param)

  /** The number a parameter is passed on as (`p ? parseInt(p) : undefined`). */
  function ParsedOrUndefined(p: Param): Option<int> {
    match p
    case Missing => None
    case Given(v) => v
  }

  datatype Response =
    | BadRequest(message: string)
    | ServerError(message: string)
    | Report(summary: Summary, trend: TrendReport)

  function Status(resp: Response): int {
    match resp
    case BadRequest(_) => 400
    case ServerError(_) => 500
    case Report(_, _) => 200
  }

  /**
   * `getFinancialReportHandler`: 400 without a year parameter; a year that
   * parses to 0 or NaN makes the trend throw, which answers 500; otherwise
   * the summary of the requested period and the trend of the year.
   */
  method FinancialReportHandler(q: Query, now: Instant, db: Ledger) returns (resp: Response)
    requires now.Valid()
    ensures q.year.Missing? ==> resp == BadRequest(ReportYearRequired) && Status(resp) == 400
    ensures q.year.Given? && !Truthy(q.year.parsed) ==> resp == ServerError(TrendYearRequired) && Status(resp) == 500
    ensures q.year.Given? && Truthy(q.year.parsed) ==>
              && resp.Report? && Status(resp) == 200
              && resp.summary == FinancialSummary(
                   Period(ParsedOrUndefined(q.month), ParsedOrUndefined(q.quarter), q.year.parsed), now, db)
              && resp.trend == TrendReport(q.year.parsed.value, MonthlyTrendPoints(q.year.parsed.value, db), QuickBooks)
  {
    if q.year.Missing? {
      return BadRequest(ReportYearRequired);
    }
    var year := q.year.parsed;
    var summary := FinancialSummary(Period(ParsedOrUndefined(q.month), ParsedOrUndefined(q.quarter), year), now, db);
    var trend := GetRevenueTrend(year, db);
    match trend
    case Failure(message) =>
      return ServerError(message);
    case Success(report) =>
      return Report(summary, report);
  }
}
