/**
 * Range aggregation (`getTotal`): the sum of `amount` over the records of one
 * transaction collection whose `txnDate` lies in a closed interval, with 0
 * for no match and 0 when the query fails.
 */
module Aggregation {
  import opened Wrappers
  import opened Calendar
  import opened DateRanges

  /** One stored transaction (invoice, sales receipt, credit memo or refund receipt); amounts in cents. */
  datatype Txn = Txn(id: string, txnDate: Instant, amount: int, customerRef: string, realmId: string)

  /** Every record carries a real date. */
  predicate AllDated(rs: seq<Txn>) {
    forall i :: 0 <= i < |rs| ==> rs[i].txnDate.Valid()
  }

  /** The records the `$match` stage lets through, in collection order. */
  function Matching(rs: seq<Txn>, r: Range): (ms: seq<Txn>)
    ensures |ms| <= |rs|
  {
    if rs == [] then []
    else
      var last := rs[|rs| - 1];
      Matching(rs[..|rs| - 1], r) + (if InRange(last.txnDate, r) then [last] else [])
  }

  /** The match keeps exactly the records dated within the range, each as often as it occurs. */
  lemma {:induction false} MatchingIsExact(rs: seq<Txn>, r: Range, x: Txn)
    ensures multiset(Matching(rs, r))[x] == if InRange(x.txnDate, r) then multiset(rs)[x] else 0
    decreases |rs|
  {
    if rs != [] {
      var init, last := rs[..|rs| - 1], rs[|rs| - 1];
      assert rs == init + [last];
      MatchingIsExact(init, r, x);
    }
  }

  /** The `$sum` of `amount`. */
  function SumAmounts(rs: seq<Txn>): int {
    if rs == [] then 0 else SumAmounts(rs[..|rs| - 1]) + rs[|rs| - 1].amount
  }

  /** `getTotal`: `None` is a query that threw. */
  function Total(src: Option<seq<Txn>>, r: Range): int {
    match src
    case None => 0
    case Some(rs) => SumAmounts(Matching(rs, r))
  }

  /** The total is 0 when the query fails and when no record is dated within the range. */
  lemma TotalIsZeroWithoutMatch(src: Option<seq<Txn>>, r: Range)
    ensures src.None? ==> Total(src, r) == 0
    ensures src.Some? && (forall x :: x in src.value ==> !InRange(x.txnDate, r)) ==> Total(src, r) == 0
  {
    if src.Some? {
      NoMatchIsEmpty(src.value, r);
    }
  }

  /** A non-empty match holds some record of the input dated within the interval. */
  lemma NoMatchIsEmpty(rs: seq<Txn>, r: Range)
    ensures Matching(rs, r) != [] ==> exists x :: x in rs && InRange(x.txnDate, r)
  {
    var ms := Matching(rs, r);
    if ms != [] {
      var x := ms[0];
      assert x in multiset(ms);
      MatchingIsExact(rs, r, x);
      assert x in rs && InRange(x.txnDate, r);
    }
  }

  lemma {:induction false} SumAmountsAppend(a: seq<Txn>, b: seq<Txn>)
    ensures SumAmounts(a + b) == SumAmounts(a) + SumAmounts(b)
    decreases |b|
  {
    if b != [] {
      var b' := b[..|b| - 1];
      assert (a + b)[..|a + b| - 1] == a + b';
      SumAmountsAppend(a, b');
    } else {
      assert a + b == a;
    }
  }

  lemma {:induction false} MatchingAppend(a: seq<Txn>, b: seq<Txn>, r: Range)
    ensures Matching(a + b, r) == Matching(a, r) + Matching(b, r)
    decreases |b|
  {
    if b != [] {
      var b' := b[..|b| - 1];
      assert (a + b)[..|a + b| - 1] == a + b';
      MatchingAppend(a, b', r);
    } else {
      assert a + b == a;
    }
  }

  /** Totals over two parts of a collection add up to the total over the whole. */
  lemma TotalAppend(a: seq<Txn>, b: seq<Txn>, r: Range)
    ensures Total(Some(a + b), r) == Total(Some(a), r) + Total(Some(b), r)
  {
    MatchingAppend(a, b, r);
    SumAmountsAppend(Matching(a, r), Matching(b, r));
  }

  /** A single record contributes its amount exactly when its date is within both bounds. */
  lemma TotalSingle(x: Txn, r: Range)
    ensures Total(Some([x]), r) == if InRange(x.txnDate, r) then x.amount else 0
  {
    assert [x][..0] == [];
    assert Matching([x], r) == if InRange(x.txnDate, r) then [x] else [];
    assert SumAmounts([x]) == SumAmounts([]) + x.amount;
  }

  /** What one record adds to a range's total. */
  function Contribution(x: Txn, r: Range): int {
    if InRange(x.txnDate, r) then x.amount else 0
  }

  /** Appending one record to a collection. */
  lemma TotalSnoc(rs: seq<Txn>, x: Txn, r: Range)
    ensures Total(Some(rs + [x]), r) == Total(Some(rs), r) + Contribution(x, r)
  {
    TotalAppend(rs, [x], r);
    TotalSingle(x, r);
  }

  /** The totals of months 1..n of year `y`. */
  function MonthsTotal(rs: seq<Txn>, y: int, n: nat): int {
    if n == 0 then 0 else MonthsTotal(rs, y, n - 1) + Total(Some(rs), MonthRange(y, n))
  }

  lemma {:induction false} MonthsTotalEmpty(y: int, n: nat)
    ensures MonthsTotal([], y, n) == 0
  {
    if n > 0 {
      MonthsTotalEmpty(y, n - 1);
    }
  }

  lemma MonthContribution(x: Txn, y: int, n: int)
    requires x.txnDate.Valid() && 1 <= n <= 12
    ensures Contribution(x, MonthRange(y, n))
            == if x.txnDate.year == FullYear(y) && x.txnDate.month == n then x.amount else 0
  {
    MonthRangeContains(x.txnDate, y, n);
  }

  lemma {:induction false} MonthsTotalSnoc(rs: seq<Txn>, x: Txn, y: int, n: nat)
    requires x.txnDate.Valid() && n <= 12
    ensures MonthsTotal(rs + [x], y, n)
            == MonthsTotal(rs, y, n)
               + (if x.txnDate.year == FullYear(y) && x.txnDate.month <= n then x.amount else 0)
  {
    if n > 0 {
      MonthsTotalSnoc(rs, x, y, n - 1);
      TotalSnoc(rs, x, MonthRange(y, n));
      MonthContribution(x, y, n);
    }
  }

  lemma YearContribution(x: Txn, y: int)
    requires x.txnDate.Valid()
    ensures Contribution(x, YearRange(y)) == if x.txnDate.year == FullYear(y) then x.amount else 0
  {
    YearRangeContains(x.txnDate, y);
  }

  /** The months of a year tile it: the year's total is the sum of its twelve month totals. */
  lemma {:induction false} YearTotalIsSumOfMonths(rs: seq<Txn>, y: int)
    requires AllDated(rs)
    ensures Total(Some(rs), YearRange(y)) == MonthsTotal(rs, y, 12)
    decreases |rs|
  {
    if rs == [] {
      MonthsTotalEmpty(y, 12);
    } else {
      var init, x := rs[..|rs| - 1], rs[|rs| - 1];
      assert rs == init + [x];
      YearTotalIsSumOfMonths(init, y);
      TotalSnoc(init, x, YearRange(y));
      YearContribution(x, y);
      MonthsTotalSnoc(init, x, y, 12);
    }
  }

  lemma QuarterContribution(x: Txn, y: int, q: int)
    requires x.txnDate.Valid()
    ensures Contribution(x, QuarterRange(y, q))
            == Contribution(x, MonthRange(y, 3 * q - 2)) + Contribution(x, MonthRange(y, 3 * q - 1))
               + Contribution(x, MonthRange(y, 3 * q))
  {
    QuarterIsItsThreeMonths(x.txnDate, y, q);
  }

  /** The three months of a quarter tile it: the quarter's total is the sum of theirs. */
  lemma {:induction false} QuarterTotalIsSumOfMonths(rs: seq<Txn>, y: int, q: int)
    requires AllDated(rs)
    ensures Total(Some(rs), QuarterRange(y, q))
            == Total(Some(rs), MonthRange(y, 3 * q - 2))
               + Total(Some(rs), MonthRange(y, 3 * q - 1))
               + Total(Some(rs), MonthRange(y, 3 * q))
    decreases |rs|
  {
    if rs != [] {
      var init, x := rs[..|rs| - 1], rs[|rs| - 1];
      assert rs == init + [x];
      QuarterTotalIsSumOfMonths(init, y, q);
      TotalSnoc(init, x, QuarterRange(y, q));
      TotalSnoc(init, x, MonthRange(y, 3 * q - 2));
      TotalSnoc(init, x, MonthRange(y, 3 * q - 1));
      TotalSnoc(init, x, MonthRange(y, 3 * q));
      QuarterContribution(x, y, q);
    }
  }
}
