/** The reports page of `Reports.jsx`: the query it sends for a period,
    the two rates with their zero guards and the outstanding total. */
module ReportsPage {
  import opened Wrappers
  import opened Json
  import opened JsNumber
  import opened Seqs
  import opened Records
  import opened Api

  /** The period buttons. */
  const Periods: seq<string> := ["daily", "weekly", "monthly"]

  /** The query of the sales report: the period, and the chosen date only
      for a daily report with a date set. */
  function Params(period: string, customDate: string): (r: Json)
    ensures r.JObj? && 1 <= |r.members| <= 2
    ensures Lookup(r.members, "period") == Some(JStr(period))
    ensures Lookup(r.members, "date").Some? <==> period == "daily" && customDate != ""
    ensures Lookup(r.members, "date").Some? ==> Lookup(r.members, "date") == Some(JStr(customDate))
  {
    if period == "daily" && customDate != "" then
      var r := JObj([("period", JStr(period)), ("date", JStr(customDate))]);
      assert r.members[0].0 != "date";
      LookupAt(r.members, 1, "date");
      r
    else JObj([("period", JStr(period))])
  }

  /** Of the period buttons, only the first (daily) adds the chosen date to
      the query, and only when a date is set; every button sends its own
      period. */
  lemma PeriodParams(k: nat, customDate: string)
    requires k < |Periods|
    ensures Lookup(Params(Periods[k], customDate).members, "period") == Some(JStr(Periods[k]))
    ensures Lookup(Params(Periods[k], customDate).members, "date").Some? <==> k == 0 && customDate != ""
  {
    assert Periods[k] == "daily" <==> k == 0 by {
      assert Periods[1] != "daily" && Periods[2] != "daily";
    }
  }

  /** `fetchReports`: the sales report for the query, and the outstanding
      demands. */
  function FetchRequests(period: string, customDate: string): (r: seq<Request>)
    ensures |r| == 2
    ensures r[0] == Request(GET, Base(Orders) + "sales_report/", Some(Params(period, customDate)), None)
    ensures r[1] == Request(GET, Base(Orders) + "outstanding_demands/", None, None)
  {
    [ToRequest(Orders, SalesReport, "", Some(Params(period, customDate))),
     ToRequest(Orders, OutstandingDemands, "", None)]
  }

  /** The totals of a sales report as the server sends them. */
  datatype Sales = Sales(totalOrders: int, completedOrders: int, totalRevenue: Decimal, totalPayments: Decimal)

  /** `whole > 0 ? part / whole * 100 : 0`. */
  function Rate(part: real, whole: real): (rate: real)
    ensures whole <= 0.0 ==> rate == 0.0
    ensures whole > 0.0 ==> rate * whole == 100.0 * part
    ensures 0.0 <= part <= whole ==> 0.0 <= rate <= 100.0
  {
    if whole > 0.0 then
      var rate := part / whole * 100.0;
      assert rate * whole == 100.0 * part;
      if 0.0 <= part <= whole then RateBounds(part, whole); rate else rate
    else 0.0
  }

  lemma RateBounds(part: real, whole: real)
    requires 0.0 <= part <= whole && whole > 0.0
    ensures 0.0 <= part / whole * 100.0 <= 100.0
  {
    assert part / whole <= 1.0;
  }

  /** The completion rate: completed orders as a percentage of all orders,
      0 when there are none. */
  function CompletionRate(r: Sales): (rate: real)
    ensures r.totalOrders <= 0 ==> rate == 0.0
    ensures r.totalOrders > 0 ==> rate * r.totalOrders as real == 100.0 * r.completedOrders as real
    ensures 0 <= r.completedOrders <= r.totalOrders ==> 0.0 <= rate <= 100.0
  {
    Rate(r.completedOrders as real, r.totalOrders as real)
  }

  /** The collection rate: payments as a percentage of revenue, 0 unless
      the revenue is positive. */
  function CollectionRate(r: Sales): (rate: real)
    ensures r.totalRevenue.Value() <= 0.0 ==> rate == 0.0
    ensures r.totalRevenue.Value() > 0.0 ==> PercentOf(rate, r.totalPayments.Value(), r.totalRevenue.Value())
    ensures 0.0 <= r.totalPayments.Value() <= r.totalRevenue.Value() ==> 0.0 <= rate <= 100.0
  {
    RevenueShare(r.totalPayments.Value(), r.totalRevenue.Value());
    Rate(r.totalPayments.Value(), r.totalRevenue.Value())
  }

  /** `rate` is `part` as a percentage of `whole`: rate × whole = 100 × part. */
  predicate PercentOf(rate: real, part: real, whole: real) {
    rate * whole == 100.0 * part
  }

  /** The share law of `Rate` for any part and whole, in the form the
      collection rate states it. */
  lemma RevenueShare(part: real, whole: real)
    ensures whole > 0.0 ==> PercentOf(Rate(part, whole), part, whole)
    ensures 0.0 <= part <= whole ==> 0.0 <= Rate(part, whole) <= 100.0
  {
    if whole > 0.0 {
      RateShare(part, whole, Rate(part, whole));
    }
  }

  /** Over a positive revenue the collection rate is the payments' share in
      percent, and it lies in [0, 100] when the payments do not exceed the
      revenue. */
  lemma CollectionShare(r: Sales)
    requires r.totalRevenue.Value() > 0.0
    ensures CollectionRate(r) * r.totalRevenue.Value() == 100.0 * r.totalPayments.Value()
    ensures 0.0 <= r.totalPayments.Value() <= r.totalRevenue.Value() ==> 0.0 <= CollectionRate(r) <= 100.0
  {
    RateShare(r.totalPayments.Value(), r.totalRevenue.Value(), CollectionRate(r));
  }

  /** The share relation for plain numbers, so that the decimals' own
      arithmetic stays out of the product. */
  lemma RateShare(part: real, whole: real, rate: real)
    requires whole > 0.0 && rate == Rate(part, whole)
    ensures rate * whole == 100.0 * part
    ensures 0.0 <= part <= whole ==> 0.0 <= rate <= 100.0
  {
  }

  function BalanceOf(o: Order): real {
    o.balanceDue.Value()
  }

  /** The outstanding total: the sum of the balances due. */
  function TotalOutstanding(demands: seq<Order>): (t: real)
    ensures |demands| == 0 ==> t == 0.0
    ensures |demands| == 1 ==> t == demands[0].balanceDue.Value()
  {
    SumSingle(BalanceOf, demands);
    Sum(BalanceOf, demands)
  }

  /** Over orders that all owe something, the outstanding total is positive
      as soon as there is one, and no single balance exceeds it. */
  lemma OutstandingBoundsBalances(demands: seq<Order>, k: nat)
    requires forall i :: 0 <= i < |demands| ==> demands[i].balanceDue.Value() > 0.0
    requires k < |demands|
    ensures 0.0 < demands[k].balanceDue.Value() <= TotalOutstanding(demands)
  {
    SumBoundsEachTerm(BalanceOf, demands, k);
  }

  /** The total over two lists of demands is the sum of their totals. */
  lemma OutstandingAdds(a: seq<Order>, b: seq<Order>)
    ensures TotalOutstanding(a + b) == TotalOutstanding(a) + TotalOutstanding(b)
  {
    SumAppend(BalanceOf, a, b);
  }
}
