/** The start page of `Dashboard.jsx`: the requests it makes, its four
    figures and the recent-orders list. */
module DashboardPage {
  import opened Wrappers
  import opened Json
  import opened JsNumber
  import opened Seqs
  import opened Records
  import opened Api

  /** The three requests made together: all orders, the orders since
      `today` (each up to 1000), and the low-stock items. */
  function Requests(today: string): (r: seq<Request>)
    ensures |r| == 3
    ensures r[0] == Request(GET, Base(Orders), Some(JObj([("page_size", JNum(1000.0))])), None)
    ensures r[1] == Request(GET, Base(Orders), Some(JObj([("start_date", JStr(today)), ("page_size", JNum(1000.0))])), None)
    ensures r[2] == Request(GET, Base(Inventory) + "low_stock/", None, None)
  {
    [ToRequest(Orders, List, "", Some(JObj([("page_size", JNum(1000.0))]))),
     ToRequest(Orders, List, "", Some(JObj([("start_date", JStr(today)), ("page_size", JNum(1000.0))]))),
     ToRequest(Inventory, LowStock, "", None)]
  }

  predicate IsPending(o: Order) { o.status == "PENDING" }
  predicate IsReady(o: Order) { o.status == "READY" }

  /** `parseFloat(o.amount_paid || 0)`: a missing amount counts as 0. */
  function PaidOf(o: Order): real {
    match o.amountPaid
    case Some(d) => d.Value()
    case None => 0.0
  }

  datatype Stats = Stats(todayOrders: nat, pendingOrders: nat, readyOrders: nat, totalRevenue: real)

  /** The four figures: the number of today's orders, the pending and the
      ready orders among all orders, and the amount paid over all orders. */
  function ComputeStats(orders: seq<Order>, todayOrders: seq<Order>): (s: Stats)
    ensures s.todayOrders == |todayOrders|
    ensures s.pendingOrders == 0 <==> forall i :: 0 <= i < |orders| ==> orders[i].status != "PENDING"
    ensures s.readyOrders == 0 <==> forall i :: 0 <= i < |orders| ==> orders[i].status != "READY"
    ensures s.pendingOrders + s.readyOrders <= |orders|
    ensures |orders| == 0 ==> s.totalRevenue == 0.0
    ensures |orders| == 1 ==> s.pendingOrders == (if orders[0].status == "PENDING" then 1 else 0)
    ensures |orders| == 1 ==> s.readyOrders == (if orders[0].status == "READY" then 1 else 0)
    ensures |orders| == 1 && orders[0].amountPaid.None? ==> s.totalRevenue == 0.0
    ensures |orders| == 1 && orders[0].amountPaid.Some? ==> s.totalRevenue == orders[0].amountPaid.value.Value()
  {
    var pending := Filter(IsPending, orders);
    var ready := Filter(IsReady, orders);
    FilterSplit(IsPending, IsReady, orders);
    FilterEmpty(IsPending, orders);
    FilterEmpty(IsReady, orders);
    FilterSingle(IsPending, orders);
    FilterSingle(IsReady, orders);
    SumSingle(PaidOf, orders);
    Stats(|todayOrders|, |pending|, |ready|, Sum(PaidOf, orders))
  }

  /** Figures over two lists of orders add up. */
  lemma StatsAdd(a: seq<Order>, b: seq<Order>, today: seq<Order>)
    ensures ComputeStats(a + b, today).pendingOrders == ComputeStats(a, today).pendingOrders + ComputeStats(b, today).pendingOrders
    ensures ComputeStats(a + b, today).readyOrders == ComputeStats(a, today).readyOrders + ComputeStats(b, today).readyOrders
    ensures ComputeStats(a + b, today).totalRevenue == ComputeStats(a, today).totalRevenue + ComputeStats(b, today).totalRevenue
  {
    FilterAppend(IsPending, a, b);
    FilterAppend(IsReady, a, b);
    SumAppend(PaidOf, a, b);
  }

  /** Revenue over orders with non-negative paid amounts is at least each
      order's amount. */
  lemma RevenueBoundsPaid(orders: seq<Order>, k: nat, today: seq<Order>)
    requires forall i :: 0 <= i < |orders| ==> PaidOf(orders[i]) >= 0.0
    requires k < |orders|
    ensures 0.0 <= PaidOf(orders[k]) <= ComputeStats(orders, today).totalRevenue
  {
    SumBoundsEachTerm(PaidOf, orders, k);
  }

  /** `orders.slice(0, 5)`: the first five orders, or all when fewer. */
  function Recent(orders: seq<Order>): (r: seq<Order>)
    ensures |r| == if |orders| < 5 then |orders| else 5
    ensures forall i :: 0 <= i < |r| ==> r[i] == orders[i]
  {
    if |orders| < 5 then orders else orders[..5]
  }

  /** Orders after the fifth never show among the recent ones. */
  lemma RecentIgnoresLater(orders: seq<Order>, later: seq<Order>)
    requires |orders| >= 5
    ensures Recent(orders + later) == Recent(orders)
  {
    assert (orders + later)[..5] == orders[..5];
  }
}
