/** The payments page of `PaymentsList.jsx`: which orders can be paid, the
    amount checks of the submit handler, the total collected and the
    order-select prefill. */
module PaymentsPage {
  import opened Wrappers
  import opened Json
  import opened JsNumber
  import opened Seqs
  import opened Records
  import opened Api

  /** The fields of the record-payment form, all as typed or selected
      text; `order` is the selected order's id. */
  datatype Form = Form(order: string, amount: string, paymentMethod: string, referenceNumber: string, notes: string)

  /** `handleAddPayment`: the form opens on cash with every other field
      empty, whatever it held before. */
  function ResetForm(previous: Form): (f: Form)
    ensures f.paymentMethod == "CASH"
    ensures f.order == "" && f.amount == "" && f.referenceNumber == "" && f.notes == ""
  {
    Form("", "", "CASH", "", "")
  }

  /** `parseFloat(order.balance_due) > 0`. `parseFloat` reads a server
      decimal as its exact value (`JsNumber.ParseRender`), so the value is
      used directly here and below. */
  predicate Unpaid(o: Order) {
    o.balanceDue.Value() > 0.0
  }

  /** The orders offered in the order select: exactly the fetched orders
      with a positive balance, in the order they were fetched. */
  function UnpaidOrders(orders: seq<Order>): (r: seq<Order>)
    ensures forall i :: 0 <= i < |r| ==> r[i] in orders && r[i].balanceDue.Value() > 0.0
    ensures forall i :: 0 <= i < |orders| && orders[i].balanceDue.Value() > 0.0 ==> orders[i] in r
    ensures |orders| == 1 ==> r == if orders[0].balanceDue.Value() > 0.0 then orders else []
  {
    FilterSingle(Unpaid, orders);
    Filter(Unpaid, orders)
  }

  /** The select over two lists of orders is the select over the first
      followed by the select over the second: order is kept, and each order
      appears as often as it was fetched. */
  lemma UnpaidOrdersAppend(a: seq<Order>, b: seq<Order>)
    ensures UnpaidOrders(a + b) == UnpaidOrders(a) + UnpaidOrders(b)
  {
    FilterAppend(Unpaid, a, b);
  }

  /** `orders.find((o) => o.id === parseInt(text))`. */
  function FindOrder(orders: seq<Order>, text: string): (r: Option<Order>)
    ensures r.Some? <==> exists k :: 0 <= k < |orders| && ParseInt(text) == Some(orders[k].id as int)
    ensures r.Some? ==> r.value in orders && ParseInt(text) == Some(r.value.id as int)
  {
    match Find((o: Order) => ParseInt(text) == Some(o.id as int), orders)
    case Some(k) => Some(orders[k])
    case None => None
  }

  /** `parseFloat(amount) > parseFloat(order.balance_due)`; `NaN` is never
      greater. */
  predicate Overpays(amount: string, o: Order) {
    Exceeds(ParseFloat(amount), o)
  }

  /** A parsed amount above the order's balance. */
  predicate Exceeds(amount: Option<real>, o: Order) {
    amount.Some? && amount.value > o.balanceDue.Value()
  }

  /** The payment as `payments.create` sends it: the form as it stands. */
  function FormJson(f: Form): Json {
    JObj([
      ("order", JStr(f.order)), ("amount", JStr(f.amount)), ("payment_method", JStr(f.paymentMethod)),
      ("reference_number", JStr(f.referenceNumber)), ("notes", JStr(f.notes))
    ])
  }

  /** `handleSubmit`. `confirmed` is the answer the user would give to the
      overpayment question. An amount that parses to at most 0 is refused;
      reading the balance of an order that is not in the list throws; an
      amount above the balance needs the user's confirmation. */
  function Submit(f: Form, orders: seq<Order>, confirmed: bool): (e: Effect)
    ensures NonPositive(f.amount) ==> e == Alert("Amount must be greater than zero")
    ensures !NonPositive(f.amount) && FindOrder(orders, f.order).None? ==> e == Fault
    ensures e.Send? <==>
              !NonPositive(f.amount) && FindOrder(orders, f.order).Some?
              && (!Overpays(f.amount, FindOrder(orders, f.order).value) || confirmed)
    ensures e.Send? ==> e.request == Request(POST, Base(Payments), None, Some(FormJson(f)))
    ensures e == Stay <==>
              !NonPositive(f.amount) && FindOrder(orders, f.order).Some?
              && Overpays(f.amount, FindOrder(orders, f.order).value) && !confirmed
  {
    Settle(f, ParseFloat(f.amount), FindOrder(orders, f.order), confirmed)
  }

  /** The submit handler once the amount has been parsed and the selected
      order looked up. */
  function Settle(f: Form, amount: Option<real>, selected: Option<Order>, confirmed: bool): (e: Effect)
    ensures AtMostZero(amount) ==> e == Alert("Amount must be greater than zero")
    ensures !AtMostZero(amount) && selected.None? ==> e == Fault
    ensures e.Send? <==> !AtMostZero(amount) && selected.Some? && (!Exceeds(amount, selected.value) || confirmed)
    ensures e.Send? ==> e.request == Request(POST, Base(Payments), None, Some(FormJson(f)))
    ensures e == Stay <==> !AtMostZero(amount) && selected.Some? && Exceeds(amount, selected.value) && !confirmed
  {
    if AtMostZero(amount) then Alert("Amount must be greater than zero")
    else
      match selected
      case None => Fault
      case Some(o) =>
        if Exceeds(amount, o) && !confirmed then Stay
        else Call(Payments, Create, "", Some(FormJson(f)), "Failed to record payment")
  }

  /** An amount above the balance is recorded only when the user agrees. */
  lemma OverpaymentNeedsConfirmation(f: Form, orders: seq<Order>)
    requires !NonPositive(f.amount) && FindOrder(orders, f.order).Some?
    requires Overpays(f.amount, FindOrder(orders, f.order).value)
    ensures Submit(f, orders, false) == Stay
    ensures Submit(f, orders, true).Send?
  {
  }

  /** An amount within the balance needs no confirmation. */
  lemma WithinBalanceNeedsNoConfirmation(f: Form, orders: seq<Order>, confirmed: bool)
    requires !NonPositive(f.amount) && FindOrder(orders, f.order).Some?
    requires ParseFloat(f.amount).Some? && ParseFloat(f.amount).value <= FindOrder(orders, f.order).value.balanceDue.Value()
    ensures Submit(f, orders, confirmed) == Submit(f, orders, true)
    ensures Submit(f, orders, confirmed).Send?
  {
  }

  /** One payment's amount as `parseFloat` reads it. */
  function AmountOf(p: Payment): real {
    p.amount.Value()
  }

  /** The "Total Collected" card: the sum of the payment amounts. */
  function TotalCollected(payments: seq<Payment>): (t: real)
    ensures |payments| == 0 ==> t == 0.0
    ensures |payments| == 1 ==> t == payments[0].amount.Value()
  {
    SumSingle(AmountOf, payments);
    Sum(AmountOf, payments)
  }

  /** The total over two lists of payments is the sum of their totals, and
      each non-negative payment is part of it. */
  lemma TotalCollectedAdds(a: seq<Payment>, b: seq<Payment>)
    ensures TotalCollected(a + b) == TotalCollected(a) + TotalCollected(b)
  {
    SumAppend(AmountOf, a, b);
  }

  lemma PaymentWithinTotal(payments: seq<Payment>, k: nat)
    requires forall i :: 0 <= i < |payments| ==> payments[i].amount.Value() >= 0.0
    requires k < |payments|
    ensures payments[k].amount.Value() <= TotalCollected(payments)
  {
    SumBoundsEachTerm(AmountOf, payments, k);
  }

  /** The order select's `onChange`: the chosen order id is stored and the
      amount becomes that order's balance, or "" when no listed order has
      that id. */
  function Prefill(f: Form, orderId: string, orders: seq<Order>): (r: Form)
    ensures r == f.(order := orderId, amount := r.amount)
    ensures match FindOrder(orders, orderId)
            case Some(o) => r.amount == Render(o.balanceDue)
            case None => r.amount == ""
  {
    f.(order := orderId, amount := match FindOrder(orders, orderId) case Some(o) => Render(o.balanceDue) case None => "")
  }

  /** Choosing one of the offered orders prefills an amount that passes
      both checks: the payment is recorded without any question. */
  lemma PrefillIsAccepted(f: Form, orderId: string, orders: seq<Order>)
    requires FindOrder(UnpaidOrders(orders), orderId).Some?
    ensures Submit(Prefill(f, orderId, UnpaidOrders(orders)), UnpaidOrders(orders), false).Send?
  {
    var offered := UnpaidOrders(orders);
    var o := FindOrder(offered, orderId).value;
    var r := Prefill(f, orderId, offered);
    ParseRender(o.balanceDue);
    assert ParseFloat(r.amount) == Some(o.balanceDue.Value());
    assert !Overpays(r.amount, o);
  }
}
