/** The order page of `OrderDetail.jsx`: its colour and badge tables, the
    status buttons, the record-payment rule and handler, and the date
    cells. */
module OrderDetailPage {
  import opened Wrappers
  import opened Json
  import opened JsText
  import opened JsNumber
  import opened Records
  import opened Api
  import PaymentsPage

  /** The class used for any key a table does not list. */
  const Gray := "bg-gray-100 text-gray-800"

  const StatusColors: seq<(string, string)> := [
    ("PENDING", "bg-yellow-100 text-yellow-800"),
    ("IN_PROGRESS", "bg-blue-100 text-blue-800"),
    ("READY", "bg-green-100 text-green-800"),
    ("COMPLETED", "bg-gray-100 text-gray-800"),
    ("CANCELLED", "bg-red-100 text-red-800")
  ]

  const MethodBadges: seq<(string, string)> := [
    ("CASH", "bg-green-100 text-green-800"),
    ("CARD", "bg-blue-100 text-blue-800"),
    ("MOBILE_MONEY", "bg-purple-100 text-purple-800"),
    ("BANK_TRANSFER", "bg-yellow-100 text-yellow-800")
  ]

  predicate DistinctKeys(table: seq<(string, string)>) {
    forall i, j :: 0 <= i < j < |table| ==> table[i].0 != table[j].0
  }

  /** `table[key] || fallback` on an object literal whose values are all
      non-empty. */
  function LookupOr(table: seq<(string, string)>, key: string, fallback: string): (r: string)
    ensures DistinctKeys(table) ==> forall i :: 0 <= i < |table| && table[i].0 == key ==> r == table[i].1
    ensures (forall i :: 0 <= i < |table| ==> table[i].0 != key) ==> r == fallback
  {
    if |table| == 0 then fallback
    else if table[0].0 == key then table[0].1
    else
      var r := LookupOr(table[1..], key, fallback);
      assert forall i :: 1 <= i < |table| ==> table[1..][i - 1] == table[i];
      r
  }

  lemma TablesHaveDistinctKeys()
    ensures DistinctKeys(StatusColors)
    ensures DistinctKeys(MethodBadges)
  {
    assert StatusColors[3].0[1] != StatusColors[4].0[1];
    assert MethodBadges[0].0[2] != MethodBadges[1].0[2];
  }

  /** `getStatusColor`: the listed class for each of the five statuses,
      gray for anything else. */
  function StatusColor(status: string): (r: string)
    ensures forall i :: 0 <= i < |StatusColors| && StatusColors[i].0 == status ==> r == StatusColors[i].1
    ensures (forall i :: 0 <= i < |StatusColors| ==> StatusColors[i].0 != status) ==> r == Gray
  {
    TablesHaveDistinctKeys();
    LookupOr(StatusColors, status, Gray)
  }

  /** `getPaymentMethodBadge`: the listed class for each of the four
      methods, gray for anything else. */
  function MethodBadge(paymentMethod: string): (r: string)
    ensures forall i :: 0 <= i < |MethodBadges| && MethodBadges[i].0 == paymentMethod ==> r == MethodBadges[i].1
    ensures (forall i :: 0 <= i < |MethodBadges| ==> MethodBadges[i].0 != paymentMethod) ==> r == Gray
  {
    TablesHaveDistinctKeys();
    LookupOr(MethodBadges, paymentMethod, Gray)
  }

  /** A cancelled order is shown in red; an unknown status falls back to
      gray. */
  lemma CancelledIsRed(status: string)
    requires status == "CANCELLED"
    ensures StatusColor(status) == "bg-red-100 text-red-800"
  {
    assert StatusColors[4].0 == status;
  }

  lemma UnknownStatusIsGray(status: string)
    requires status == "DELIVERED"
    ensures StatusColor(status) == Gray
  {
    forall i | 0 <= i < |StatusColors| ensures StatusColors[i].0 != status {
      assert StatusColors[i].0[0] != 'D';
    }
  }

  /** The statuses offered as buttons, top to bottom. */
  const StatusChoices: seq<string> := ["PENDING", "IN_PROGRESS", "READY", "COMPLETED"]

  datatype Button = Button(status: string, disabled: bool, caption: string)

  /** The mark put in front of the current status's caption, as the page's
      source spells it: the three characters U+201A U+00FA U+00EC (the UTF-8
      bytes of a check mark read as Mac Roman) and a space. */
  const CurrentMark: string := "\U{201A}\U{FA}\U{EC} "

  /** The status buttons: one per offered status, disabled exactly when it
      is the current status, captioned with its first underscore made a
      space and, on the current status, the mark in front. */
  function Buttons(current: string): (r: seq<Button>)
    ensures |r| == |StatusChoices| == 4
    ensures forall i :: 0 <= i < |r| ==> r[i].status == StatusChoices[i] && (r[i].disabled <==> r[i].status == current)
    ensures forall i :: 0 <= i < |r| ==>
              r[i].caption == (if r[i].disabled then CurrentMark else "") + ReplaceFirst(r[i].status, '_', ' ')
  {
    seq(4, i requires 0 <= i < 4 =>
      var disabled := StatusChoices[i] == current;
      Button(StatusChoices[i], disabled, (if disabled then CurrentMark else "") + ReplaceFirst(StatusChoices[i], '_', ' ')))
  }

  /** No button sets an order to CANCELLED, and at most one is disabled. */
  lemma ButtonsNeverCancel(current: string)
    ensures forall i :: 0 <= i < |Buttons(current)| ==> Buttons(current)[i].status != "CANCELLED"
    ensures forall i, j :: 0 <= i < j < |Buttons(current)| ==> !(Buttons(current)[i].disabled && Buttons(current)[j].disabled)
  {
    ChoicesFacts();
  }

  lemma ChoicesFacts()
    ensures forall i :: 0 <= i < |StatusChoices| ==> StatusChoices[i] != "CANCELLED"
    ensures forall i, j :: 0 <= i < j < |StatusChoices| ==> StatusChoices[i] != StatusChoices[j]
  {
    assert StatusChoices[3][1] != "CANCELLED"[1];
  }

  /** The in-progress button reads "IN PROGRESS". */
  lemma InProgressCaption(status: string)
    requires status == "IN_PROGRESS"
    ensures ReplaceFirst(status, '_', ' ') == "IN PROGRESS"
  {
    assert status[2] == '_' && '_' !in status[..2];
    assert status[2 := ' '] == "IN PROGRESS";
  }

  /** `handleStatusChange`: a PATCH of the new status to the order's
      `update_status/` path. */
  function ChangeStatus(id: string, status: string): (e: Effect)
    ensures e == Send(Request(PATCH, "/orders/" + id + "/update_status/", None, Some(JObj([("status", JStr(status))]))))
  {
    UpdateStatusRequest(id, JStr(status));
    Call(Orders, UpdateStatus, id, Some(JStr(status)), "Failed to update order status")
  }

  /** The "Record Payment" button is shown when `order.balance_due > 0`; the
      comparison converts the decimal string to its value. */
  predicate OffersPayment(o: Order) {
    o.balanceDue.Value() > 0.0
  }

  /** An order offers a payment here exactly when the payments page lists
      it among the orders that can be paid. */
  lemma OffersPaymentIffListed(orders: seq<Order>, o: Order)
    requires o in orders
    ensures OffersPayment(o) <==> o in PaymentsPage.UnpaidOrders(orders)
  {
  }

  /** The payment this page records. */
  function PaymentJson(id: string, amount: string, paymentMethod: string, reference: string): Json {
    JObj([("order", JStr(id)), ("amount", JStr(amount)), ("payment_method", JStr(paymentMethod)),
          ("reference_number", JStr(reference))])
  }

  /** `handleAddPayment`: an amount that parses to at most 0 is refused,
      anything else is posted with the order id from the route. */
  function AddPayment(id: string, amount: string, paymentMethod: string, reference: string): (e: Effect)
    ensures NonPositive(amount) ==> e == Alert("Payment amount must be greater than zero")
    ensures !NonPositive(amount) ==>
              e == Send(Request(POST, Base(Payments), None, Some(PaymentJson(id, amount, paymentMethod, reference))))
  {
    if NonPositive(amount) then Alert("Payment amount must be greater than zero")
    else Call(Payments, Create, "", Some(PaymentJson(id, amount, paymentMethod, reference)), "Failed to record payment")
  }

  /** The amount field starts as the order's balance; that amount is
      accepted exactly when the page offers a payment at all. */
  lemma PrefilledAmountAccepted(o: Order, id: string, paymentMethod: string, reference: string)
    ensures AddPayment(id, Render(o.balanceDue), paymentMethod, reference).Send? <==> OffersPayment(o)
  {
    ParseRender(o.balanceDue);
  }

  /** A date cell: "N/A" or a formatted date. */
  datatype DateCell = NotAvailable | Formatted(date: string)

  /** `formatDate` and `formatDateTime`: a missing or empty date shows
      "N/A"; any other is formatted. */
  function FormatDate(date: Option<string>): (r: DateCell)
    ensures r == NotAvailable <==> date.None? || date.value == ""
    ensures r.Formatted? ==> date == Some(r.date)
  {
    match date
    case None => NotAvailable
    case Some(s) => if s == "" then NotAvailable else Formatted(s)
  }
}
