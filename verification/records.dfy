/** The server records the pages read, with the fields the pages use.
    Money and stock amounts arrive as decimal strings and are kept as
    `Decimal`; fields the server computes (`balance_due`,
    `needs_reorder`) are taken as given. */
module Records {
  import opened Wrappers
  import opened JsNumber
  import Json
  import Api

  datatype Client = Client(id: nat, firstName: string, lastName: string, phone: string)

  datatype Service = Service(
    id: nat, name: string, description: Option<string>, price: Decimal, unit: string, isActive: bool)

  /** An order; `amountPaid` is `None` when the field is `null` or absent. */
  datatype Order = Order(id: nat, status: string, balanceDue: Decimal, amountPaid: Option<Decimal>)

  datatype Payment = Payment(amount: Decimal, paymentMethod: string)

  datatype InventoryItem = InventoryItem(
    id: nat, name: string, category: string, quantity: Decimal, unit: string,
    reorderLevel: Decimal, costPerUnit: Option<Decimal>, needsReorder: bool)

  /** What a page handler does in answer to one user action. */
  datatype Effect =
    | Send(request: Api.Request)  // an `api` call is issued; its outcome is not modelled
    | Alert(message: string)      // an alert is shown and the handler returns
    | Stay                        // the handler returns doing nothing, e.g. after a declined confirm
    | Fault                       // an exception escapes the handler before anything is sent

  /** An `api` call made inside a `try` whose `catch` alerts `failure`:
      calling an endpoint the `api` object does not define throws a
      `TypeError`, which that `catch` turns into the alert. */
  function Call(r: Api.Resource, a: Api.Action, id: string, arg: Option<Json.Json>, failure: string): (e: Effect)
    ensures e.Send? <==> Api.Defined(r, a)
    ensures e.Send? ==> e.request == Api.ToRequest(r, a, id, arg)
    ensures !e.Send? ==> e == Alert(failure)
  {
    match Api.Invoke(r, a, id, arg)
    case Some(q) => Send(q)
    case None => Alert(failure)
  }
}
