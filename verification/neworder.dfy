/** The new-order form of `NewOrder.jsx`: the client search, the editable
    list of order rows, the running total, and the validation and payload
    of the submit handler. */
module NewOrderPage {
  import opened Wrappers
  import opened Json
  import opened JsText
  import opened JsNumber
  import opened Seqs
  import opened Records
  import opened Api

  /** One row of the item table. `service` is the value of the row's
      select (a service id as text, "" before a choice); `unitPrice` is the
      chosen service's price string as the server sent it, `None` while it
      is still the number 0. */
  datatype Item = Item(service: string, quantity: real, unitPrice: Option<Decimal>, serviceName: string)

  /** The number `unit_price` stands for in `quantity * unit_price`: a
      price string converts to its decimal value, the initial 0 to 0. */
  function PriceOf(it: Item): real {
    match it.unitPrice
    case Some(d) => d.Value()
    case None => 0.0
  }

  /** The row a new order starts with and `addOrderItem` appends. */
  const BlankItem := Item("", 1.0, None, "")

  /** The text the client search looks in: first name, last name and
      phone, separated by spaces. */
  function SearchText(c: Client): string {
    c.firstName + " " + c.lastName + " " + c.phone
  }

  predicate Matches(term: string, c: Client) {
    Includes(Lower(SearchText(c)), Lower(term))
  }

  lemma EmptyTermMatches(s: string)
    ensures Includes(s, "")
  {
    assert s[..0] == "";
  }

  /** `filteredClients`: the clients whose search text contains the search
      term, ignoring case, in their original order; an empty term keeps
      every client. */
  function FilteredClients(clients: seq<Client>, term: string): (r: seq<Client>)
    ensures forall i :: 0 <= i < |r| ==> r[i] in clients && Matches(term, r[i])
    ensures forall i :: 0 <= i < |clients| && Matches(term, clients[i]) ==> clients[i] in r
    ensures term == "" ==> r == clients
    ensures |clients| == 1 ==> r == if Matches(term, clients[0]) then clients else []
  {
    var p := (c: Client) => Matches(term, c);
    FilterSingle(p, clients);
    if term == "" then
      assert forall i :: 0 <= i < |clients| ==> p(clients[i]) by {
        forall i | 0 <= i < |clients| ensures p(clients[i]) {
          EmptyTermMatches(Lower(SearchText(clients[i])));
        }
      }
      FilterKeepsAll(p, clients);
      Filter(p, clients)
    else Filter(p, clients)
  }

  /** The clients shown for two concatenated lists are those shown for
      each, concatenated: the search keeps the fetched order and repeats
      nothing. */
  lemma FilteredClientsAppend(a: seq<Client>, b: seq<Client>, term: string)
    ensures FilteredClients(a + b, term) == FilteredClients(a, term) + FilteredClients(b, term)
  {
    FilterAppend((c: Client) => Matches(term, c), a, b);
  }

  /** The search does not care how the term is capitalised. */
  lemma SearchIgnoresCase(clients: seq<Client>, term: string)
    ensures FilteredClients(clients, Upper(term)) == FilteredClients(clients, term)
    ensures FilteredClients(clients, Lower(term)) == FilteredClients(clients, term)
  {
    LowerOfUpper(term);
    LowerOfLower(term);
    FilterSame((c: Client) => Matches(Upper(term), c), (c: Client) => Matches(term, c), clients);
    FilterSame((c: Client) => Matches(Lower(term), c), (c: Client) => Matches(term, c), clients);
  }

  lemma LowerOfLower(s: string)
    ensures Lower(Lower(s)) == Lower(s)
  {
    forall i | 0 <= i < |s| ensures Lower(Lower(s))[i] == Lower(s)[i] {
      var c := s[i];
      if 'A' <= c <= 'Z' {
        assert LowerChar(c) as int == c as int + 32;
      }
    }
  }

  /** The service a row's select names: the first service whose id equals
      `parseInt` of the select's value. */
  function ServiceFor(services: seq<Service>, serviceId: string): (r: Option<Service>)
    ensures r.Some? <==> exists k :: 0 <= k < |services| && ParseInt(serviceId) == Some(services[k].id as int)
    ensures r.Some? ==>
              exists k :: 0 <= k < |services| && services[k] == r.value
                && ParseInt(serviceId) == Some(r.value.id as int)
                && forall j :: 0 <= j < k ==> ParseInt(serviceId) != Some(services[j].id as int)
  {
    match Find((s: Service) => ParseInt(serviceId) == Some(s.id as int), services)
    case Some(k) => Some(services[k])
    case None => None
  }

  /** `handleServiceChange`: row `index` takes the chosen id, and the price
      and name of the service it names, or 0 and "" when no service has
      that id. No other row and not the quantity changes. */
  function ChangeService(items: seq<Item>, index: nat, serviceId: string, services: seq<Service>): (r: seq<Item>)
    requires index < |items|
    ensures |r| == |items|
    ensures forall j :: 0 <= j < |items| && j != index ==> r[j] == items[j]
    ensures r[index].service == serviceId && r[index].quantity == items[index].quantity
    ensures match ServiceFor(services, serviceId)
            case Some(s) => r[index].unitPrice == Some(s.price) && r[index].serviceName == s.name
            case None => r[index].unitPrice == None && r[index].serviceName == ""
  {
    var chosen := ServiceFor(services, serviceId);
    items[index := items[index].(
      service := serviceId,
      unitPrice := if chosen.Some? then Some(chosen.value.price) else None,
      serviceName := if chosen.Some? then chosen.value.name else "")]
  }

  /** `handleQuantityChange`: row `index` takes `parseFloat(text) || 0`, so
      text that does not read as a non-zero number stores 0. */
  function ChangeQuantity(items: seq<Item>, index: nat, text: string): (r: seq<Item>)
    requires index < |items|
    ensures |r| == |items|
    ensures forall j :: 0 <= j < |items| && j != index ==> r[j] == items[j]
    ensures r[index] == items[index].(quantity := r[index].quantity)
    ensures (ParseFloat(text).Some? && ParseFloat(text).value != 0.0) ==> r[index].quantity == ParseFloat(text).value
    ensures (ParseFloat(text).None? || ParseFloat(text).value == 0.0) ==> r[index].quantity == 0.0
  {
    items[index := items[index].(quantity := OrZero(ParseFloat(text)))]
  }

  /** `addOrderItem`: one blank row at the end, the others untouched. */
  function AddItem(items: seq<Item>): (r: seq<Item>)
    ensures |r| == |items| + 1
    ensures r[..|items|] == items && r[|items|] == BlankItem
  {
    items + [BlankItem]
  }

  /** `removeOrderItem`: drops the row at `index`, keeping the others in
      order, unless it is the only row. */
  function RemoveItem(items: seq<Item>, index: nat): (r: seq<Item>)
    ensures |items| <= 1 || index >= |items| ==> r == items
    ensures |items| > 1 && index < |items| ==>
              |r| == |items| - 1
              && (forall j :: 0 <= j < index ==> r[j] == items[j])
              && (forall j :: index <= j < |r| ==> r[j] == items[j + 1])
    ensures |items| >= 1 ==> |r| >= 1
  {
    if |items| > 1 && index < |items| then items[..index] + items[index + 1..] else items
  }

  /** Adding a row and removing it again gives the list back. */
  lemma RemoveUndoesAdd(items: seq<Item>)
    requires |items| >= 1
    ensures RemoveItem(AddItem(items), |items|) == items
  {
    assert AddItem(items)[..|items|] == items;
  }

  /** One row's contribution to the total. */
  function Subtotal(it: Item): real {
    it.quantity * PriceOf(it)
  }

  /** `calculateTotal`: the sum of quantity times unit price over the rows. */
  function Total(items: seq<Item>): (t: real)
    ensures |items| == 0 ==> t == 0.0
    ensures |items| == 1 ==> t == items[0].quantity * PriceOf(items[0])
  {
    SumSingle(Subtotal, items);
    Sum(Subtotal, items)
  }

  /** Rows with non-negative quantity and price total at least 0, and each
      row's subtotal is at most the total. */
  lemma TotalBoundsRows(items: seq<Item>, k: nat)
    requires forall i :: 0 <= i < |items| ==> items[i].quantity >= 0.0 && PriceOf(items[i]) >= 0.0
    requires k < |items|
    ensures 0.0 <= Subtotal(items[k]) <= Total(items)
  {
    forall i | 0 <= i < |items| ensures Subtotal(items[i]) >= 0.0 {
      NonNegativeProduct(items[i].quantity, PriceOf(items[i]));
    }
    SumBoundsEachTerm(Subtotal, items, k);
  }

  lemma NonNegativeProduct(a: real, b: real)
    requires a >= 0.0 && b >= 0.0
    ensures a * b >= 0.0
  {
  }

  /** A blank row adds nothing to the total. */
  lemma TotalAfterAdd(items: seq<Item>)
    ensures Total(AddItem(items)) == Total(items)
  {
    SumAppend(Subtotal, items, [BlankItem]);
  }

  /** Removing a row takes exactly its subtotal off the total. */
  lemma TotalAfterRemove(items: seq<Item>, index: nat)
    requires 1 < |items| && index < |items|
    ensures Total(RemoveItem(items, index)) == Total(items) - Subtotal(items[index])
  {
    SumRemove(Subtotal, items, index);
  }

  /** Changing a row's quantity changes the total by exactly the change in
      that row's subtotal. */
  lemma TotalAfterQuantity(items: seq<Item>, index: nat, text: string)
    requires index < |items|
    ensures var r := ChangeQuantity(items, index, text);
            Total(r) == Total(items) - Subtotal(items[index]) + Subtotal(r[index])
  {
    var r := ChangeQuantity(items, index, text);
    assert r == items[index := r[index]];
    SumUpdate(Subtotal, items, index, r[index]);
  }

  /** The order fields of the form. `client` is the chosen client's id, or
      `None` while it is still "". */
  datatype Form = Form(
    client: Option<nat>, status: string, pickupDate: string, dueDate: string,
    assignedDriver: string, notes: string)

  /** `!formData.client` is false only for a chosen client with a non-zero
      id. */
  predicate ClientChosen(f: Form) {
    f.client.Some? && f.client.value != 0
  }

  /** A row is sent when it has a service and a positive quantity. */
  predicate Valid(it: Item) {
    it.service != "" && it.quantity > 0.0
  }

  function ValidItems(items: seq<Item>): (r: seq<Item>)
    ensures |r| == 0 <==> forall i :: 0 <= i < |items| ==> !Valid(items[i])
    ensures |items| == 1 ==> r == if Valid(items[0]) then items else []
  {
    FilterEmpty(Valid, items);
    FilterSingle(Valid, items);
    Filter(Valid, items)
  }

  /** The valid rows of two lists are the valid rows of the first followed
      by those of the second: order is kept, and each row appears once for
      each time it is in the list. */
  lemma ValidItemsAppend(a: seq<Item>, b: seq<Item>)
    ensures ValidItems(a + b) == ValidItems(a) + ValidItems(b)
  {
    FilterAppend(Valid, a, b);
  }

  /** The JSON form of `unit_price`: the price string, or the number 0. */
  function PriceJson(p: Option<Decimal>): Json {
    match p
    case Some(d) => JStr(Render(d))
    case None => JNum(0.0)
  }

  /** A row as the payload carries it: service, quantity and unit price
      only. */
  function ItemJson(it: Item): Json {
    JObj([("service", JStr(it.service)), ("quantity", JNum(it.quantity)), ("unit_price", PriceJson(it.unitPrice))])
  }

  function ClientJson(client: Option<nat>): Json {
    match client
    case Some(id) => JNum(id as real)
    case None => JStr("")
  }

  /** The order `handleSubmit` creates. */
  function Payload(f: Form, items: seq<Item>): Json {
    OrderJson(f, Map(ItemJson, ValidItems(items)))
  }

  /** The order object around the array of sent rows. */
  function OrderJson(f: Form, sent: seq<Json>): Json {
    JObj([
      ("client", ClientJson(f.client)),
      ("status", JStr(f.status)),
      ("pickup_date", TextOrNull(f.pickupDate)),
      ("due_date", TextOrNull(f.dueDate)),
      ("assigned_driver", TextOrNull(f.assignedDriver)),
      ("notes", JStr(f.notes)),
      ("items", JArr(sent))
    ])
  }

  /** `handleSubmit`: refuses without a client, then refuses without a valid
      row, and otherwise creates the order. */
  function Submit(f: Form, items: seq<Item>): (e: Effect)
    ensures !ClientChosen(f) ==> e == Alert("Please select a client")
    ensures (ClientChosen(f) && forall i :: 0 <= i < |items| ==> !Valid(items[i])) ==>
              e == Alert("Please add at least one valid order item")
    ensures e.Send? <==> ClientChosen(f) && exists i :: 0 <= i < |items| && Valid(items[i])
    ensures e.Send? ==> e.request == Request(POST, Base(Orders), None, Some(Payload(f, items)))
  {
    if !ClientChosen(f) then Alert("Please select a client")
    else if |ValidItems(items)| == 0 then Alert("Please add at least one valid order item")
    else Call(Orders, Create, "", Some(Payload(f, items)), "Failed to create order. Please try again.")
  }

  /** The payload's items are the valid rows, in order, each reduced to its
      three fields; every one has a service and a positive quantity. */
  lemma PayloadItems(f: Form, items: seq<Item>, k: nat)
    requires k < |ValidItems(items)|
    ensures Lookup(Payload(f, items).members, "items") == Some(JArr(Map(ItemJson, ValidItems(items))))
    ensures var sent := ItemJson(ValidItems(items)[k]);
            |sent.members| == 3
            && Lookup(sent.members, "service") == Some(JStr(ValidItems(items)[k].service))
            && Lookup(sent.members, "quantity") == Some(JNum(ValidItems(items)[k].quantity))
            && Lookup(sent.members, "unit_price") == Some(PriceJson(ValidItems(items)[k].unitPrice))
            && ValidItems(items)[k].service != "" && ValidItems(items)[k].quantity > 0.0
  {
    assert Valid(ValidItems(items)[k]);
    var row := ItemJson(ValidItems(items)[k]);
    assert Lookup(row.members, "unit_price") == Some(PriceJson(ValidItems(items)[k].unitPrice)) by {
      LookupAt(row.members, 2, "unit_price");
    }
    var sent := Map(ItemJson, ValidItems(items));
    OrderNamesDistinct(f, sent);
    LookupDistinct(OrderJson(f, sent).members, 6);
  }

  /** Empty dates and driver are sent as `null`, anything else as typed. */
  lemma EmptyFieldsBecomeNull(f: Form, items: seq<Item>)
    ensures Lookup(Payload(f, items).members, "pickup_date") == Some(TextOrNull(f.pickupDate))
    ensures Lookup(Payload(f, items).members, "due_date") == Some(TextOrNull(f.dueDate))
    ensures Lookup(Payload(f, items).members, "assigned_driver") == Some(TextOrNull(f.assignedDriver))
  {
    OrderFields(f, Map(ItemJson, ValidItems(items)));
  }

  lemma OrderFields(f: Form, sent: seq<Json>)
    ensures Lookup(OrderJson(f, sent).members, "pickup_date") == Some(TextOrNull(f.pickupDate))
    ensures Lookup(OrderJson(f, sent).members, "due_date") == Some(TextOrNull(f.dueDate))
    ensures Lookup(OrderJson(f, sent).members, "assigned_driver") == Some(TextOrNull(f.assignedDriver))
  {
    var m := OrderJson(f, sent).members;
    OrderNamesDistinct(f, sent);
    LookupDistinct(m, 2);
    LookupDistinct(m, 3);
    LookupDistinct(m, 4);
  }

  lemma OrderNamesDistinct(f: Form, sent: seq<Json>)
    ensures DistinctNames(OrderJson(f, sent).members)
  {
    var m := OrderJson(f, sent).members;
    assert |m[0].0| == 6 && |m[1].0| == 6 && |m[2].0| == 11 && |m[3].0| == 8;
    assert |m[4].0| == 15 && |m[5].0| == 5 && |m[6].0| == 5;
    assert m[0].0[0] != m[1].0[0] && m[5].0[0] != m[6].0[0];
  }
}
