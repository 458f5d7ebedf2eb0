/** The `api` object of `src/utils/api.js`: every endpoint as a resource,
    an action, a verb, a path template and the shape of what it sends.
    A call is recorded as the request it would make; the transport is not
    modelled. */
module Api {
  import opened Wrappers
  import opened Json
  import opened JsText

  datatype Verb = GET | POST | PUT | PATCH | DELETE

  /** What one call sends: verb, path below the API base URL, query
      parameters and JSON body (`None` when axios sends none). */
  datatype Request = Request(verb: Verb, path: string, params: Option<Json>, body: Option<Json>)

  datatype Resource = Auth | Clients | Services | Orders | Payments | Inventory | Staff

  datatype Action =
    | Login | Logout | Register | CheckSession
    | List | Create | Get | Update | Delete
    | ClientOrders | UpdateStatus | Recalculate | OutstandingDemands | SalesReport
    | Recent | LowStock | Restock | Consume | Drivers

  /** The property name of each resource on the `api` object. */
  function ResourceName(r: Resource): string {
    match r
    case Auth => "auth"
    case Clients => "clients"
    case Services => "services"
    case Orders => "orders"
    case Payments => "payments"
    case Inventory => "inventory"
    case Staff => "staff"
  }

  /** The actions each resource defines. Any other property of a resource
      is `undefined`. */
  function ActionsOf(r: Resource): set<Action> {
    match r
    case Auth => {Login, Logout, Register, CheckSession}
    case Clients => {List, Create, Get, Update, Delete, ClientOrders}
    case Services => {List, Create, Get, Update, Delete}
    case Orders => {List, Create, Get, Update, UpdateStatus, Recalculate, OutstandingDemands, SalesReport}
    case Payments => {List, Create, Get, Recent}
    case Inventory => {List, Create, Get, Update, LowStock, Restock, Consume}
    case Staff => {List, Drivers}
  }

  predicate Defined(r: Resource, a: Action) {
    a in ActionsOf(r)
  }

  /** The collection path of a resource, `/clients/`. */
  function Base(r: Resource): (p: string)
    ensures |p| >= 2 && p[0] == '/' && p[|p| - 1] == '/'
  {
    "/" + ResourceName(r) + "/"
  }

  /** The path of one record, `/clients/{id}/`. */
  function Item(r: Resource, id: string): (p: string)
    ensures |p| >= 3 && p[0] == '/' && p[|p| - 1] == '/'
  {
    Base(r) + id + "/"
  }

  /** A path below one record: the record's path followed by `suffix`. */
  function Below(r: Resource, id: string, suffix: string): (p: string)
    requires |suffix| > 0 ==> suffix[|suffix| - 1] == '/'
    ensures StartsWith(p, Item(r, id))
    ensures |suffix| == 0 ==> p == Item(r, id)
    ensures |p| >= 3 && p[0] == '/' && p[|p| - 1] == '/'
  {
    var p := Item(r, id) + suffix;
    assert p[..|Item(r, id)|] == Item(r, id);
    p
  }

  /** The actions whose path names one record. */
  predicate TakesId(a: Action) {
    a in {Get, Update, Delete, ClientOrders, UpdateStatus, Recalculate, Restock, Consume}
  }

  /** The path each endpoint requests, below the API base URL; `id` is the
      record id as it is written into the path. */
  function PathOf(r: Resource, a: Action, id: string): (p: string)
    ensures |p| >= 2 && p[0] == '/' && p[|p| - 1] == '/'
    ensures TakesId(a) ==> StartsWith(p, Item(r, id))
  {
    match a
    case Login => "/auth/login/"
    case Logout => "/auth/logout/"
    case Register => "/register/"
    case CheckSession => "/staff/drivers/"
    case List => Base(r)
    case Create => Base(r)
    case Get => Below(r, id, "")
    case Update => Below(r, id, "")
    case Delete => Below(r, id, "")
    case ClientOrders => Below(r, id, "orders/")
    case UpdateStatus => Below(r, id, "update_status/")
    case Recalculate => Below(r, id, "recalculate_total/")
    case OutstandingDemands => Base(r) + "outstanding_demands/"
    case SalesReport => Base(r) + "sales_report/"
    case Recent => Base(r) + "recent/"
    case LowStock => Base(r) + "low_stock/"
    case Restock => Below(r, id, "restock/")
    case Consume => Below(r, id, "consume/")
    case Drivers => "/staff/drivers/"
  }

  /** The request one call makes (what the endpoint would send; whether the
      resource defines the action is `Defined`'s business). `arg` is the
      call's other argument (`params`, `data`, `credentials`, `status` or
      `quantity`), `None` when it is not passed. */
  function ToRequest(r: Resource, a: Action, id: string, arg: Option<Json>): (q: Request)
    ensures q.path == PathOf(r, a, id)
    ensures q.verb == VerbOf(a)
    ensures q.verb == GET ==> q.body.None?
    ensures q.verb != GET ==> q.params.None?
  {
    var path := PathOf(r, a, id);
    match a
    case Login => Request(POST, path, None, arg)
    case Logout => Request(POST, path, None, None)
    case Register => Request(POST, path, None, arg)
    case CheckSession => Request(GET, path, None, None)
    case List => Request(GET, path, arg, None)
    case Create => Request(POST, path, None, arg)
    case Get => Request(GET, path, None, None)
    case Update => Request(PUT, path, None, arg)
    case Delete => Request(DELETE, path, None, None)
    case ClientOrders => Request(GET, path, None, None)
    case UpdateStatus => Request(PATCH, path, None, Some(Field("status", arg)))
    case Recalculate => Request(POST, path, None, None)
    case OutstandingDemands => Request(GET, path, None, None)
    case SalesReport => Request(GET, path, arg, None)
    case Recent => Request(GET, path, None, None)
    case LowStock => Request(GET, path, None, None)
    case Restock => Request(POST, path, None, Some(Field("quantity", arg)))
    case Consume => Request(POST, path, None, Some(Field("quantity", arg)))
    case Drivers => Request(GET, path, None, None)
  }

  /** The actions that only read the server's state. */
  predicate Reads(a: Action) {
    a in {CheckSession, List, Get, ClientOrders, OutstandingDemands, SalesReport, Recent, LowStock, Drivers}
  }

  /** The verb each action is sent with. */
  function VerbOf(a: Action): Verb {
    match a
    case Login => POST
    case Logout => POST
    case Register => POST
    case CheckSession => GET
    case List => GET
    case Create => POST
    case Get => GET
    case Update => PUT
    case Delete => DELETE
    case ClientOrders => GET
    case UpdateStatus => PATCH
    case Recalculate => POST
    case OutstandingDemands => GET
    case SalesReport => GET
    case Recent => GET
    case LowStock => GET
    case Restock => POST
    case Consume => POST
    case Drivers => GET
  }

  /** The verb classification of the endpoints: the reading actions are GET,
      `update` is PUT, `delete` is DELETE, `updateStatus` is PATCH and every
      other action is a POST. */
  lemma VerbClassification(a: Action)
    ensures VerbOf(a) == GET <==> Reads(a)
    ensures VerbOf(a) == PUT <==> a == Update
    ensures VerbOf(a) == DELETE <==> a == Delete
    ensures VerbOf(a) == PATCH <==> a == UpdateStatus
    ensures VerbOf(a) == POST <==> a in {Login, Logout, Register, Create, Recalculate, Restock, Consume}
  {
  }

  /** A call through the `api` object: the request of a defined endpoint,
      or `None` for an undefined one, whose call throws a `TypeError` before
      anything is sent. */
  function Invoke(r: Resource, a: Action, id: string, arg: Option<Json>): (q: Option<Request>)
    ensures q.Some? <==> Defined(r, a)
    ensures q.Some? ==> q.value == ToRequest(r, a, id, arg)
  {
    if Defined(r, a) then Some(ToRequest(r, a, id, arg)) else None
  }

  /** The resources that define `delete`, `list` and `create`. */
  lemma DefinedCollections(r: Resource)
    ensures Defined(r, Delete) <==> r == Clients || r == Services
    ensures Defined(r, List) <==> r != Auth
    ensures Defined(r, Create) <==> r != Auth && r != Staff
  {
    match r {
      case Auth =>
      case Clients =>
      case Services =>
      case Orders =>
      case Payments =>
      case Inventory =>
      case Staff =>
    }
  }

  /** Only clients and services can be deleted: orders, payments, inventory,
      staff and auth have no `delete`. */
  lemma DeleteEndpoints(r: Resource, id: string)
    ensures Invoke(r, Delete, id, None).Some? <==> r == Clients || r == Services
  {
    DefinedCollections(r);
  }

  /** Every resource but `auth` can be listed, and every resource but
      `auth` and `staff` can be created. */
  lemma CollectionEndpoints(r: Resource, arg: Option<Json>)
    ensures Invoke(r, List, "", arg).Some? <==> r != Auth
    ensures Invoke(r, Create, "", arg).Some? <==> r != Auth && r != Staff
  {
    DefinedCollections(r);
  }

  /** `updateStatus` is a PATCH of `{status}` to the order's
      `update_status/` path. */
  lemma UpdateStatusRequest(id: string, status: Json)
    ensures ToRequest(Orders, UpdateStatus, id, Some(status))
         == Request(PATCH, "/orders/" + id + "/update_status/", None, Some(JObj([("status", status)])))
  {
    ItemPath(Orders, id, "update_status/");
    assert Base(Orders) == "/orders/";
    assert "/" + "update_status/" == "/update_status/";
  }

  /** `restock` wraps whatever it is given as `{quantity: arg}` and POSTs it
      to the item's `restock/` path. */
  lemma RestockRequest(id: string, quantity: Json)
    ensures ToRequest(Inventory, Restock, id, Some(quantity))
         == Request(POST, "/inventory/" + id + "/restock/", None, Some(JObj([("quantity", quantity)])))
  {
    ItemPath(Inventory, id, "restock/");
    assert Base(Inventory) == "/inventory/";
    assert "/" + "restock/" == "/restock/";
  }

  /** A path below one record regroups as the collection path, the id and
      the rest. */
  lemma ItemPath(r: Resource, id: string, suffix: string)
    ensures Item(r, id) + suffix == Base(r) + id + ("/" + suffix)
  {
  }

  /** The session check is the drivers listing under another name. */
  lemma CheckSessionIsDrivers(id: string, arg: Option<Json>, id2: string, arg2: Option<Json>)
    ensures ToRequest(Auth, CheckSession, id, arg) == ToRequest(Staff, Drivers, id2, arg2)
  {
  }

  /** Distinct ids give distinct paths for the same record endpoint. */
  lemma ItemPathsDistinct(r: Resource, a: Action, id1: string, id2: string, arg: Option<Json>)
    requires Defined(r, a) && TakesId(a) && id1 != id2
    requires '/' !in id1 && '/' !in id2
    ensures ToRequest(r, a, id1, arg).path != ToRequest(r, a, id2, arg).path
  {
    var b := Base(r);
    var p1, p2 := ToRequest(r, a, id1, arg).path, ToRequest(r, a, id2, arg).path;
    assert StartsWith(p1, b + id1 + "/") && StartsWith(p2, b + id2 + "/");
    if p1 == p2 {
      SlashedIdUnique(b, id1, id2, p1);
    }
  }

  /** The id between the collection path and the next `/` is determined by
      the path. */
  lemma SlashedIdUnique(b: string, id1: string, id2: string, p: string)
    requires '/' !in id1 && '/' !in id2
    requires StartsWith(p, b + id1 + "/") && StartsWith(p, b + id2 + "/")
    ensures id1 == id2
  {
    SlashAfterId(b, id1, p);
    SlashAfterId(b, id2, p);
    assert |id1| == |id2|;
    assert id1 == p[|b|..|b| + |id1|] == id2;
  }

  /** In a path that starts with `b + id + "/"`, the first `/` after `b`
      ends the id. */
  lemma SlashAfterId(b: string, id: string, p: string)
    requires '/' !in id
    requires StartsWith(p, b + id + "/")
    ensures |b| + |id| < |p| && p[|b| + |id|] == '/'
    ensures forall k :: |b| <= k < |b| + |id| ==> p[k] != '/'
    ensures p[|b|..|b| + |id|] == id
  {
    var q := b + id + "/";
    assert p[..|q|] == q;
    forall k | |b| <= k < |b| + |id| ensures p[k] == id[k - |b|] {
      assert p[k] == q[k];
    }
    assert p[|b| + |id|] == q[|b| + |id|];
  }
}
