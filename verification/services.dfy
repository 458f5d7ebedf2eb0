/** The service catalogue page of `ServicesList.jsx`: the service form, the
    price check of its submit handler, deletion and the active toggle. */
module ServicesPage {
  import opened Wrappers
  import opened Json
  import opened JsNumber
  import opened Records
  import opened Api

  /** The service form; the price is text as the input holds it. */
  datatype Form = Form(name: string, description: string, price: string, unit: string, isActive: bool)

  /** `handleAddNew`: an empty, active service priced per piece. */
  function NewForm(): (f: Form)
    ensures f.unit == "piece" && f.isActive
    ensures f.name == "" && f.description == "" && f.price == ""
  {
    Form("", "", "", "piece", true)
  }

  /** `handleEdit`: the service's fields, with a missing description as "". */
  function EditForm(s: Service): (f: Form)
    ensures f.name == s.name && f.unit == s.unit && f.isActive == s.isActive
    ensures s.description.None? ==> f.description == ""
    ensures s.description.Some? ==> f.description == s.description.value
    ensures ParseFloat(f.price) == Some(s.price.Value())
  {
    ParseRender(s.price);
    Form(s.name, s.description.GetOr(""), Render(s.price), s.unit, s.isActive)
  }

  function FormJson(f: Form): Json {
    JObj([
      ("name", JStr(f.name)), ("description", JStr(f.description)), ("price", JStr(f.price)),
      ("unit", JStr(f.unit)), ("is_active", JBool(f.isActive))
    ])
  }

  /** `handleSubmit`: a price that parses to at most 0 is refused; otherwise
      the form is PUT to the edited service, or POSTed when adding. */
  function Submit(f: Form, editing: Option<Service>): (e: Effect)
    ensures NonPositive(f.price) ==> e == Alert("Price must be greater than zero")
    ensures !NonPositive(f.price) ==> e.Send? && e.request.body == Some(FormJson(f))
    ensures !NonPositive(f.price) && editing.Some? ==>
              e.request.verb == PUT && e.request.path == Item(Services, NatToString(editing.value.id))
    ensures !NonPositive(f.price) && editing.None? ==> e.request.verb == POST && e.request.path == Base(Services)
  {
    Save(f, NonPositive(f.price), editing)
  }

  /** The submit handler once the price check has been decided. */
  function Save(f: Form, refused: bool, editing: Option<Service>): (e: Effect)
    ensures refused ==> e == Alert("Price must be greater than zero")
    ensures !refused ==> e.Send? && e.request.body == Some(FormJson(f))
    ensures !refused && editing.Some? ==>
              e.request.verb == PUT && e.request.path == Item(Services, NatToString(editing.value.id))
    ensures !refused && editing.None? ==> e.request.verb == POST && e.request.path == Base(Services)
  {
    if refused then Alert("Price must be greater than zero")
    else
      match editing
      case Some(s) => Call(Services, Update, NatToString(s.id), Some(FormJson(f)), "Failed to save service")
      case None => Call(Services, Create, "", Some(FormJson(f)), "Failed to save service")
  }

  /** Re-submitting an unchanged edit form of a service with a positive
      price is accepted. */
  lemma EditedPriceAccepted(s: Service)
    requires s.price.Value() > 0.0
    ensures Submit(EditForm(s), Some(s)).Send?
  {
  }

  /** `handleDelete`: after confirmation, a DELETE of the service's path. */
  function DeleteService(id: nat, confirmed: bool): (e: Effect)
    ensures !confirmed ==> e == Stay
    ensures confirmed ==> e == Send(Request(DELETE, Item(Services, NatToString(id)), None, None))
  {
    if !confirmed then Stay
    else Call(Services, Delete, NatToString(id), None, "Failed to delete service")
  }

  /** A service record as the page sends it back: the six fields the page
      reads. Any further fields the server sends are not modelled. */
  function ServiceJson(s: Service): Json {
    JObj([
      ("id", JNum(s.id as real)), ("name", JStr(s.name)),
      ("description", match s.description case Some(d) => JStr(d) case None => JNull),
      ("price", JStr(Render(s.price))), ("unit", JStr(s.unit)), ("is_active", JBool(s.isActive))
    ])
  }

  /** `{...service, is_active: !service.is_active}`. */
  function Toggled(s: Service): (r: Service)
    ensures r.isActive == !s.isActive
    ensures r.(isActive := s.isActive) == s
  {
    s.(isActive := !s.isActive)
  }

  /** `toggleActive`: the whole service, activity flipped, PUT back to its
      path. */
  function ToggleActive(s: Service): (e: Effect)
    ensures e == Send(Request(PUT, Item(Services, NatToString(s.id)), None, Some(ServiceJson(Toggled(s)))))
  {
    Call(Services, Update, NatToString(s.id), Some(ServiceJson(Toggled(s))), "Failed to update service status")
  }

  /** Toggling twice gives the service back. */
  lemma ToggleTwice(s: Service)
    ensures Toggled(Toggled(s)) == s
  {
  }

  /** The sent record differs from the received one in `is_active` only. */
  lemma ToggleChangesOnlyActive(s: Service, key: string)
    ensures Lookup(ServiceJson(Toggled(s)).members, "is_active") == Some(JBool(!s.isActive))
    ensures key != "is_active" ==> Lookup(ServiceJson(Toggled(s)).members, key) == Lookup(ServiceJson(s).members, key)
  {
    var a, b := ServiceJson(Toggled(s)).members, ServiceJson(s).members;
    assert Lookup(a, "is_active") == Some(JBool(!s.isActive)) by {
      ServiceNamesDistinct(Toggled(s));
      LookupDistinct(a, 5);
    }
    if key != "is_active" {
      assert Lookup(a, key) == Lookup(b, key) by {
        LookupOtherKeys(a, b, "is_active", key);
      }
    }
  }

  /** The six member names of a sent service are pairwise different. */
  lemma ServiceNamesDistinct(s: Service)
    ensures DistinctNames(ServiceJson(s).members)
  {
    var m := ServiceJson(s).members;
    assert |m[0].0| == 2 && |m[1].0| == 4 && |m[2].0| == 11 && |m[3].0| == 5 && |m[4].0| == 4 && |m[5].0| == 9;
    assert m[1].0[0] != m[4].0[0];
  }
}
