/** The stock page of `Inventory.jsx`: the category filter, the low-stock
    count, the item form, the restock dialog and the delete action. */
module InventoryPage {
  import opened Wrappers
  import opened Json
  import opened JsText
  import opened JsNumber
  import opened Seqs
  import opened Records
  import opened Api

  /** The category values of the form's select. */
  const Categories: seq<string> := ["DETERGENT", "SOFTENER", "BAG", "HANGER", "STARCH", "OTHER"]

  /** `filteredItems`: every item when no category is chosen, otherwise
      exactly the items of that category, in order. */
  function FilteredItems(items: seq<InventoryItem>, category: string): (r: seq<InventoryItem>)
    ensures category == "" ==> r == items
    ensures category != "" ==> forall i :: 0 <= i < |r| ==> r[i] in items && r[i].category == category
    ensures category != "" ==> forall i :: 0 <= i < |items| && items[i].category == category ==> items[i] in r
    ensures |items| == 1 ==> r == if category == "" || items[0].category == category then items else []
  {
    if category == "" then items
    else
      var inCategory := (it: InventoryItem) => it.category == category;
      FilterSingle(inCategory, items);
      Filter(inCategory, items)
  }

  /** The view of two lists is the view of the first followed by the view
      of the second: order is kept, and each item appears as often as it was
      fetched. */
  lemma FilteredItemsAppend(a: seq<InventoryItem>, b: seq<InventoryItem>, category: string)
    ensures FilteredItems(a + b, category) == FilteredItems(a, category) + FilteredItems(b, category)
  {
    if category != "" {
      FilterAppend((it: InventoryItem) => it.category == category, a, b);
    }
  }

  predicate NeedsReorder(it: InventoryItem) {
    it.needsReorder
  }

  /** `lowStockCount`: the items flagged for reorder, counted over the
      whole list whatever category is shown. */
  function LowStockCount(items: seq<InventoryItem>): (n: nat)
    ensures n <= |items|
    ensures n == 0 <==> forall i :: 0 <= i < |items| ==> !items[i].needsReorder
    ensures |items| == 1 ==> n == if items[0].needsReorder then 1 else 0
  {
    FilterEmpty(NeedsReorder, items);
    FilterSingle(NeedsReorder, items);
    |Filter(NeedsReorder, items)|
  }

  /** The count over two lists is the sum of their counts. */
  lemma LowStockCountAppend(a: seq<InventoryItem>, b: seq<InventoryItem>)
    ensures LowStockCount(a + b) == LowStockCount(a) + LowStockCount(b)
  {
    FilterAppend(NeedsReorder, a, b);
  }

  /** The count does not depend on the category filter. */
  lemma LowStockIgnoresFilter(items: seq<InventoryItem>, category: string)
    ensures LowStockCount(items) >= |Filter(NeedsReorder, FilteredItems(items, category))|
  {
    if category != "" {
      FilterOfFilter(items, category);
    }
  }

  lemma {:induction false} FilterOfFilter(items: seq<InventoryItem>, category: string)
    ensures |Filter(NeedsReorder, Filter((it: InventoryItem) => it.category == category, items))|
         <= |Filter(NeedsReorder, items)|
  {
    if |items| > 0 {
      FilterOfFilter(items[1..], category);
    }
  }

  /** The item form; every field is text as the inputs hold it. */
  datatype Form = Form(
    name: string, category: string, quantity: string, unit: string, reorderLevel: string, costPerUnit: string)

  /** `handleAddNew`: an empty form on detergent, counted in pieces. */
  function NewForm(): (f: Form)
    ensures f.category == "DETERGENT" && f.unit == "pieces"
    ensures f.name == "" && f.quantity == "" && f.reorderLevel == "" && f.costPerUnit == ""
  {
    Form("", "DETERGENT", "", "pieces", "", "")
  }

  /** `handleEdit`: the item's fields as the server sent them; a missing
      cost becomes "". */
  function EditForm(it: InventoryItem): (f: Form)
    ensures f.name == it.name && f.category == it.category && f.unit == it.unit
    ensures ParseFloat(f.quantity) == Some(it.quantity.Value())
    ensures ParseFloat(f.reorderLevel) == Some(it.reorderLevel.Value())
    ensures f.costPerUnit == "" <==> it.costPerUnit.None?
    ensures it.costPerUnit.Some? ==> ParseFloat(f.costPerUnit) == Some(it.costPerUnit.value.Value())
  {
    ParseRender(it.quantity);
    ParseRender(it.reorderLevel);
    if it.costPerUnit.Some? then
      ParseRender(it.costPerUnit.value);
      RenderNonEmpty(it.costPerUnit.value);
      Form(it.name, it.category, Render(it.quantity), it.unit, Render(it.reorderLevel), CostText(it.costPerUnit))
    else Form(it.name, it.category, Render(it.quantity), it.unit, Render(it.reorderLevel), CostText(it.costPerUnit))
  }

  /** `item.cost_per_unit || ''`. */
  function CostText(cost: Option<Decimal>): string {
    match cost
    case Some(d) => Render(d)
    case None => ""
  }

  lemma RenderNonEmpty(d: Decimal)
    ensures Render(d) != ""
  {
    assert |Magnitude(d)| >= 1;
  }

  function FormJson(f: Form): Json {
    JObj([
      ("name", JStr(f.name)), ("category", JStr(f.category)), ("quantity", JStr(f.quantity)),
      ("unit", JStr(f.unit)), ("reorder_level", JStr(f.reorderLevel)), ("cost_per_unit", JStr(f.costPerUnit))
    ])
  }

  /** `handleSubmit`: a PUT of the form to the edited item, or a POST to
      the collection when adding. */
  function Submit(f: Form, editing: Option<InventoryItem>): (e: Effect)
    ensures e.Send? && e.request.body == Some(FormJson(f))
    ensures editing.Some? ==> e.request.verb == PUT && e.request.path == Item(Inventory, NatToString(editing.value.id))
    ensures editing.None? ==> e.request.verb == POST && e.request.path == Base(Inventory)
  {
    match editing
    case Some(it) => Call(Inventory, Update, NatToString(it.id), Some(FormJson(f)), "Failed to save inventory item")
    case None => Call(Inventory, Create, "", Some(FormJson(f)), "Failed to save inventory item")
  }

  /** `handleRestockSubmit`: a quantity that parses to at most 0 is
      refused; otherwise the text is sent as `{quantity: text}` through
      `restock`, which wraps it once more. */
  function RestockSubmit(it: InventoryItem, quantity: string): (e: Effect)
    ensures NonPositive(quantity) ==> e == Alert("Quantity must be greater than zero")
    ensures !NonPositive(quantity) ==>
              e == Send(Request(POST, "/inventory/" + NatToString(it.id) + "/restock/", None,
                                Some(JObj([("quantity", JObj([("quantity", JStr(quantity))]))]))))
  {
    RestockRequest(NatToString(it.id), JObj([("quantity", JStr(quantity))]));
    if NonPositive(quantity) then Alert("Quantity must be greater than zero")
    else Call(Inventory, Restock, NatToString(it.id), Some(JObj([("quantity", JStr(quantity))])), "Failed to add stock")
  }

  /** The restock preview: hidden while the field is empty, otherwise the
      sum of the current and the entered quantity (`None` for `NaN`). */
  datatype Preview = Hidden | Shows(total: Option<real>)

  function RestockPreview(it: InventoryItem, quantity: string): (p: Preview)
    ensures p == Hidden <==> quantity == ""
    ensures p.Shows? && ParseFloat(quantity).Some? ==> p.total == Some(it.quantity.Value() + ParseFloat(quantity).value)
    ensures p.Shows? && ParseFloat(quantity).None? ==> p.total == None
  {
    if quantity == "" then Hidden
    else Shows(AddTo(it.quantity.Value(), ParseFloat(quantity)))
  }

  /** `base + n` in JavaScript: adding `NaN` gives `NaN`. */
  function AddTo(base: real, n: Option<real>): (r: Option<real>)
    ensures r.Some? <==> n.Some?
    ensures n.Some? ==> r.value == base + n.value
  {
    if n.Some? then Some(base + n.value) else None
  }

  /** Entering the amount the server would add shows the new stock. */
  lemma PreviewOfRenderedAmount(it: InventoryItem, added: Decimal)
    ensures RestockPreview(it, Render(added)) == Shows(Some(it.quantity.Value() + added.Value()))
  {
    ParseRender(added);
    RenderNonEmpty(added);
    PreviewOfParsed(it, Render(added), added.Value());
  }

  /** Any non-empty entry that parses shows the current stock plus it. */
  lemma PreviewOfParsed(it: InventoryItem, quantity: string, v: real)
    requires quantity != "" && ParseFloat(quantity) == Some(v)
    ensures RestockPreview(it, quantity) == Shows(Some(it.quantity.Value() + v))
  {
    var sum := AddTo(it.quantity.Value(), ParseFloat(quantity));
    assert sum.Some? && sum.value == it.quantity.Value() + v;
  }

  /** `handleDelete` as written: it calls `api.inventory.delete`, which the
      `api` object does not define, so after confirmation the call throws,
      the `catch` alerts, and no request is made. */
  function DeleteItemAsWritten(id: nat, confirmed: bool): (e: Effect)
    ensures !confirmed ==> e == Stay
    ensures confirmed ==> e == Alert("Failed to delete inventory item")
  {
    if !confirmed then Stay
    else Call(Inventory, Delete, NatToString(id), None, "Failed to delete inventory item")
  }

  /** The delete that is evidently intended, as the services and clients
      pages do it: a DELETE of the item's path. */
  function DeleteItem(id: nat, confirmed: bool): (e: Effect)
    ensures !confirmed ==> e == Stay
    ensures confirmed ==> e == Send(Request(DELETE, "/inventory/" + NatToString(id) + "/", None, None))
  {
    if !confirmed then Stay
    else
      assert Below(Inventory, NatToString(id), "") == "/inventory/" + NatToString(id) + "/";
      Send(ToRequest(Inventory, Delete, NatToString(id), None))
  }

  /** As written, a confirmed delete never reaches the server, while the
      intended one always sends a request; the two agree only when the
      user cancels. */
  lemma DeleteNeverSent(id: nat)
    ensures !DeleteItemAsWritten(id, true).Send?
    ensures DeleteItem(id, true).Send?
    ensures DeleteItemAsWritten(id, false) == DeleteItem(id, false)
  {
  }
}
