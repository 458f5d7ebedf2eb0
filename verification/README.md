# Laundry dashboard client, modelled in Dafny

This project models the client-side rules of the laundry management
dashboard, a React single-page application that talks to a Django back end.
The dashboard has no parser, protocol engine or local store. What it does have
is a set of small rules spread across the API client, the sidebar layout and
the pages. Each rule is written here as a pure function over sequences,
strings and exact numbers. Its contract and lemmas state what the page
promises.

What is modelled:

- **API client** (`src/utils/api.js`):
  - `Csrf.CsrfTokenFromCookie` reads the CSRF cookie, including full
    `decodeURIComponent` with UTF-8 validation (module `UriComponent`).
  - `Csrf.AttachCsrf` is the request interceptor that adds `X-CSRFToken`.
  - `Csrf.OnResponse` is the response interceptor's classifier.
  - `Api.ToRequest` is the endpoint table, mapping each operation to a verb,
    a path, query parameters and a body.
  - Authentication is a cookie session plus the CSRF header. The client keeps
    no access or refresh token, and it does not refresh or queue requests,
    so none of that appears here.
- **Sidebar** (`src/components/DashboardLayout.jsx`): the eight navigation
  entries and the `isActive` rule, including the `/orders` special case.
- **Pages**: each user action is a function returning an `Effect`, which is
  one of:
  - `Send` with the request the `api` call issues;
  - an `Alert`;
  - `Stay`, for a declined confirmation;
  - `Fault`, for an exception thrown before anything is sent.

  The pages modelled are new order, payments, order detail, inventory,
  services, reports and the dashboard. The lists they show (filters, counts,
  sums, first five) are functions over `seq`.
- **Numbers**:
  - Form inputs are strings. `parseFloat` and `parseInt` are modelled as
    partial functions to `Option`, with `None` standing for NaN.
  - The `<= 0` guards are `NonPositive` and `AtMostZero`. NaN is not `<= 0`,
    so unparseable input passes those guards, as it does in the browser.
  - Decimal fields from the server are `Decimal` values rendered the way the
    back end spells them. `JsNumber.ParseRender` proves that `parseFloat`
    of that spelling is the exact value, so the pages use `Value()` directly.
  - Money is `real`, not floating point.
- **Status buttons**: in `src/pages/OrderDetail.jsx` the prefix on the
  current status's button is spelled as the three characters U+201A U+00FA
  U+00EC followed by a space. Those are the UTF-8 bytes of a check mark
  decoded as Mac Roman. `OrderDetailPage.CurrentMark` keeps that spelling,
  so the caption is what the page shows.
- **Restock body**: `api.inventory.restock(id, quantity)` wraps its argument
  as `{quantity}`, and the inventory page already passes
  `{quantity: restockQuantity}`. The body sent is therefore
  `{quantity: {quantity: q}}`, and `InventoryPage.RestockSubmit` models it
  that way.

Modules: `Wrappers`, `Seqs`, `JsText`, `JsNumber`, `Json`, `UriComponent`,
`Csrf`, `Api`, `Layout`, `Records`, `NewOrderPage`, `PaymentsPage`,
`OrderDetailPage`, `InventoryPage`, `ServicesPage`, `ReportsPage`,
`DashboardPage`.

## Model

| member | source | states |
|---|---|---|
| Csrf.CsrfTokenFromCookie | src/utils/api.js:20-35 | an empty cookie string yields no token |
| Csrf.FindCsrf | src/utils/api.js:25-33 | the result is "no token" exactly when no trimmed piece starts with `csrftoken=` |
| Csrf.FirstMatchWins | src/utils/api.js:26-31 | after the first matching piece, the pieces that follow (including later `csrftoken` duplicates) have no influence on the result |
| Csrf.PiecesAreTrimmed | src/utils/api.js:25-28 | `a=1; csrftoken=x` yields `x`: the space before the second piece is trimmed away before matching |
| Csrf.SecondPieceToken | src/utils/api.js:25-31 | a token in the second piece, after a leading space, is found whenever the first piece is some other cookie |
| Csrf.PrefixNeedsEquals | src/utils/api.js:28 | `csrftokenX=1` does not match |
| Csrf.PrefixAtStart | src/utils/api.js:28 | `xcsrftoken=1` does not match |
| Csrf.CookieRoundTrip | src/utils/api.js:25-29 | percent-encoding a value, storing it as `csrftoken=` between other cookies and reading the cookie back returns the value |
| Csrf.BadFirstTokenFails | src/utils/api.js:26-31 | a malformed escape in the first `csrftoken` piece makes `decodeURIComponent` throw; a valid later duplicate does not rescue it |
| Csrf.BadPiece | src/utils/api.js:29 | a first piece whose value fails to decode makes the lookup fail, whatever follows it |
| Csrf.AttachCsrf | src/utils/api.js:55-69 | for GET/HEAD/OPTIONS (any case) the config is returned unchanged. For other methods, `X-CSRFToken` is set to the cookie token exactly when that token is non-empty, and no other header changes; with no token or an empty one the config is returned unchanged. A cookie that fails to decode rejects the request |
| Csrf.CsrfOnUnsafeCalls | src/utils/api.js:55-69 | for every defined endpoint and a readable non-empty cookie token, the request proceeds, and it carries `X-CSRFToken` exactly when its verb is not GET |
| Csrf.SafeVerb | src/utils/api.js:58 | of the verbs the endpoint table uses, only GET is in the safe set |
| Csrf.SafeMethodIgnoresCase | src/utils/api.js:58 | the safe-method test does not depend on the letter case of the method name |
| Csrf.OnResponse | src/utils/api.js:74-94 | a success passes through unchanged and every error stays rejected; the redirect to `/login` happens exactly for an error response with status 401 or 403 |
| UriComponent.Decode | src/utils/api.js:29 | `decodeURIComponent` never lengthens its input, and text without `%` decodes to itself |
| UriComponent.Encode | src/utils/api.js:29 | `encodeURIComponent`, the encoding a cookie value is stored in and the inverse the decoder is checked against, writes only unreserved characters, `%` and hex digits |
| UriComponent.DecodeEncode | src/utils/api.js:29 | `decodeURIComponent` inverts `encodeURIComponent` for every string of scalar characters |
| UriComponent.DecodeTruncated | src/utils/api.js:29 | a `%` without two hex digits makes decoding fail |
| UriComponent.DecodeValidates | src/utils/api.js:29 | overlong and surrogate UTF-8 escapes are rejected, and a valid two-byte escape decodes to its character |
| Api.PathOf | src/utils/api.js:97-162 | every endpoint path starts and ends with `/`, and every endpoint that takes an id has a path beginning with `/<resource>/<id>/` |
| Api.ToRequest | src/utils/api.js:97-162 | each operation's request has that operation's path and verb; GET requests carry no body, and other requests carry no query parameters |
| Api.VerbClassification | src/utils/api.js:97-162 | the reading endpoints (lists, gets, reports, low stock, drivers, session check) are exactly the GET ones; `update` is the only PUT, `delete` the only DELETE, `updateStatus` the only PATCH, and login, logout, register, create, recalculate, restock and consume are POSTs |
| Api.DeleteEndpoints | src/utils/api.js:107-155 | a `delete` call is defined exactly for clients and services; `inventory.delete`, like the orders, payments, staff and auth deletes, is undefined |
| Api.CollectionEndpoints | src/utils/api.js:97-162 | every resource except `auth` can be listed, and every resource except `auth` and `staff` can be created |
| Api.UpdateStatusRequest | src/utils/api.js:131 | `updateStatus` is PATCH `/orders/{id}/update_status/` with body `{status}` |
| Api.RestockRequest | src/utils/api.js:152 | `restock` is POST `/inventory/{id}/restock/` with body `{quantity: arg}` |
| Api.CheckSessionIsDrivers | src/utils/api.js:103 | the session check issues exactly the request that `staff.drivers` issues |
| Api.ItemPathsDistinct | src/utils/api.js:107-155 | two different slash-free ids give different paths for the same per-item operation |
| Layout.IsActive | src/components/DashboardLayout.jsx:20-25 | the `/orders` entry is active only on `/orders` itself; any other entry is active on its own path and on every path below it |
| Layout.ActiveEntry | src/components/DashboardLayout.jsx:9-25 | for a pathname, either exactly one navigation entry is active and all others are inactive, or none is |
| Layout.OnlyOneActive | src/components/DashboardLayout.jsx:9-25 | no two navigation entries are active for the same pathname |
| Layout.ActivePrefix | src/components/DashboardLayout.jsx:20-25 | an active entry's path is a prefix of the pathname |
| Layout.NewOrderHighlighted | src/components/DashboardLayout.jsx:9-25 | for `/orders/new`, exactly the New Order entry is active |
| Layout.OrderDetailUnhighlighted | src/components/DashboardLayout.jsx:21-24 | for `/orders/7`, no entry is active, because `/orders` matches only itself |
| Layout.BarePrefixInactive | src/components/DashboardLayout.jsx:24 | `/clientsX` does not activate `/clients` |
| Layout.PathsDistinct | src/components/DashboardLayout.jsx:9-18 | there are eight entries, with pairwise distinct paths |
| NewOrderPage.FilteredClients | src/pages/NewOrder.jsx:50-54 | every shown client's "first last phone" contains the search term case-insensitively, and every such client is shown; an empty term keeps every client in order; a single client is shown exactly when it matches |
| NewOrderPage.FilteredClientsAppend | src/pages/NewOrder.jsx:50-54 | the clients shown for two concatenated lists are those shown for each, concatenated; with the single-client case this fixes order and count for every list |
| NewOrderPage.SearchIgnoresCase | src/pages/NewOrder.jsx:50-54 | upper- or lower-casing the search term does not change the result |
| NewOrderPage.ChangeService | src/pages/NewOrder.jsx:68-78 | only the row at the index changes; it gets the chosen service id and takes price and name from the first service whose id matches, else 0 and `''` |
| NewOrderPage.ChangeQuantity | src/pages/NewOrder.jsx:81-85 | only the quantity of the row at the index changes; it becomes the parsed number, or 0 when the input is NaN or 0 |
| NewOrderPage.AddItem | src/pages/NewOrder.jsx:88-93 | one blank row (service `''`, quantity 1, price 0) is appended and existing rows are kept |
| NewOrderPage.RemoveItem | src/pages/NewOrder.jsx:96-100 | on a list of one row nothing changes; otherwise exactly the indexed row goes and the rest keep their order |
| NewOrderPage.RemoveUndoesAdd | src/pages/NewOrder.jsx:88-100 | removing the row just added gives the previous list back |
| NewOrderPage.Total | src/pages/NewOrder.jsx:103-107 | no rows total 0, and a single row totals its quantity times its unit price (0 for a missing price) |
| NewOrderPage.TotalAfterAdd | src/pages/NewOrder.jsx:88-107 | adding a blank row does not change the total |
| NewOrderPage.TotalAfterRemove | src/pages/NewOrder.jsx:96-107 | removing a row lowers the total by that row's subtotal |
| NewOrderPage.TotalAfterQuantity | src/pages/NewOrder.jsx:81-107 | changing a quantity changes the total by the difference of that row's subtotals |
| NewOrderPage.TotalBoundsRows | src/pages/NewOrder.jsx:103-107 | with non-negative quantities and prices, every row's subtotal lies between 0 and the total |
| NewOrderPage.Submit | src/pages/NewOrder.jsx:110-151 | without a client, or without an item with a service and a positive quantity, the page alerts; otherwise it POSTs the payload to `/orders/` |
| NewOrderPage.ValidItems | src/pages/NewOrder.jsx:119 | the list is empty exactly when no row has a service and a positive quantity; a single row is kept exactly when it has both |
| NewOrderPage.ValidItemsAppend | src/pages/NewOrder.jsx:119 | the valid rows of two concatenated lists are the valid rows of each, concatenated; with the single-row case this fixes the result for every list |
| NewOrderPage.PayloadItems | src/pages/NewOrder.jsx:119-140 | the payload's items are exactly the valid rows in order, each an object of three keys whose `service`, `quantity` and `unit_price` hold that row's service, quantity and price |
| NewOrderPage.EmptyFieldsBecomeNull | src/pages/NewOrder.jsx:131-133 | empty pickup date, due date and driver are sent as `null`, and non-empty ones as strings |
| NewOrderPage.OrderNamesDistinct | src/pages/NewOrder.jsx:128-140 | the payload object has no duplicate keys |
| PaymentsPage.ResetForm | src/pages/PaymentsList.jsx:45-54 | the form is reset with method CASH and every other field empty |
| PaymentsPage.UnpaidOrders | src/pages/PaymentsList.jsx:32-36 | every listed order is a fetched order with a positive balance, every such order is listed, and a single order is listed exactly when its balance is positive |
| PaymentsPage.UnpaidOrdersAppend | src/pages/PaymentsList.jsx:32-36 | the unpaid orders of two concatenated lists are those of each, concatenated, so the dropdown keeps the fetched order |
| PaymentsPage.Submit | src/pages/PaymentsList.jsx:56-84 | an amount parsing to at most 0 is rejected before any call; an unknown order throws; an amount above the balance is sent only after confirmation; otherwise the form is POSTed to `/payments/` |
| PaymentsPage.OverpaymentNeedsConfirmation | src/pages/PaymentsList.jsx:64-73 | an overpayment is not sent without confirmation, and is sent with it |
| PaymentsPage.WithinBalanceNeedsNoConfirmation | src/pages/PaymentsList.jsx:64-76 | an amount within the balance is sent whatever the confirmation answer |
| PaymentsPage.TotalCollected | src/pages/PaymentsList.jsx:147 | no payments total 0, and one payment totals its amount |
| PaymentsPage.TotalCollectedAdds | src/pages/PaymentsList.jsx:147 | the total collected over two lists is the sum of their totals |
| PaymentsPage.PaymentWithinTotal | src/pages/PaymentsList.jsx:147 | with non-negative amounts, each payment is at most the total collected |
| PaymentsPage.Prefill | src/pages/PaymentsList.jsx:252-259 | choosing an order sets the order field and fills the amount with that order's balance, or `''` when no order matches; nothing else changes |
| PaymentsPage.PrefillIsAccepted | src/pages/PaymentsList.jsx:252-259 | submitting an unpaid order with its prefilled amount sends a payment without asking for confirmation |
| OrderDetailPage.StatusColor | src/pages/OrderDetail.jsx:94-103 | each of the five known statuses gets its class, and any other status gets gray |
| OrderDetailPage.MethodBadge | src/pages/OrderDetail.jsx:105-113 | each of the four payment methods gets its class, and anything else gets gray |
| OrderDetailPage.TablesHaveDistinctKeys | src/pages/OrderDetail.jsx:94-113 | both tables have distinct keys, so each lookup is unambiguous |
| OrderDetailPage.CancelledIsRed | src/pages/OrderDetail.jsx:100 | CANCELLED is shown in red |
| OrderDetailPage.UnknownStatusIsGray | src/pages/OrderDetail.jsx:94-103 | a status outside the table (DELIVERED) falls back to gray |
| OrderDetailPage.Buttons | src/pages/OrderDetail.jsx:407-420 | the four buttons are PENDING, IN_PROGRESS, READY and COMPLETED in order; a button is disabled exactly when it is the current status; its caption is the status with the first `_` replaced by a space, preceded on the current status's button by the check-mark prefix as the source spells it |
| OrderDetailPage.ButtonsNeverCancel | src/pages/OrderDetail.jsx:407-420 | no button is CANCELLED, and at most one button is disabled |
| OrderDetailPage.ChangeStatus | src/pages/OrderDetail.jsx:35-44 | a status button PATCHes `/orders/{id}/update_status/` with `{status}` |
| OrderDetailPage.OffersPaymentIffListed | src/pages/OrderDetail.jsx:161 | Record Payment is offered for an order exactly when the payments page lists it as unpaid |
| OrderDetailPage.AddPayment | src/pages/OrderDetail.jsx:46-68 | an amount parsing to at most 0 alerts with no call; any other amount POSTs `{order, amount, payment_method, reference_number}` to `/payments/` |
| OrderDetailPage.PrefilledAmountAccepted | src/pages/OrderDetail.jsx:46-68 | entering the order's balance as the amount sends the payment exactly when the button is offered |
| OrderDetailPage.FormatDate | src/pages/OrderDetail.jsx:74-92 | a missing or empty date shows `N/A`; any other date is formatted from that same string |
| InventoryPage.FilteredItems | src/pages/Inventory.jsx:142-144 | an empty category shows every item; otherwise every shown item is of that category and every item of that category is shown; a single item is shown exactly when the category is empty or its own |
| InventoryPage.FilteredItemsAppend | src/pages/Inventory.jsx:142-144 | filtering two concatenated lists gives the two filtered lists concatenated, so the shown items keep the fetched order |
| InventoryPage.LowStockCount | src/pages/Inventory.jsx:146 | the count is 0 exactly when no item needs reordering, never exceeds the number of items, and is 1 for a single item that needs reordering |
| InventoryPage.LowStockCountAppend | src/pages/Inventory.jsx:146 | the count over two concatenated lists is the sum of their counts; with the single-item case it is the number of items that need reordering |
| InventoryPage.LowStockIgnoresFilter | src/pages/Inventory.jsx:142-146 | the low-stock count over the full list is at least the number of low-stock items in any filtered view |
| InventoryPage.NewForm | src/pages/Inventory.jsx:50-61 | a new item form starts with category DETERGENT, unit pieces, and empty text fields |
| InventoryPage.EditForm | src/pages/Inventory.jsx:63-74 | editing copies name, category and unit; quantity and reorder level parse back to the item's values; an absent cost becomes `''` |
| InventoryPage.Submit | src/pages/Inventory.jsx:76-93 | while an item is being edited the form is PUT to `/inventory/{id}/`, and otherwise it is POSTed to `/inventory/` |
| InventoryPage.RestockSubmit | src/pages/Inventory.jsx:101-120 | a quantity parsing to at most 0 alerts with no call; otherwise the restock endpoint is called with the double-wrapped quantity |
| InventoryPage.RestockPreview | src/pages/Inventory.jsx:479-487 | the preview is hidden for an empty entry; otherwise it shows current quantity plus the entered number, or NaN |
| InventoryPage.PreviewOfRenderedAmount | src/pages/Inventory.jsx:483-486 | entering a decimal amount previews the exact sum of the stock and that amount |
| InventoryPage.DeleteItemAsWritten | src/pages/Inventory.jsx:122-135 | as written, a confirmed delete always ends in the failure alert and sends nothing |
| InventoryPage.DeleteItem | src/pages/Inventory.jsx:122-135 | corrected: a confirmed delete sends DELETE `/inventory/{id}/`; a declined one does nothing |
| InventoryPage.DeleteNeverSent | src/pages/Inventory.jsx:122-135 | the as-written delete never sends a request, because the inventory endpoints define no delete, while the corrected one does; both agree when the user declines |
| ServicesPage.NewForm | src/pages/ServicesList.jsx:35-45 | a new service form starts with unit piece, active, and empty text fields |
| ServicesPage.EditForm | src/pages/ServicesList.jsx:47-57 | editing copies the fields, maps a missing description to `''`, and the price text parses back to the service's price |
| ServicesPage.Submit | src/pages/ServicesList.jsx:59-81 | a price parsing to at most 0 alerts; otherwise the form is PUT to `/services/{id}/` when editing and POSTed to `/services/` when not |
| ServicesPage.EditedPriceAccepted | src/pages/ServicesList.jsx:47-81 | re-submitting an unchanged edit form for a service with a positive price is sent |
| ServicesPage.DeleteService | src/pages/ServicesList.jsx:83-96 | a confirmed delete sends DELETE `/services/{id}/`; a declined one does nothing |
| ServicesPage.ToggleActive | src/pages/ServicesList.jsx:98-109 | the toggle PUTs the service, with `is_active` negated, to `/services/{id}/` |
| ServicesPage.Toggled | src/pages/ServicesList.jsx:100-103 | the toggled record differs from the original only in `is_active`, which is negated |
| ServicesPage.ToggleTwice | src/pages/ServicesList.jsx:102 | toggling twice gives back the original record |
| ServicesPage.ToggleChangesOnlyActive | src/pages/ServicesList.jsx:100-103 | in the body sent, `is_active` is negated and every other key reads as before |
| ReportsPage.Params | src/pages/Reports.jsx:24-26 | the parameters hold the period, and hold `date` exactly when the period is daily and a custom date is set |
| ReportsPage.PeriodParams | src/pages/Reports.jsx:24-26 | of the three period buttons (daily, weekly, monthly), every one sends its own period, and only daily adds the date, when one is set |
| ReportsPage.FetchRequests | src/pages/Reports.jsx:28-31 | the page requests the sales report with those parameters, and the outstanding demands |
| ReportsPage.Rate | src/pages/Reports.jsx:221-227 | with a non-positive whole the rate is 0; otherwise rate × whole = 100 × part, and a part between 0 and the whole gives a rate between 0 and 100 |
| ReportsPage.CompletionRate | src/pages/Reports.jsx:204-209 | the completion rate is 0 without orders; otherwise it times the order count equals 100 × completed orders, and it lies in [0, 100] |
| ReportsPage.CollectionRate | src/pages/Reports.jsx:221-227 | with revenue at most 0 the rate is 0; with positive revenue, rate × revenue = 100 × payments; payments between 0 and the revenue give a rate in [0, 100] |
| ReportsPage.CollectionShare | src/pages/Reports.jsx:221-227 | with positive revenue, the collection rate times revenue equals 100 × payments, and lies in [0, 100] when payments do not exceed revenue |
| ReportsPage.TotalOutstanding | src/pages/Reports.jsx:261-266 | no demands total 0, and one demand totals its balance due |
| ReportsPage.OutstandingAdds | src/pages/Reports.jsx:261-266 | the outstanding total over two lists is the sum of their totals |
| ReportsPage.OutstandingBoundsBalances | src/pages/Reports.jsx:261-266 | each positive balance is at most the outstanding total |
| DashboardPage.Requests | src/pages/Dashboard.jsx:23-27 | the dashboard requests all orders, today's orders (both with page size 1000), and the low-stock items |
| DashboardPage.ComputeStats | src/pages/Dashboard.jsx:33-42 | today's count is the length of today's list; the pending and ready counts are 0 exactly when no order has that status, and together they never exceed the number of orders; no orders give no revenue; a single order counts 1 towards its own status and gives its paid amount as revenue, or 0 when the amount is missing |
| DashboardPage.StatsAdd | src/pages/Dashboard.jsx:33-35 | pending count, ready count and revenue are additive over concatenated order lists |
| DashboardPage.RevenueBoundsPaid | src/pages/Dashboard.jsx:35 | each order's paid amount (missing counted as 0) is at most the revenue |
| DashboardPage.Recent | src/pages/Dashboard.jsx:45 | the recent list is the first min(5, n) orders, in API order |
| DashboardPage.RecentIgnoresLater | src/pages/Dashboard.jsx:45 | once there are five orders, orders after them do not change the recent list |
| JsNumber.ParseFloat | src/pages/PaymentsList.jsx:59 | input without a digit (an empty field included) is NaN, and input starting with a digit is a number |
| JsNumber.ParseInt | src/pages/NewOrder.jsx:69 | input without a digit is NaN, and a non-empty string of decimal digits reads as its value |
| JsNumber.ParseRender | src/pages/PaymentsList.jsx:65 | `parseFloat` of a decimal as the server spells it yields exactly its value |
| JsNumber.ParseIntOfNat | src/pages/NewOrder.jsx:69 | `parseInt` of a rendered id gives the id back |
| Records.Call | src/pages/Inventory.jsx:122-135 | an `api` call inside a `try` sends the endpoint's request exactly when the `api` object defines that operation for the resource, and otherwise ends in the `catch`'s alert |
| JsText.JoinSplit | src/utils/api.js:25 | splitting on `;` loses nothing: joining the pieces gives the cookie string back |
| JsText.SplitJoin | src/utils/api.js:25 | splitting a join of separator-free pieces gives the pieces back |
| JsText.TrimPadded | src/utils/api.js:27 | `trim` removes exactly the white space around a core that neither starts nor ends with white space |

## Left out

- The axios instance, its base URL and credentials, `getCsrfToken`'s fetch, the transport of every `api` call and the `Promise.all` fan-out are left out, because they are network I/O. Calls appear only as the request they would send (`Effect.Send`), and responses are inputs.
- `document.cookie`, `window.location`, `alert`, `confirm`, `console` and `window.print` are I/O: the cookie and the confirmation answer are parameters, and alerts and the login redirect are outputs.
- React state, effects and rendering are left out. Each handler is a function from the state it reads to the effect it has.
- Handler outcomes after the request is sent are left out because they depend on the server's answer: success alerts, navigation, refetches, and the server-provided messages in `error.response?.data?.error`.
- `toLocaleString`, `toFixed`, `new Date(...)` and `toLocaleDateString` are locale and floating-point formatting. `OrderDetailPage.FormatDate` models only the `N/A` branch and keeps the date text otherwise.
- JavaScript floating point is not modelled; all arithmetic is exact `real`. `parseFloat` does not model `Infinity`, so inputs spelling it read as NaN.
- `toLowerCase`/`toUpperCase` map only ASCII letters. Non-ASCII case mapping needs Unicode tables.
- Strings are sequences of scalar characters. Lone UTF-16 surrogates, which `encodeURIComponent` rejects, cannot occur.
- Property names inherited from `Object.prototype` (such as `constructor`) are not modelled for the status-colour and payment-badge tables. In the browser they would return a function instead of the gray default.
- Server-computed fields (`balance_due`, `needs_reorder`, `amount_paid`, report totals) are opaque inputs. The client never derives them.
- The JSON spelling of decimal fields in request bodies is left out. Form fields are sent as the strings the user typed.
- The status-colour table in `src/pages/Dashboard.jsx`, `src/App.jsx` routing, `src/pages/ClientsList.jsx`, `src/pages/OrdersList.jsx` and the build configuration are not part of this model. They add no client-side rule beyond what is modelled, or depend on library behaviour that is not shown.
- Csrf.CsrfTokenFromCookie: its own contract states only the empty-cookie case. The search through the `;`-separated pieces is stated by `Csrf.FindCsrf`, and the whole-cookie behaviour by `Csrf.CookieRoundTrip`, `Csrf.SecondPieceToken`, `Csrf.BadFirstTokenFails` and the fixed examples in the table.
- ServicesPage.ServiceJson: a service record is modelled by the six fields the page reads (`id`, `name`, `description`, `price`, `unit`, `is_active`). Any other fields the server sends are spread back unchanged by `toggleActive` and are not modelled, so the toggle's body is stated over those six fields only.

## Findings

| source | as written | input that shows it | evidently intended | confidence | as-written member | corrected member |
|---|---|---|---|---|---|---|
| src/pages/Inventory.jsx:128 | the delete handler calls `api.inventory.delete`, which the inventory table in `src/utils/api.js` (lines 146-155) does not define; the call throws a `TypeError`, the `catch` shows "Failed to delete inventory item", and no request is sent | any item id, with the confirmation accepted | a DELETE to `/inventory/{id}/`, like the other resources' delete | not executed | InventoryPage.DeleteItemAsWritten | InventoryPage.DeleteItem |
