# WooCommerce replacement request — Dafny model

This project models the core of the "WooCommerce Replacement Request" plugin
(`yith-integration.php`). A customer may ask for a replacement of a completed
order within seven days of completion, once per order. An accepted request is
recorded in the order's post meta and forwarded to the YITH refund system as a
pending whole-order refund request.

Modules:

- `PostMeta` (`post_meta.dfy`): the WordPress post-meta table, keyed by
  (post id, meta key). It is a class whose `entries` map `update_post_meta`
  overwrites in place. It also gives `get_post_meta(..., true)` and PHP
  truthiness of stored values.
- `Eligibility` (`eligibility.dfy`): the order record and the seven-day rule.
  `Judge` is the reference verdict (eligible, not completed, window expired,
  already submitted). The button, form and handler conditions are each proved
  to agree with it.
- `RefundBridge` (`refund_bridge.dfy`): `create_yith_refund_request`. A fresh
  refund-request object has its fields set one at a time and is then saved
  into the YITH store (a class). `Bridge` is the pure specification of the
  result and of the new YITH state.
- `SubmissionHandler` (`submission_handler.dfy`): `handle_replacement_request`
  as a method over the meta store and the YITH store. `Handle` is its
  specification.
- `HandlerProperties` (`handler_properties.dfy`): the lemmas that relate
  submissions to each other, up to "along any sequence of requests, each order
  is accepted at most once".
- `AdminColumns` (`admin_columns.dfy`): the refund-request list column filter.
  It works over PHP ordered arrays modelled as lists of (key, label) pairs.

What the model receives as parameters:

- The clock (`time()`) is the parameter `now`, in seconds.
- The WooCommerce order store is a read-only `map<int, Order>`. Order totals
  are integers in minor units.
- The answers of the two YITH `save()` calls form a `YithResponse`. It holds
  the id the request save returns (0 stands for `false`) and whether the
  message was stored.
- Whether the `YITH_Refund_Request` class exists is the YITH state's
  `classExists`.

## Model

| member | source | states |
|---|---|---|
| PostMeta.GetMeta | yith-integration.php:63 | a missing key reads as a falsy value; a present key reads as what was stored |
| PostMeta.PostMetaStore.Update | yith-integration.php:65-66 | `update_post_meta` overwrites exactly one (post, key) entry (the new table is the old one with that entry replaced), so reading it back gives the written value |
| Eligibility.ButtonShown | yith-integration.php:15-17 | the button is shown iff the reference verdict is Eligible: status is completed, a completion date exists, at most 7×86400 s have passed, and the flag is not set; showing it implies a completed order with a date |
| Eligibility.FormShown | yith-integration.php:28-31 | on the view-order endpoint the form is shown iff the reference verdict is Eligible for the order named by the absint of the query value, with the flag read under that id; off the endpoint it is never shown |
| Eligibility.PeriodOpen | yith-integration.php:61 | the handler's first test passes iff the order is completed and within the window; when it fails, the verdict is "not completed" or "window expired" |
| Eligibility.WindowBoundary | yith-integration.php:17 | exactly 7×86400 s after completion is eligible; one second later the window has expired |
| Eligibility.NotCompletedNeverEligible | yith-integration.php:15 | an order that is not completed is never eligible, whatever its dates and flag |
| RefundBridge.WholeOrderRefund | yith-integration.php:108-126 | the built request is a pending, open, tax-free whole-order request: no item, qty 0, nothing refunded, no coupon. Item, item-refund and refund totals all equal the order total; qty_total is the item count; the customer is the order's user |
| RefundBridge.RefundRequestObject.FillFromOrder | yith-integration.php:108-126 | after the field-by-field assignments the object holds exactly that whole-order request, whatever its fields held before |
| RefundBridge.YithStore.SaveRequest | yith-integration.php:128 | a save stores the request under the returned id; a falsy answer stores nothing |
| RefundBridge.YithStore.SaveMessage | yith-integration.php:131-135 | the message save appends the message when the plugin stores it; nothing else changes |
| RefundBridge.Bridge | yith-integration.php:101-144 | the result is an id iff the class exists, the order exists and save returned a truthy id. The id is the one save returned. Missing class and missing order are reported as such. A failure leaves the YITH state unchanged. On success the request is stored under that id, and only then is a message added, with that id as its request and the order's user as author |
| RefundBridge.CreateYithRefundRequest | yith-integration.php:101-144 | the method's result and the new YITH state are exactly those of `Bridge` for the old state |
| Eligibility.AbsInt | yith-integration.php:53 | `absint` of an integer yields its magnitude |
| SubmissionHandler.Handle | yith-integration.php:51-97 | no POST means no response and no change; otherwise a redirect. The notice is "period expired" iff the verdict is not-completed or window-expired (so also when the flag is set but the period is closed); it is "already submitted" iff the period is open and the flag is set; the submission is accepted iff eligible. Any non-accepted outcome changes nothing. An accepted one leaves the flag set and the message stored on the order |
| SubmissionHandler.HandleReplacementRequest | yith-integration.php:51-97 | the method's response, new post meta and new YITH state are exactly those of `Handle` for the old state |
| HandlerProperties.AcceptedWrites | yith-integration.php:63-84 | an accepted submission writes the message and the flag on the order. If the bridge created a request, the back-link `_order_id` and the flag are also written on the refund post, which holds the whole-order request, and nothing else changes. If the bridge failed, only the order record is written and YITH is untouched (no rollback) |
| HandlerProperties.PluginMissingDegrades | yith-integration.php:72-83 | without the YITH class an eligible submission is still recorded locally, gets the error notice, and creates nothing in YITH |
| HandlerProperties.FlagsPersist | yith-integration.php:66-77 | a set submitted flag stays set after any handled request |
| HandlerProperties.SecondSubmissionRejected | yith-integration.php:61-87 | after an accepted submission, a later one for the same order is never accepted and changes nothing, even if the order store has changed in between. It gets "already submitted" while the period is open, and "period expired" otherwise |
| HandlerProperties.AcceptedAtMostOnce | yith-integration.php:63-66 | along any sequence of requests, each with its own order store and clock, no order is accepted twice, and an order whose flag was already set is never accepted |
| AdminColumns.Assign | yith-integration.php:168 | PHP array assignment: the key maps to the new value. An existing key keeps its position and the key list is unchanged; a new key is appended at the end |
| AdminColumns.AssignKeepsOthers | yith-integration.php:168 | assigning one key leaves the value of every other key unchanged |
| AdminColumns.AssignKeepsUnique | yith-integration.php:168 | assigning one key keeps the array's keys unique |
| AdminColumns.AddCustomRefundRequestColumns | yith-integration.php:167-170 | the result has the `replacement_request` column with its label; every other column keeps its label and its position; the column is appended when it was absent |

Facts about the code that the model keeps:

- The plugin handles whole-order requests only: the bridge always sets
  `whole_order` to true and `item_id` to 0 (lines 110-111).
- `qty_total` is the order's item count, `get_item_count()` (line 117), while
  `qty` is 0 (line 116).
- A missing order is not handled: the handler fetches it at line 55 and
  dereferences it at line 61 without a check.

## Left out

- Markup emission (button, form, admin message, list label, meta-box title,
  admin CSS) and the hooks that register the callbacks: presentation and
  framework plumbing. `display_replacement_message_in_admin`,
  `add_replacement_label_to_order_list`,
  `populate_custom_refund_request_column` and
  `add_replacement_request_title_yith` only echo markup after a meta read;
  the meta read is `GetMeta`/`Submitted`.
- `wp_redirect`/`exit`, logging and notice texts and translation. A notice is
  one `Notice` value. The redirect is the `RedirectToOrders` response. The
  column label is the untranslated text.
- `sanitize_textarea_field`, `esc_html`, `nl2br`: library string escaping.
  The message is an opaque string.
- A missing order, or a completed order without a completion date, makes
  the source fail on a null dereference (lines 30-31 and 61). These are
  preconditions (`CanHandle`, the `requires` of `FormShown` and `PeriodOpen`)
  rather than modelled crashes. The button (line 17) does check the date and
  is modelled with that check.
- `absint($_POST['order_id'])` (line 53) and `absint(get_query_var('view-order'))`
  (line 29) first cast a string to an integer (`"12abc"` gives 12, `"abc"`
  gives 0, which names no order). The model receives the posted and queried
  values already as integers and applies only the absolute value (`AbsInt`).
- The defaults of a new `YITH_Refund_Request` and the YITH internals of
  `save()`. Every field is overwritten before saving. The outcome of `save()`
  is a parameter.
- Money as float: `get_total()` is an integer number of minor units.
- Concurrency: the read-then-write race between the flag check (line 63) and
  the flag write (line 66) across simultaneous requests. Requests are handled
  one after another.
- WordPress post ids are unique across orders and refund posts. The model
  does not assume it. A refund id equal to an order id would set that order's
  flag through the back-link; no lemma depends on this not happening.
