# Block Woo Orders: a Dafny model of the fraud scan and the order-status lists

Block Woo Orders is a WordPress/WooCommerce plugin. It keeps tables of
app user IDs and e-mail addresses, and each entry carries a flag
(`verified`, `review` or `blocked`) and notes. This project models the two
pieces of the plugin that make decisions:

- **The fraud scan** (`scan_orders_for_fraud`, module `WoocommerceHooks`).
  When WooCommerce has processed a checkout, the scan looks up the order's
  app user ID and billing e-mail. It records every matching row in
  `scan_result`, writes that result onto the order, and then sets the
  order's status. A `blocked` match wins over everything and aborts the
  checkout. Next comes `review`, but only when nothing is `verified`. Then
  `verified`.
- **The order-status lists** (module `CustomStatuses`).
  `add_custom_statuses_to_order` rebuilds WooCommerce's key→label status
  map so that `wc-verified`, `wc-review-required` and `wc-blocked` come
  right after `wc-processing`. `add_new_order_statuses` appends
  `review-required` and `verified` to the statuses valid for payment.

PHP arrays with keys are modelled in module `OrderedArray` as sequences of
(key, value) pairs. Keyed assignment `$a[$k] = $v` is `Put`: it rewrites a
present key where it stands and appends a new key at the end. Module
`Slices` holds small facts about sequence slices. Module `Wrappers` holds
`Option`.

Both PHP functions work step by step, so both are Dafny methods with loops.
Each loop is proved against a specification function: `Matched` and `Raised`
for the scan, `Rebuilt` for the status map. The lemmas below state what the
source promises about those functions.

Calls into WordPress and the database are parameters or results:

- The scan switch (`get_option('bwo_scan_enabled')`) is an
  `Option<string>`. PHP `empty()` is true of `false`, `""` and `"0"`.
- The two looked-up rows (`$wpdb->get_row`) are `Option<Row>`. Only the
  `flag` and `notes` columns are read.
- The side effects are returned as an ordered log of `Effect`s:
  - `update_post_meta` of `scan_result` becomes `WriteScanResult`;
  - `$order->update_status` becomes `UpdateStatus`;
  - the thrown exception becomes `Abort`.

## Model

| member | source | states |
|---|---|---|
| WoocommerceHooks.ScanOrdersForFraud | includes/class-block-woo-orders-woocommerce-hooks.php:23-84 | With the switch empty, there is no scan result and no effect. Otherwise there is one entry per row found, `app_user_id` before `email`, and each entry copies the row's flag and notes whatever the flag is. The annotation is written exactly when something matched, and before any status change. Any `blocked` row gives status `blocked` followed by an abort. Else `review` without `verified` gives `review-required`. Else `verified` gives `verified`. Else the status is left alone. |
| WoocommerceHooks.CheckRows | includes/class-block-woo-orders-woocommerce-hooks.php:55-70 | The `foreach` over rows with distinct keys. The scan result is `Matched` of the rows. Each of `is_verified`, `review_required` and `is_blocked` is set exactly when `Raised` holds for its flag. |
| WoocommerceHooks.RaisedSome | includes/class-block-woo-orders-woocommerce-hooks.php:56-64 | A flag is raised exactly when some row that was found carries that exact flag. |
| WoocommerceHooks.RaisedPair | includes/class-block-woo-orders-woocommerce-hooks.php:48-51 | Over the two lookups, a flag is raised exactly when the app-user-ID row or the e-mail row carries it. |
| WoocommerceHooks.MatchedPair | includes/class-block-woo-orders-woocommerce-hooks.php:48-69 | Over the two lookups, the scan result has key `app_user_id` when that row was found and `email` when that row was found, in that order. Each key reads back the row found. |
| WoocommerceHooks.MatchedKeys | includes/class-block-woo-orders-woocommerce-hooks.php:66-69 | Every key of the scan result is the key of a row that was looked at. |
| CustomStatuses.AddCustomStatusesToOrder | includes/class-block-woo-orders-custom-statuses.php:56-69 | The loop's result is `Rebuilt` of the input, and it never holds a key twice. |
| CustomStatuses.RebuiltWithoutProcessing | includes/class-block-woo-orders-custom-statuses.php:58-68 | Without `wc-processing`, the output equals the input: same keys, order and values. |
| CustomStatuses.RebuiltKeys | includes/class-block-woo-orders-custom-statuses.php:59-65 | A key is in the output exactly when it is in the input, or it is one of the three plugin keys and `wc-processing` is in the input. |
| CustomStatuses.RebuiltKeepsValues | includes/class-block-woo-orders-custom-statuses.php:59-60 | Every key other than the three plugin keys reads the same value in the output as in the input. |
| CustomStatuses.RebuiltKeepsOrder | includes/class-block-woo-orders-custom-statuses.php:59-60 | Take two input keys where the later one is not a plugin key. Both appear in the output, in the same relative order. |
| CustomStatuses.LaterPluginKeyMoves | includes/class-block-woo-orders-custom-statuses.php:60-64 | Example: `wc-processing`, `wc-on-hold`, `wc-blocked` comes out with `wc-blocked` ahead of `wc-on-hold`, holding the input's own label. |
| CustomStatuses.StepReplaces | includes/class-block-woo-orders-custom-statuses.php:60 | A step for a key already present (not `wc-processing`) replaces that entry's value in place. |
| CustomStatuses.RebuiltInsertsAfterProcessing | includes/class-block-woo-orders-custom-statuses.php:61-65 | Suppose the input has `wc-processing` and none of the plugin keys. The output is the input with `wc-verified`, `wc-review-required`, `wc-blocked` inserted right after `wc-processing`, in that order. |
| CustomStatuses.RebuiltAddsThree | includes/class-block-woo-orders-custom-statuses.php:62-64 | In that case the output is three entries longer. The inserted labels are `Verified`, `Review Required` and `Blocked`. |
| CustomStatuses.RebuiltUnique | includes/class-block-woo-orders-custom-statuses.php:58-66 | The rebuilt map never holds a key twice, whatever the input. |
| CustomStatuses.StepAtProcessing | includes/class-block-woo-orders-custom-statuses.php:60-65 | The step for `wc-processing` on a list lacking it and the plugin keys appends it and then the three plugin statuses. |
| CustomStatuses.StepKeys | includes/class-block-woo-orders-custom-statuses.php:60-65 | One loop step adds its own key. It adds the three plugin keys too when that key is `wc-processing`, and nothing else. |
| CustomStatuses.AddNewOrderStatuses | includes/class-block-woo-orders-custom-statuses.php:79-85 | The result is the input followed by `review-required` and then `verified`, two entries longer. Its multiset is the input's plus these two, so a status already present appears twice. |
| OrderedArray.Put | includes/class-block-woo-orders-custom-statuses.php:60 | Assigning a new key appends it at the end. Assigning a present key keeps the key sequence unchanged. |
| OrderedArray.PutLookup | includes/class-block-woo-orders-woocommerce-hooks.php:66-69 | After `$a[$k] = $v`, `$a[$k]` is `$v` and every other key reads as before. |
| OrderedArray.PutUnique | includes/class-block-woo-orders-custom-statuses.php:60-64 | Keyed assignment never gives a key a second entry. |
| OrderedArray.PositionInExtension | includes/class-block-woo-orders-custom-statuses.php:59-65 | A key keeps its position when entries are only added after it. |

## Left out

- `register_custom_statuses` (includes/class-block-woo-orders-custom-statuses.php:21-48) is left out. It only passes fixed arrays to WordPress's `register_post_status`.
- The plugin bootstrap, the admin pages and the entry form are left out. They register hooks, render HTML and save entries through WordPress calls that are not part of this model.
- The checkout-field helpers in the hooks file are left out: `add_app_user_id_field`, `verify_app_user_id_field`, `update_order_meta_app_user_id` and `display_admin_order_meta_app_user_id`. They read `$_POST` and echo markup.
- WoocommerceHooks.ScanOrdersForFraud: the database queries, `get_option`, `update_post_meta` and `update_status` are not modelled. Their inputs are parameters and their effects are log entries.
- WoocommerceHooks.ScanOrdersForFraud: the annotation is the `scan_result` map itself, not its `json_encode` text. The JSON format is not modelled.
- WoocommerceHooks.ScanOrdersForFraud: the abort is `Abort`. The exception's translated message is not modelled.
- WoocommerceHooks.ScanOrdersForFraud: `$wpdb->get_row` returns `null` both for "no row" and on a database error. The model has a single `None`, so a failed lookup counts as no match, just as in the source.
- WoocommerceHooks.ScanOrdersForFraud: the order ID and the posted form data identify the order only. They do not influence the decision, so they are not parameters.
- CustomStatuses.RebuiltKeepsOrder is stated only for a later key that is not one of the three plugin keys. A plugin key can move when it follows `wc-processing` with another key between them (`LaterPluginKeyMoves`), so the general claim does not hold.
- CustomStatuses.AddNewOrderStatuses treats the status list as a plain sequence. PHP's `$statuses[] = ...` appends after the largest integer key, which is the end of the list for the lists WooCommerce passes.
- The order's own argument to `add_new_order_statuses` is not used by the source and is not a parameter.
