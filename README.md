# Bookshop orders, stock and payments — a Dafny model

This project models the order-handling core of a small bookshop point-of-sale system written in
Python. It covers the backend order, order-item and payment APIs and the helpers they use. It also
covers the pure logic of a few frontend pieces: the API response wrapper, the field ordering of the
details popup, and text truncation.

**The database.** `Store.Database` is a class holding the four tables the APIs touch:
- books (price and stock);
- orders (customer, total, status);
- order items (order, book, quantity, `price_each`);
- payments.

It also holds the three AUTO_INCREMENT counters. Each API method is a method on that state. A
call that fails before its commit leaves the tables exactly as they were. For `add`, this is
modelled as a ROLLBACK to a snapshot (`Store.Database.Restore`). Orders' `add` and payments'
`update_status` report an error after committing (see "## Findings" and "## Left out").

Money is integer cents throughout. A caller-supplied payment amount, which may carry more
decimals, is an exact decimal (`Helpers.Decimal`).

**The two bookshop invariants.**
- `Store.SupplyPreserved`: for every book, the stock plus the quantities held by order items is
  unchanged. Every state-changing method is proved to keep it.
- `Store.TotalsMatch`: every order's total equals the sum of `quantity × price_each` over its items.
  The item methods and orders' `delete` are proved to keep it. Orders' `add` and `update` store a
  total the caller gives, so for them the exact condition is proved:
  - after `add`, the totals match exactly when the given total equals the lines' sum;
  - after `update`, they still match when the update sets no `total_amount`.

The round trips are proved as lemmas and as caller methods:
- adding an item and deleting it again;
- creating an order and deleting it again.

Both give back the tables as they were.

**Schema facts the code relies on.** The schema is not part of the source shown. Two facts the code
relies on are modelled explicitly:
- Inserting an order item lowers the book's stock by its quantity. This is done by an insert
  trigger.
- `order_items.order_id` is a foreign key that cascades when its order is deleted.

The model further assumes there is no foreign key on `book_id`. This keeps `update_item`'s "Book
not found" branch reachable. An insert whose `order_id` names no order is rejected by the foreign
key. `add_item` does not check the order itself, so such an insert is modelled as the error
`Rejected`.

**Where code and design disagree, the model follows the code:**
- `delete` of an order has no existence check. Deleting an absent order succeeds and changes
  nothing.
- `record_payment` never compares the amount with the order total. Only the payments API's `add`
  does that.
- Orders' `add` stores the caller's `total_amount` as given. It does not compute it and performs no
  stock check. So `Orders.AddOrder` keeps `TotalsMatch` exactly when the given total equals the
  lines' sum.
- `add_item` on a missing order fails through the foreign key, not through a check. It gives
  `Rejected`, not `NotFound`.

**Rows and cursors.** Two operations depend on the shape of row their cursor returns. `Cursors`
models the two shapes: `conn.cursor()` returns tuples and `conn.cursor(dictionary=True)` returns
dictionaries.
- `update_item` reads a dictionary row by position (`br[0]`), so every increase of a quantity
  fails.
- Orders' `add` hands tuple rows to `from_db_row`, which calls `get` on them.

Both are listed under "## Findings". Each has an as-written member and an intended member.

Python's `$` in the phone pattern also matches just before a final newline. The model keeps that
behaviour, and `Validators.PhoneTrailingNewline` shows it.

## Model

| member | source | states |
|---|---|---|
| Helpers.RoundHalfUp | backend/utils/helpers.py:28 | the quotient rounded to the nearest integer is within half a unit of the input, and an exact half rounds up |
| Helpers.RoundPrice | backend/utils/helpers.py:23-30 | the cents are within half a cent of the input; an exact half rounds away from zero; the sign is kept; an unconvertible value gives 0 |
| Helpers.RoundPriceFixesCents | backend/utils/helpers.py:28 | rounding a value that already has two decimals (with any number of trailing zeros) gives it back unchanged (idempotence) |
| Helpers.HalfUpExact | backend/utils/helpers.py:28 | a whole number of units rounds to itself |
| Helpers.FullAmountWithin | backend/api/payments.py:83 | an amount equal to the total, at any scale of two or more, does not exceed it |
| Helpers.RoundedWithinBound | backend/api/payments.py:83-90 | an amount that does not exceed the total still does not exceed it once rounded to cents |
| Helpers.LinesSumAppend | backend/utils/helpers.py:37-41 | the line sum of two lists is the sum of their line sums |
| Helpers.CalculateOrderTotal | backend/utils/helpers.py:32-42 | the loop's result is the sum of price × quantity with absent fields as 0, and is 0 for no lines |
| Helpers.SafeGet | backend/utils/helpers.py:44-50 | a non-dictionary or an absent key gives the default; otherwise the result is a value stored under the key |
| Helpers.SafeGetStored | backend/utils/helpers.py:50 | in a dictionary with distinct keys the result is exactly the stored value |
| PyValues.Lookup | backend/utils/helpers.py:50 | `dict.get` finds nothing exactly when the key is absent, and otherwise returns a stored entry's value |
| PyValues.LookupStored | backend/utils/helpers.py:50 | with distinct keys, the value found is the stored one |
| PyText.RemoveChar | backend/utils/validators.py:30 | `replace(c, "")` leaves no `c`, keeps every other character with its count, and returns text without `c` as it is |
| PyText.RemoveCharAppend | backend/utils/validators.py:30 | removal distributes over concatenation, so the remaining characters keep their order |
| PyText.StripEmptyIff | backend/utils/validators.py:81 | `strip()` is empty exactly when every character is whitespace |
| PyText.ReplaceChar | frontend/views/details_popup.py:92 | `replace` for one character changes exactly the matching positions |
| PyText.LikePattern | backend/api/orders.py:283 | `f"%{s}%"` has the value verbatim between two wildcards, two characters longer |
| PyText.LikePatternInjective | backend/api/payments.py:38 | different values give different patterns |
| PyText.TitleAfter | frontend/views/details_popup.py:92 | `title()` upper-cases a letter after a non-letter, lower-cases one after a letter, and keeps every other character |
| Validators.IsValidIsbn | backend/utils/validators.py:24-53 | the method returns true exactly when the reference definition `IsbnValid` holds |
| Validators.Isbn10Check | backend/utils/validators.py:31-42 | the ISBN-10 loop returns true exactly when every character has a value at its index and the weighted sum is divisible by 11 |
| Validators.Isbn13Check | backend/utils/validators.py:43-51 | the ISBN-13 loop returns true exactly when all 13 characters are digits and the 1/3-weighted sum is divisible by 10 |
| Validators.CleanIdempotent | backend/utils/validators.py:30 | removing hyphens and spaces twice is removing them once |
| Validators.IsbnIgnoresSeparators | backend/utils/validators.py:30 | a string and its form without hyphens and spaces are equally valid |
| Validators.CleanWithoutSeparators | backend/utils/validators.py:30 | a string without hyphens or spaces is checked as it is |
| Validators.IsbnLength | backend/utils/validators.py:28-53 | only cleaned lengths 10 and 13 can be valid, and the empty string never is |
| Validators.IsbnXOnlyLast | backend/utils/validators.py:35-40 | an 'X' or 'x' anywhere but index 9 of a 10-character ISBN makes it invalid |
| Validators.Isbn10Characterised | backend/utils/validators.py:31-42 | when all characters are digits apart from a possible final 'X', validity is exactly divisibility of the weighted sum by 11 |
| Validators.Isbn10Example | backend/utils/validators.py:31-42 | the ISO 2108 example 0306406152 passes, and changing its check digit fails |
| Validators.Isbn13Example | backend/utils/validators.py:43-51 | 9780306406157 passes the EAN-13 check |
| Validators.PhoneShape | backend/utils/validators.py:19-22 | a valid phone number has 7 to 22 characters; without a trailing newline it is valid exactly when it is an optional '+' followed by 7–20 digits, whitespace, '-', '(' or ')' |
| Validators.PhoneTrailingNewline | backend/utils/validators.py:21-22 | twenty digits followed by a newline pass, while twenty-one digits fail |
| Validators.RoleExamples | backend/utils/validators.py:73-78 | "Admin", "Manager" and "Clerk" pass; other case and non-strings fail |
| Validators.RoleExact | backend/utils/validators.py:73-78 | a role is valid exactly when it is the string "Admin", "Manager" or "Clerk" |
| Validators.IsNonEmptyString | backend/utils/validators.py:80-81 | true exactly for a string with a non-whitespace character |
| OrderModels.ItemFromRow | backend/models/order_model.py:22-29 | absent keys default to book 0, quantity 1, price 0; present ones are copied |
| OrderModels.ItemToDict | backend/models/order_model.py:14-20 | every key is present, and reading the dictionary back gives the item |
| OrderModels.ItemsFromRows | backend/models/order_model.py:58-61 | one record per item row, in order |
| OrderModels.ItemsToDicts | backend/models/order_model.py:50 | `"items"` is each item's dictionary, in order |
| OrderModels.OrderFromRow | backend/models/order_model.py:53-70 | defaults are customer 0, total 0 and status "Pending"; no item rows (None or empty) give no items; otherwise each row is mapped in order |
| OrderModels.OrderToDict | backend/models/order_model.py:40-51 | header fields are kept; items are each converted, in order |
| OrderModels.OrderRoundTrip | backend/models/order_model.py:40-70 | reading an order's dictionary back gives the order |
| Cursors.FirstColumn | backend/api/order_items.py:108-127 | `row[0]` gives the column on a tuple row, and raises KeyError(0), reported as "0", on a dictionary row |
| Cursors.ColumnGet | backend/models/order_model.py:53-70 | `row.get` gives the column on a dictionary row, and raises AttributeError on a tuple row |
| Store.AdjustStock | backend/api/order_items.py:181 | only the named book's stock moves, by the amount given |
| Store.AdjustTotal | backend/api/order_items.py:183 | only the named order's total moves, by the amount given |
| Store.InsertItem | backend/api/order_items.py:65-68 | the row is added and the insert trigger lowers its book's stock by its quantity |
| Store.ItemsOfOrder | backend/api/orders.py:197 | the selected ids are exactly the items of the order |
| Store.Database.Restore | backend/api/order_items.py:83-84 | the ROLLBACK gives back exactly the snapshot's tables; the id counters are not rolled back |
| Store.InsertAtFacts | backend/api/orders.py:119-123 | the insert loop's rows are the old rows plus line `j` at id `first + j` |
| Store.TakeStockSum | backend/api/orders.py:119-123 | the trigger on a run of inserts lowers each book's stock by the quantity the run holds for it |
| Store.InsertAtSum | backend/api/orders.py:119-123 | inserting a run of items at fresh ids adds their sum to any per-item sum |
| OrderItems.AddItemKeepsInvariants | backend/api/order_items.py:64-73 | a committed add_item conserves every book's supply and keeps every order total equal to its lines |
| OrderItems.UpdateItemKeepsInvariants | backend/api/order_items.py:116-140 | the same for update_item |
| OrderItems.DeleteItemKeepsInvariants | backend/api/order_items.py:170-185 | the same for delete_item |
| OrderItems.AddThenDeleteRestores | backend/api/order_items.py:36-196 | deleting the item just added gives back the tables before the add |
| OrderItems.AddItem | backend/api/order_items.py:36-89 | each error in the source's order (missing book id or quantity ≤ 0; book not found; insufficient stock; order missing) changes nothing; success inserts one item at the book's current price, lowers stock by the quantity and raises the total by quantity × price; both invariants are kept |
| OrderItems.CommitItem | backend/api/order_items.py:64-73 | the writes of add_item produce exactly the add effect at the next item id |
| OrderItems.UpdateOutcome | backend/api/order_items.py:98-128 | the writes go ahead exactly when a positive quantity is given for an existing item and, if it grows, the stock column can be read, the book exists and holds the increase; the change reported is the new quantity minus the old |
| OrderItems.UpdateIncreaseFails | backend/api/order_items.py:108-127 | as written, every increase of an item whose book exists fails with "0", while reading the column by position lets it through when the stock suffices |
| OrderItems.UpdateIncreaseExample | backend/api/order_items.py:108-127 | quantity 1 to 2 with 100 in stock: "0" as written, a change of 1 as intended |
| OrderItems.IntendedUpdateKeepsStock | backend/api/order_items.py:120-134 | with the column read correctly, an increase leaves the stock non-negative and a decrease never lowers it |
| OrderItems.UpdateItem | backend/api/order_items.py:91-156 | as written: each refusal, and the failed read on an increase, changes nothing; otherwise stock moves by −delta, the quantity is set and the total moves by delta × the stored price, with `price_each` unchanged; only a quantity that does not grow is ever committed; both invariants are kept |
| OrderItems.UpdateItemIntended | backend/api/order_items.py:91-156 | as intended: an increase commits exactly when the book holds enough stock, leaving it non-negative, and otherwise the same effect and invariants |
| OrderItems.CommitQuantity | backend/api/order_items.py:131-140 | the writes of update_item produce exactly the update effect, with stock untouched when delta is 0 |
| OrderItems.DeleteItem | backend/api/order_items.py:158-196 | a missing item changes nothing; otherwise stock gets the quantity back, the total loses the line amount and only that row goes; both invariants are kept |
| OrderItems.AddThenDelete | backend/api/order_items.py:36-196 | after adding an item and deleting it, books, orders and items are as before |
| Orders.MissingKeyOf | backend/api/orders.py:123 | the KeyError names the first absent key of book_id, quantity, price_each |
| Orders.FirstIncomplete | backend/api/orders.py:119-123 | the first line the insert loop cannot read |
| Orders.LineItem | backend/api/orders.py:121-123 | the inserted row carries the new order id and the line's book, quantity and price |
| Orders.LineItems | backend/api/orders.py:119-123 | one row per line, in order |
| Orders.Priced | backend/api/orders.py:119-123 | the lines' prices and quantities as order-total lines, one per line, in order |
| Orders.RestoredBooksStep | backend/api/orders.py:201-202 | giving back one more item's quantity is one more stock update |
| Orders.LineItemsAmount | backend/api/orders.py:119-123 | the inserted rows' line amounts sum to the lines' total |
| Orders.AddOrderKeepsInvariants | backend/api/orders.py:112-123 | a committed add conserves every book's supply; the totals match afterwards exactly when the given total equals the lines' sum |
| Orders.DeleteOrderKeepsInvariants | backend/api/orders.py:197-205 | delete conserves every supply, keeps the other totals matching, and leaves books the order does not hold untouched |
| Orders.CreateThenDeleteRestores | backend/api/orders.py:112-206 | deleting an order just created gives back the tables, every book's stock included |
| Orders.InsertLines | backend/api/orders.py:119-123 | the loop inserts one row per line, with the trigger taking stock, until the first line lacking a key, whose index it reports |
| Orders.OrderRequest | backend/api/orders.py:97-103 | refused exactly when the customer id is absent or 0 or there are no lines; otherwise the order row gets the given total (default 0) and status (default "Pending") |
| Orders.AddOrder | backend/api/orders.py:85-145 | as written: a refused request or a line without a key changes nothing; a well-formed add commits exactly the given order and lines, in order, with the stock they take, and then reports the tuple-row AttributeError; supply is conserved |
| Orders.AddOrderIntended | backend/api/orders.py:85-145 | as intended: the same commit, reported as the new order's id; every error changes nothing |
| Orders.CreateOrder | backend/api/orders.py:109-142 | the transaction either commits the add effect or, for a line without a key, leaves the tables unchanged |
| Orders.AllowedOrderUpdates | backend/api/orders.py:157-158 | the entries kept are exactly those whose key is customer_id, total_amount or status |
| Orders.AllowedOrderUpdatesIdempotent | backend/api/orders.py:158 | filtering twice keeps what filtering once kept |
| Orders.ApplyOrderUpdates | backend/api/orders.py:169-172 | on a dictionary, a successful `SET` writes exactly the given customer_id, total_amount and status and keeps every column not named |
| Orders.AllowedOrderUpdatesLookup | backend/api/orders.py:158 | the filter keeps the value of every allowed column |
| Orders.AllowedOrderUpdatesDistinct | backend/api/orders.py:158 | the filtered updates of a dictionary have no key twice |
| Orders.UpdateSetsColumns | backend/api/orders.py:158-172 | the caller's own values of the allowed columns are what gets written |
| Orders.UpdateKeepsTotal | backend/api/orders.py:158-172 | updates naming no total_amount leave the total |
| Orders.UpdateOrderOutcome | backend/api/orders.py:147-182 | succeeds exactly when an allowed column is named, every value has its column's kind and the order exists; then the allowed columns take the caller's values and the rest stay |
| Orders.KindsDoNotDependOnRow | backend/api/orders.py:169-172 | whether the `SET` is refused depends on the values only, not on the row |
| Orders.UpdateOrder | backend/api/orders.py:147-182 | the reported outcome is `UpdateOrderOutcome`; on success only that order's row is replaced by it, a refusal changes nothing, and the totals still match when no total_amount is set |
| Orders.SetOrderRow | backend/api/orders.py:169-172 | only the order's row changes, and a kept total keeps the totals matching |
| Orders.RestoreStock | backend/api/orders.py:197-202 | the stock loop raises each book by the quantities of the order's items, in any visiting order |
| Orders.DeleteOrder | backend/api/orders.py:184-215 | stock gets every item's quantity back, then the order and its items go; an absent order changes nothing; both invariants are kept |
| Orders.AbsentOrderDeletesNothing | backend/api/orders.py:197-206 | deleting an order that does not exist changes nothing |
| Orders.CreateThenDelete | backend/api/orders.py:85-215 | creating an order (as intended) and deleting it leaves books, orders and items as they were |
| Orders.RecordPayment | backend/api/orders.py:217-269 | no order id or amount, or a missing order, is an error with no change; otherwise one payment (default "UPI"/"Success") is appended, and books, orders and items are untouched |
| Orders.OrderSearch | backend/api/orders.py:271-283 | allowed exactly for order_id, customer_id, status and order_date, so no other field reaches the SQL text; the query goes in verbatim between two `%`; otherwise the field error |
| Payments.CheckPayment | backend/api/payments.py:60-84 | accepted exactly when order id and a positive amount are present, the order exists and the amount does not exceed its total |
| Payments.AcceptedWithinTotal | backend/api/payments.py:82-90 | an accepted payment stores between 0 and the order total |
| Payments.PayingInFullAccepted | backend/api/payments.py:82-84 | paying exactly the total is accepted and stores the total |
| Payments.OverpaymentRefused | backend/api/payments.py:82-84 | a cent more than the total is refused |
| Payments.NewPayment | backend/api/payments.py:65-90 | the row has the new id, the rounded amount and defaults "UPI"/"Pending" |
| Payments.AddPayment | backend/api/payments.py:54-106 | a refused payment changes nothing; an accepted one appends exactly one payment within the total; books, orders and items are unchanged |
| Payments.SetStatus | backend/api/payments.py:123-124 | only the status of the payment with that id changes |
| Payments.SetStatusIdempotent | backend/api/payments.py:123-124 | setting a status twice is setting it once |
| Payments.UpdatePaymentStatus | backend/api/payments.py:108-135 | a status outside Success/Pending/Failed/Cancelled is refused with no change; otherwise only that payment's status changes |
| Payments.RemovePayment | backend/api/payments.py:148 | exactly the payments with another id remain |
| Payments.RemovePaymentKeepsOrder | backend/api/payments.py:148 | the remaining payments keep their increasing id order |
| Payments.RemovePaymentGone | backend/api/payments.py:148 | no payment with the deleted id remains |
| Payments.DeletePayment | backend/api/payments.py:137-159 | only the payment with that id is removed, and the id is reported |
| Payments.PaymentSearch | backend/api/payments.py:16-38 | all payments exactly when the field or value is absent or empty; a filter only on an allowed column, with the value verbatim between two `%`; the field error exactly for a field off the list |
| StockReport.LowStock | backend/reports/stock_report.py:41-48 | the report is no longer than the input; the default threshold is 10 |
| StockReport.LowStockMembers | backend/reports/stock_report.py:46 | a row is reported exactly when it is an input row with known stock below the threshold |
| StockReport.LowStockAppend | backend/reports/stock_report.py:46 | the filter works part by part, so the rows keep their relative order |
| StockReport.LowStockIdempotent | backend/reports/stock_report.py:46 | filtering the report again changes nothing |
| StockReport.LowStockBoundary | backend/reports/stock_report.py:46 | stock equal to the threshold or NULL is excluded; one below is included |
| ApiClient.FilterKeys | frontend/api_client.py:24 | the filtered dictionary is no longer than the original |
| ApiClient.FilterKeysMembers | frontend/api_client.py:24 | it holds exactly the entries whose key is listed |
| ApiClient.FilterKeysLookup | frontend/api_client.py:23-24 | a listed key finds the original value; any other key finds nothing |
| ApiClient.FilterKeysIdempotent | frontend/api_client.py:24 | filtering twice is filtering once |
| ApiClient.FilterEach | frontend/api_client.py:21-22 | when every element is a dictionary, each is filtered, and length and order are kept; otherwise the comprehension raises |
| ApiClient.HandleResponse | frontend/api_client.py:7-28 | an exception, a non-dictionary response or status "error" gives None; with filtering on, data that is neither a list nor a dictionary (or is absent) comes back unchanged |
| ApiClient.UnfilteredIsData | frontend/api_client.py:18-25 | with no fields, the data is returned unchanged, and None when absent |
| ApiClient.FilteredDictData | frontend/api_client.py:23-24 | dictionary data keeps exactly the listed keys, with their values |
| ApiClient.FilteredListData | frontend/api_client.py:21-22 | list data keeps its length and order, each element filtered the same way |
| ApiClient.FilteredListRaises | frontend/api_client.py:21-28 | a list element that is not a dictionary makes the wrapper return None |
| DetailsPopup.Select | frontend/views/details_popup.py:124-126 | the comprehension is no longer than its input |
| DetailsPopup.SelectMembers | frontend/views/details_popup.py:124-126 | an element is kept exactly when it is in the input and its membership test passes |
| DetailsPopup.SelectNoDup | frontend/views/details_popup.py:124-126 | filtering a sequence without repeats gives one without repeats |
| DetailsPopup.SelectKeepsOrder | frontend/views/details_popup.py:124-126 | the kept keys are in their input's order |
| DetailsPopup.FieldsOf | frontend/views/details_popup.py:129 | one (key, value) pair per key, in order |
| DetailsPopup.PreferredPositions | frontend/views/details_popup.py:116-121 | each preferred key's signature leads back to its own position |
| DetailsPopup.PreferredOrderNoDup | frontend/views/details_popup.py:116-121 | no key is listed twice in the preferred order |
| DetailsPopup.ArrangePermutation | frontend/views/details_popup.py:124-127 | the arranged keys are a permutation of the record's keys |
| DetailsPopup.ArrangeOrder | frontend/views/details_popup.py:116-127 | the preferred keys come first, exactly those, in the preferred order; the rest follow in the record's order |
| DetailsPopup.SortedFieldsAreEntries | frontend/views/details_popup.py:129 | each shown pair is an entry of the record |
| DetailsPopup.Label | frontend/views/details_popup.py:92 | a key in the label table gets its label; any other gets a label of its own length |
| DetailsPopup.DerivedLabel | frontend/views/details_popup.py:92 | a derived label has spaces for underscores and keeps other non-letters; each letter is upper-cased when it starts a word and lower-cased otherwise |
| FrontendUtils.PyPrefix | frontend/utils.py:50 | Python's `s[:n]`, with negative and too-large bounds |
| FrontendUtils.TruncateText | frontend/utils.py:47-51 | None, empty or short enough text is returned as is; longer text becomes its first `length` characters plus "..." |
| FrontendUtils.TruncateShape | frontend/utils.py:49-50 | a truncated text is exactly `length + 3` long, starts with the first `length` characters and ends in "..." |
| FrontendUtils.TruncateBounds | frontend/utils.py:49-51 | truncation adds at most three characters and never shortens below `length` |
| FrontendUtils.TruncateDefault | frontend/utils.py:47-50 | the default cut is at 50 characters |

## Findings

| source | as written | input that shows it | evidently intended | confidence | as-written member | corrected member |
|---|---|---|---|---|---|---|
| backend/api/order_items.py:108-127 | the stock row is fetched through a dictionary cursor and read as `br[0]`, which raises KeyError(0); the handler rolls back and reports "0" | an item of quantity 1 whose book has 100 in stock, updated to quantity 2 | the stock column is read (`br["stock"]`), and the increase commits when the stock suffices | high (not executed) | OrderItems.UpdateIncreaseFails | OrderItems.UpdateItemIntended |
| backend/api/orders.py:109-142 | after `conn.commit()`, the order is read back through a tuple cursor and `from_db_row` calls `row.get` on it; the AttributeError is reported as an error, and the rollback no longer undoes anything | any well-formed order, e.g. customer 1 with one complete line | the committed order is reported as created | high (not executed) | Orders.AddOrder | Orders.AddOrderIntended |

## Left out

- Database connections, the `FOR UPDATE` row locks and concurrency: each API call is one atomic step on the tables. Of the cursors, only the shape of the rows they return is modelled.
- The response dictionaries: successes are reduced to the id (or record) they carry, and errors to the `ApiError` kinds. Log messages are left out.
- Floating point: prices, totals and Python's `round(…, 2)` are exact integer cents. `int()` and `float()` parsing of strings is left out.
- `is_positive_number` is modelled only as "the exact amount is above zero". `is_non_negative_integer` and `is_valid_email` depend on Python's numeric parsing and Unicode regex classes, so they are not modelled.
- Character classes (`isdigit`, `isspace`, `\d`, `\s`, `upper`, `title`) are ASCII only.
- Timestamps: `datetime.now()` defaults, `order_date`, and `format_date`. Its only behaviour apart from `strftime` is returning `None` for a falsy date, so it is not modelled.
- The reading side of `get_current_stock` is left out; its rows are the input of `StockReport.LowStock`. `get_category_stock_summary` and `format_currency` are not modelled.
- LIKE matching: the searches are modelled as the query they would run (all rows, or a field and a `%value%` pattern), not as its results.
- Orders' `customer_id` foreign key to customers is not modelled (there is no customers table here).
- MySQL's coercion of update values is simplified.
  - `Orders.ApplyOrderUpdates` accepts an integer for customer_id and total_amount and a string for status. It refuses anything else.
- A key present with the value `None` is modelled as an absent key in `ItemData`, `PaymentData`, `Orders.OrderData`, `Orders.LineInput` and the `quantity` of `OrderItems.UpdateItem`. The source treats them differently:
  - `int(None)` for an item's `quantity` raises a TypeError outside any handler (order_items.py:45).
  - `update_item({"quantity": None})` passes the key test at order_items.py:98 and then raises a TypeError from `int(None)` at :101, outside any handler. The model reports "No supported updates provided".
  - In orders' `add`, a present `None` under `total_amount` or `order_status` is returned by `get` (orders.py:98-99) and stored as NULL (orders.py:112-115). The model stores 0 and "Pending".
  - A `None` under `payment_method` or `payment_status` is stored as `None` instead of the default (payments.py:65-66).
- Payments.UpdatePaymentStatus: the success payload is not modelled. Line 127 of payments.py calls `.to_dict()` on a dictionary after the commit, so the call then reports an error although the update is committed. Only the committed state change and the refusal are modelled.
- Payments: orders' `delete` leaves the payments table untouched. How a foreign key from payments would react is not part of the source.
- Orders.RestoreStock: the order in which the SELECT returns the items is not modelled. The loop visits them in any order, and the result does not depend on it.
- DetailsPopup: the `record or {}` fallback and all widgets are left out. The popup's record is a dictionary.
- FrontendUtils.TruncateText: only text (or `None`) is modelled. Python would also slice other sequences.
- Payments.AddPayment: amounts are exact decimals, so a numeric string such as `"10"` is not modelled. The positive-number check accepts it, because `float("10") > 0`. The `amount > total_amount` comparison on payments.py:83 then raises a TypeError. That error is reported and nothing changes.
