# Cart/order engine of django-shoptools, modelled in Dafny

This project models the cart/order core of `shoptools/cart/base.py`.

- **`BaseOrder`** is the persisted cart. It is an order row that may not
  exist yet, plus the line rows whose parent is that order.
- **`ICart`** gives the order its shared cart behaviour: `add`, `remove`,
  `get_errors`, `is_valid`, shipping cost and errors, discounts and `save_to`.
- **`ICartLine` / `BaseOrderLine`** is one line. It refers to an item by
  content type and object id, and holds validated options and an integer
  quantity.

The modules are:

- `Lines` (`lines.dfy`): item references, line keys and lines. It also holds
  the catalogue capability: whether an item reference still resolves,
  `validate_options`, `cart_errors`, `cart_line_total` and
  `cart_description`. Each of these is an uninterpreted function, and money
  is integer cents. Line total, description and errors are defined here.
- `LineStore` (`line_store.dfy`): the order's line rows as a sequence in pk
  order. It covers lookup by key, deleting a row, updating a row in place or
  appending a new one, the `get_lines` filter, and the sums behind `count`,
  `subtotal` and `get_errors`, with their lemmas.
- `Plugins` (`plugins.dfy`): the optional shipping and voucher modules, as
  records of uninterpreted functions, and the discount sum.
- `Updates` (`updates.dfy`): `update_quantity` as a pure function of the rows
  before the call (`ApplyUpdate`), and what it guarantees.
- `Orders` (`orders.dfy`): the `Order` class. Its fields are `persisted`
  (the order row exists), `lines` and `voucherCodes`. The mutating methods
  are `UpdateQuantity`, `Add`, `Remove`, `Clear` and `SaveTo`.
  `UpdateQuantity`, `Add`, `Remove` and `SaveTo` are proved against the pure
  functions above. `Clear` states its new state outright: unsaved, no rows.
  `GetErrors` is a loop proved against `Errors`. The read-only members are
  functions. The defaults of the Python signatures are kept as default
  parameters: `quantity=1` on `add` and `update_quantity`, `add=False`,
  empty options, `create=False` on `get_line`, and `include_shipping=True` on
  `calculate_discounts`.

In these places the model follows the code as written, where a cleaned-up
reading would differ:

- Only a resulting quantity of exactly 0 deletes a line. A negative result is
  validated and, if the item reports no error, stored.
- `is_valid` uses Python truthiness on `count()`. An order is valid when its
  count is non-zero, not only when it is positive.
- `save_to` has no transaction.
- `save_to` deletes only the target lines that `get_lines` yields. Target
  rows whose item no longer resolves survive. They stay invisible to
  `get_lines`, `count`, `subtotal` and `get_errors`.
- `save_to` reads the source's lines after the deletions. So saving an order
  into itself leaves it with no visible line.
- `update_quantity` with `add=True` and quantity 0 is refused before anything
  else. Any other call saves an unsaved order first, even if the update is
  then rejected.

## Model

| member | source | states |
|---|---|---|
| `Updates.ApplyUpdate` | shoptools/cart/base.py:311-345 | A refusal carries 'No quantity specified' and a rejection at least one error, and neither changes the rows. Whatever the outcome, every row with another key is kept and no row with another key appears. |
| `Orders.Order.UpdateQuantity` | shoptools/cart/base.py:311-345 | The outcome and the new rows are those of `ApplyUpdate` on the old rows. The order is saved unless the call adds 0. Row uniqueness and non-zero quantities are preserved. |
| `Updates.UpdateEffect` | shoptools/cart/base.py:317-345 | Refused with 'No quantity specified' exactly when adding 0. Rejected with the line's errors exactly when the new quantity is non-zero and the line reports errors. Refused and rejected calls leave the rows unchanged. After a successful call the key holds the new quantity (old quantity plus the argument when adding, the argument otherwise) and no other key changes. After a successful call a row for the key remains exactly when the new quantity is non-zero. |
| `Updates.UpdateKeepsRowsValid` | shoptools/cart/base.py:324-345 | After any update, the rows still have at most one line per key and no line with quantity 0. |
| `Updates.UpdateKeepsRowOrder` | shoptools/cart/base.py:332-345 | A kept line's row is updated in place if it existed and appended last if it is new. A purged line removes exactly its own row. Purging a line that was never stored changes nothing. |
| `Updates.UpdateMovesCount` | shoptools/cart/base.py:326-337 | For an item that resolves, a successful update moves the visible count by the new quantity minus the old. |
| `Updates.AddTwiceMerges` | shoptools/cart/base.py:326-328 | After two accepted adds of the same item and options, the key reads the old quantity plus both amounts, and there is still at most one row per key. A row for the key remains exactly when that sum is non-zero. |
| `Orders.Order.SaveLine` | shoptools/cart/base.py:344 | `line.save()` on the line `get_line` returned: the rows afterwards are those of saving the line by key. |
| `Orders.Order.Add` | shoptools/cart/base.py:45-47 | `add` is `update_quantity` with `add=True`. |
| `Orders.Order.Remove` | shoptools/cart/base.py:49-50 | `remove` is `update_quantity` with quantity 0 and `add=False`. It always succeeds, saves the order and leaves no row for the key. |
| `Orders.Order.GetLine` | shoptools/cart/base.py:347-374 | It returns the stored row exactly when one exists for (item, validated options), with that row's quantity. It returns a fresh line exactly when none exists and `create` is set. Otherwise it returns nothing. |
| `LineStore.Find` | shoptools/cart/base.py:363-368 | The position found holds the key and is the first such position. Nothing is found exactly when no row has the key. |
| `LineStore.Purge` | shoptools/cart/base.py:335-336 | Deleting a key's row keeps exactly the lines with other keys. Afterwards no row has the key, and there are no more rows than before. |
| `LineStore.Upsert` | shoptools/cart/base.py:344 | Saving a line leaves a row with its key. The rows are then the line plus the old lines with other keys. There is one more row exactly when the key was not stored before. |
| `LineStore.UpsertUnique` | shoptools/cart/base.py:435-439 | Saving a line never creates a second row with the same key. |
| `LineStore.QuantityOfPurge` | shoptools/cart/base.py:333-337 | After a line is deleted, its key reads 0 and every other key is unchanged. |
| `LineStore.QuantityOfUpsert` | shoptools/cart/base.py:339-345 | After a line is saved, its key reads its quantity and every other key is unchanged. |
| `LineStore.PurgeAt` | shoptools/cart/base.py:335-336 | With unique keys, deleting the row at a position is the same as deleting the line with that row's key. |
| `LineStore.ReplaceAt` | shoptools/cart/base.py:344 | With unique keys, saving an existing row in place is the same as replacing the line with that key. |
| `Orders.Order.DeleteLine` | shoptools/cart/base.py:335-336 | Deleting a row leaves exactly the rows with other keys, and keeps keys unique. |
| `Orders.Order.GetLines` | shoptools/cart/base.py:376-387 | `get_lines` yields exactly the order's rows whose item resolves, no more of them than there are rows, and with unique keys when the rows have unique keys. |
| `Orders.Order.Count` | shoptools/cart/base.py:392-393 | With every stored quantity positive, the count is at least the number of visible lines, and it is 0 exactly when `get_lines` yields nothing. |
| `Orders.Order.IsEmpty` | shoptools/cart/base.py:389-390 | An order with no rows is empty. With every stored quantity positive, an order is empty exactly when `get_lines` yields nothing. |
| `LineStore.SumQuantitiesPositive` | shoptools/cart/base.py:392-393 | A sum of positive quantities is at least the number of lines, so it is 0 exactly when there is no line. |
| `LineStore.Visible` | shoptools/cart/base.py:376-387 | `get_lines` yields exactly the stored lines whose item resolves. |
| `LineStore.VisibleAppend` | shoptools/cart/base.py:380-387 | The `get_lines` filter distributes over concatenation, so it keeps pk order. |
| `LineStore.CountAfterPurge` | shoptools/cart/base.py:392-393 | Deleting a key lowers the count by its stored quantity when its item resolves. Otherwise the count is unchanged. |
| `LineStore.CountAfterUpsert` | shoptools/cart/base.py:392-393 | Saving a line whose item resolves replaces its old quantity (0 if new) in the count by the new one. |
| `Orders.Order.Subtotal` | shoptools/cart/base.py:404-406 | The subtotal over `get_lines` equals the sum of the totals of all rows, because a line whose item is gone totals 0. |
| `LineStore.OrphansAddNoTotalNorErrors` | shoptools/cart/base.py:441-446 | Rows whose item is gone add nothing to the summed totals or to the concatenated errors. |
| `Lines.LineErrors` | shoptools/cart/base.py:196-198 | A line whose item is gone reports no error. Otherwise it reports the item's own errors for the line. |
| `Lines.LineTotal` | shoptools/cart/base.py:441-446 | A line whose item is gone totals 0. Otherwise it totals the item's price for the line. |
| `Lines.Description` | shoptools/cart/base.py:448-452 | A line whose item is gone has an empty description. Otherwise it has the item's description. |
| `Orders.Order.GetErrors` | shoptools/cart/base.py:52-63 | The accumulated list is each visible line's errors in line order, followed by the shipping errors. |
| `Orders.Order.Errors` | shoptools/cart/base.py:52-63 | The error list equals the concatenated errors of all rows followed by the shipping errors. |
| `LineStore.NoLineErrorsIff` | shoptools/cart/base.py:57-59 | The concatenated line errors are empty exactly when every line has none. |
| `Orders.Order.IsValid` | shoptools/cart/base.py:65-67 | A valid order has a visible line, no row reporting an error and no shipping error. |
| `Orders.ValidityIff` | shoptools/cart/base.py:65-67 | An order is valid exactly when its count is non-zero, no visible line reports an error and shipping reports none. So an empty order is never valid. |
| `Orders.Order.ShippingCost` | shoptools/cart/base.py:121-126 | The cost is what the installed shipping module charges for this order, or 0 when none is installed. |
| `Orders.Order.ShippingErrors` | shoptools/cart/base.py:128-132 | The errors are what the installed shipping module reports for this order, or none when none is installed. |
| `Orders.Order.CalculateDiscounts` | shoptools/cart/base.py:134-141 | The discounts are what the installed voucher module grants for this order and its voucher codes, or `([], None)` when none is installed. |
| `Orders.Order.TotalDiscount` | shoptools/cart/base.py:143-146 | The total discount is 0 without a voucher module. When no discount is negative, it is non-negative and at least every single discount. |
| `Plugins.SumAmountsBounds` | shoptools/cart/base.py:143-146 | With no negative discount, the total discount is non-negative and at least every single discount. |
| `Orders.Order.Clear` | shoptools/cart/base.py:395-402 | `clear` deletes the order row itself, and its line rows go with it. |
| `Orders.Order.SaveTo` | shoptools/cart/base.py:148-160 | Afterwards the target holds its former rows whose item is gone, followed by a copy of the source's visible lines in order. Seen through `get_lines`, the target then holds exactly the source's lines. It stays duplicate-free. When saved into itself, the order keeps no visible line. |
| `Orders.Order.DeleteVisibleLines` | shoptools/cart/base.py:152 | Deleting the target's `get_lines` one by one leaves exactly its rows whose item is gone. |
| `Orders.Order.CreateLines` | shoptools/cart/base.py:153-160 | One new row per source line is appended, copying item, options and quantity in source order. |
| `LineStore.DeletingVisibleLeavesOrphans` | shoptools/cart/base.py:152 | Purging, key by key, every line `get_lines` yields leaves exactly the lines whose item is gone. |
| `LineStore.MaterializedLines` | shoptools/cart/base.py:152-160 | The target's leftover orphans plus the source's visible lines show exactly the source's visible lines, and have unique keys. |

## Left out

- `as_dict` on carts and lines, `options_text`, `__str__` and `get_cart_html`
  are left out. They are float projections and template rendering.
- `ContentType` lookups and `ctype.split('.')` are left out. An item
  reference is an abstract (content type, object id) pair, and an unknown
  content type, which raises in the ORM, is not modelled.
- `validate_options`, item resolution, `cart_errors`, `cart_line_total`,
  `cart_description` and the shipping and voucher modules are parameters. So
  are the concrete order's `get_voucher_codes` (a field) and
  `get_line_cls`. Their own code is not part of this model.
- Lines.LineErrors: `cart_errors` sees the line's item, options and
  quantity. The parent order the line points to is not passed to it.
- Orders.Order.SaveTo: copying the shipping options and re-saving the
  discounts (base.py:162-176) is left out. That code depends on the hidden
  modules and on the checkout `Order` class.
- Orders.Order.SaveTo: each order row is one `Order` object, and saving
  into itself means the same object. Two Python instances of one order row
  share their line rows through the database, so `a.save_to(b)` with `b` a
  second instance of `a`'s row also ends with no visible line; two objects
  sharing rows are not modelled.
- Orders.Order.SaveTo: requires a persisted target. Django refuses to save a
  line whose parent has no primary key, and that failure path is not
  modelled.
- Orders.Order.Clear: requires a saved order. Django's `Model.delete` raises
  on an instance without a primary key, and that failure is not modelled.
- Orders.Order.Clear: assumes the line rows' foreign key to the order
  cascades on delete. The foreign key is declared by the concrete order line
  class, which is not part of this model.
- Concurrency, database errors and transactions are left out. Each
  operation runs sequentially, and no interleaving with another request is
  modelled.
- Quantities are unbounded integers. The database column's 32-bit range is
  not modelled.
- `ICartItem.default_options` and `available_options` are not modelled.
  They are not used by the core operations.
- `total` is not defined on `BaseOrder`, so it is not modelled.
