/** backend/models/order_model.py: order and line-item records and their mapping to and from
    database rows. A row field that is `None` here is a key absent from the row dictionary.
    Money is in cents; `order_date` (a timestamp) is not modelled. */
module OrderModels {
  import opened Results

  /** `OrderItemModel`. */
  datatype ItemModel = ItemModel(itemId: Option<int>, bookId: int, quantity: int, priceEach: int)

  /** A row of `order_items` as a dictionary (or `OrderItemModel.to_dict()`). */
  datatype ItemRow = ItemRow(itemId: Option<int>, bookId: Option<int>, quantity: Option<int>, priceEach: Option<int>)

  /** `OrderModel` without its timestamp. */
  datatype OrderModel = OrderModel(orderId: Option<int>, customerId: int, totalAmount: int,
                                   status: string, items: seq<ItemModel>)

  /** A row of `orders` as a dictionary. */
  datatype OrderRow = OrderRow(orderId: Option<int>, customerId: Option<int>, totalAmount: Option<int>,
                               status: Option<string>)

  /** `OrderModel.to_dict()` without `order_date`. */
  datatype OrderDict = OrderDict(orderId: Option<int>, customerId: int, totalAmount: int,
                                 status: string, items: seq<ItemRow>)

  /** `OrderItemModel.from_db_row(row)`: absent keys default to book 0, quantity 1, price 0. */
  function ItemFromRow(row: ItemRow): (m: ItemModel)
    ensures m.itemId == row.itemId
    ensures m.bookId == (if row.bookId.Some? then row.bookId.value else 0)
    ensures m.quantity == (if row.quantity.Some? then row.quantity.value else 1)
    ensures m.priceEach == (if row.priceEach.Some? then row.priceEach.value else 0)
  {
    ItemModel(row.itemId, row.bookId.GetOr(0), row.quantity.GetOr(1), row.priceEach.GetOr(0))
  }

  /** `OrderItemModel.to_dict()`: every key is present, and reading it back gives the item. */
  function ItemToDict(m: ItemModel): (row: ItemRow)
    ensures row.bookId.Some? && row.quantity.Some? && row.priceEach.Some?
    ensures ItemFromRow(row) == m
  {
    ItemRow(m.itemId, Some(m.bookId), Some(m.quantity), Some(m.priceEach))
  }

  /** The loop of `OrderModel.from_db_row` over the item rows: one record per row, in order. */
  function ItemsFromRows(rows: seq<ItemRow>): (ms: seq<ItemModel>)
    ensures |ms| == |rows|
    ensures forall i :: 0 <= i < |rows| ==> ms[i] == ItemFromRow(rows[i])
  {
    if rows == [] then [] else [ItemFromRow(rows[0])] + ItemsFromRows(rows[1..])
  }

  /** `[item.to_dict() for item in self.items]`. */
  function ItemsToDicts(ms: seq<ItemModel>): (rows: seq<ItemRow>)
    ensures |rows| == |ms|
    ensures forall i :: 0 <= i < |ms| ==> rows[i] == ItemToDict(ms[i])
  {
    if ms == [] then [] else [ItemToDict(ms[0])] + ItemsToDicts(ms[1..])
  }

  /** `OrderModel.from_db_row(row, items)`: absent keys default to customer 0, total 0 and
      status "Pending"; no item rows (`None` or an empty list) give no items. */
  function OrderFromRow(row: OrderRow, items: Option<seq<ItemRow>>): (m: OrderModel)
    ensures m.orderId == row.orderId
    ensures m.customerId == (if row.customerId.Some? then row.customerId.value else 0)
    ensures m.totalAmount == (if row.totalAmount.Some? then row.totalAmount.value else 0)
    ensures m.status == (if row.status.Some? then row.status.value else "Pending")
    ensures items.None? || items.value == [] ==> m.items == []
    ensures items.Some? ==> |m.items| == |items.value|
    ensures items.Some? ==> forall i :: 0 <= i < |items.value| ==> m.items[i] == ItemFromRow(items.value[i])
  {
    var orderItems := if items.Some? && items.value != [] then ItemsFromRows(items.value) else [];
    OrderModel(row.orderId, row.customerId.GetOr(0), row.totalAmount.GetOr(0), row.status.GetOr("Pending"), orderItems)
  }

  /** `OrderModel.to_dict()`: the header fields as they are, the items each through `to_dict()`. */
  function OrderToDict(m: OrderModel): (d: OrderDict)
    ensures d.orderId == m.orderId && d.customerId == m.customerId
    ensures d.totalAmount == m.totalAmount && d.status == m.status
    ensures |d.items| == |m.items|
    ensures forall i :: 0 <= i < |m.items| ==> d.items[i] == ItemToDict(m.items[i])
  {
    OrderDict(m.orderId, m.customerId, m.totalAmount, m.status, ItemsToDicts(m.items))
  }

  /** The header of a dictionary read back as a row. */
  function HeaderRow(d: OrderDict): OrderRow {
    OrderRow(d.orderId, Some(d.customerId), Some(d.totalAmount), Some(d.status))
  }

  /** Reading an order's dictionary back as a row and item rows gives the order again. */
  lemma OrderRoundTrip(m: OrderModel)
    ensures OrderFromRow(HeaderRow(OrderToDict(m)), Some(OrderToDict(m).items)) == m
  {
    var d := OrderToDict(m);
    var back := OrderFromRow(HeaderRow(d), Some(d.items));
    assert |back.items| == |m.items|;
    assert forall i :: 0 <= i < |m.items| ==> back.items[i] == m.items[i];
  }
}
