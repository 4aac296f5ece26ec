/** OrderItemsAPI: adding, re-quantifying and deleting one order item. The book's stock, the
    item's quantity and the order's total move together in one transaction; a failed call leaves
    every table as it was. */
module OrderItems {
  import opened Results
  import opened Sums
  import opened Store
  import opened Cursors

  /** The entries add_item reads from its `item_data`; an absent key is `None`. */
  datatype ItemData = ItemData(bookId: Option<int>, quantity: Option<int>)

  /** A committed add_item: the row is inserted (the trigger takes its quantity from stock) and
      the order total rises by quantity × price_each. */
  function AddItemEffect(t: Tables, id: int, it: Item): Tables {
    var u := InsertItem(t, id, it);
    u.(orders := AdjustTotal(u.orders, it.orderId, it.quantity * it.priceEach))
  }

  /** A committed update_item to quantity `q`: stock moves by the change in quantity, the item
      takes the new quantity and the total moves by the change × the stored price_each. */
  function UpdateItemEffect(t: Tables, id: int, q: int): Tables
    requires id in t.items
  {
    var it := t.items[id];
    var delta := q - it.quantity;
    t.(books := AdjustStock(t.books, it.bookId, -delta),
       items := t.items[id := it.(quantity := q)],
       orders := AdjustTotal(t.orders, it.orderId, delta * it.priceEach))
  }

  /** A committed delete_item: stock gets the quantity back, the total loses the line amount and
      the row is removed. */
  function DeleteItemEffect(t: Tables, id: int): Tables
    requires id in t.items
  {
    var it := t.items[id];
    t.(books := AdjustStock(t.books, it.bookId, it.quantity),
       orders := AdjustTotal(t.orders, it.orderId, -(it.quantity * it.priceEach)),
       items := t.items - {id})
  }

  /** add_item conserves every book's supply and keeps every order total equal to its lines. */
  lemma AddItemKeepsInvariants(t: Tables, id: int, it: Item)
    requires id !in t.items
    ensures SupplyPreserved(t, AddItemEffect(t, id, it))
    ensures TotalsMatch(t) ==> TotalsMatch(AddItemEffect(t, id, it))
  {
    var u := AddItemEffect(t, id, it);
    forall b | b in t.books
      ensures Supply(t, b) == Supply(u, b)
    {
      SumInsert(t.items, id, it, QuantityOf(b));
    }
    if TotalsMatch(t) {
      forall o | o in u.orders
        ensures u.orders[o].total == SumMap(u.items, LineAmountIn(o))
      {
        SumInsert(t.items, id, it, LineAmountIn(o));
      }
    }
  }

  /** update_item conserves every book's supply and keeps every order total equal to its lines. */
  lemma UpdateItemKeepsInvariants(t: Tables, id: int, q: int)
    requires id in t.items
    ensures SupplyPreserved(t, UpdateItemEffect(t, id, q))
    ensures TotalsMatch(t) ==> TotalsMatch(UpdateItemEffect(t, id, q))
  {
    var u := UpdateItemEffect(t, id, q);
    var it := t.items[id];
    var changed := it.(quantity := q);
    forall b | b in t.books
      ensures Supply(t, b) == Supply(u, b)
    {
      SumUpdate(t.items, id, changed, QuantityOf(b));
    }
    if TotalsMatch(t) {
      forall o | o in u.orders
        ensures u.orders[o].total == SumMap(u.items, LineAmountIn(o))
      {
        SumUpdate(t.items, id, changed, LineAmountIn(o));
        if o == it.orderId {
          assert (q - it.quantity) * it.priceEach == q * it.priceEach - it.quantity * it.priceEach;
        }
      }
    }
  }

  /** delete_item conserves every book's supply and keeps every order total equal to its lines. */
  lemma DeleteItemKeepsInvariants(t: Tables, id: int)
    requires id in t.items
    ensures SupplyPreserved(t, DeleteItemEffect(t, id))
    ensures TotalsMatch(t) ==> TotalsMatch(DeleteItemEffect(t, id))
  {
    var u := DeleteItemEffect(t, id);
    forall b | b in t.books
      ensures Supply(t, b) == Supply(u, b)
    {
      SumRemove(t.items, id, QuantityOf(b));
    }
    if TotalsMatch(t) {
      forall o | o in u.orders
        ensures u.orders[o].total == SumMap(u.items, LineAmountIn(o))
      {
        SumRemove(t.items, id, LineAmountIn(o));
      }
    }
  }

  /** Deleting the item just added gives back exactly the tables before the add. */
  lemma AddThenDeleteRestores(t: Tables, id: int, it: Item)
    requires id !in t.items
    ensures id in AddItemEffect(t, id, it).items
    ensures DeleteItemEffect(AddItemEffect(t, id, it), id) == t
  {
    var u := DeleteItemEffect(AddItemEffect(t, id, it), id);
    assert u.items == t.items;
    assert u.books == t.books;
    assert u.orders == t.orders;
  }

  /** add_item(order_id, item_data): the new item's id, or why nothing was written. */
  method AddItem(db: Database, orderId: int, data: ItemData) returns (r: Result<int>)
    requires db.Valid()
    modifies db
    ensures db.Valid()
    ensures db.nextOrderId == old(db.nextOrderId) && db.nextPaymentId == old(db.nextPaymentId)
    ensures r.Err? ==> db.Snapshot() == old(db.Snapshot()) && db.nextItemId == old(db.nextItemId)
    ensures var qty := data.quantity.GetOr(1);
      if data.bookId.None? || data.bookId.value == 0 || qty <= 0 then
        r == Err(Invalid("book_id and positive quantity required"))
      else if data.bookId.value !in old(db.books) then
        r == Err(NotFound("Book not found"))
      else if old(db.books)[data.bookId.value].stock < qty then
        r == Err(InsufficientStock(old(db.books)[data.bookId.value].stock))
      else if orderId !in old(db.orders) then
        r == Err(Rejected("order_items.order_id must reference an order"))
      else
        var it := Item(orderId, data.bookId.value, qty, old(db.books)[data.bookId.value].price);
        r == Ok(old(db.nextItemId)) && db.nextItemId == old(db.nextItemId) + 1 &&
        db.Snapshot() == AddItemEffect(old(db.Snapshot()), old(db.nextItemId), it) &&
        db.books[it.bookId].stock >= 0
    ensures SupplyPreserved(old(db.Snapshot()), db.Snapshot())
    ensures TotalsMatch(old(db.Snapshot())) ==> TotalsMatch(db.Snapshot())
  {
    var qty := data.quantity.GetOr(1);
    if data.bookId.None? || data.bookId.value == 0 || qty <= 0 {
      return Err(Invalid("book_id and positive quantity required"));
    }
    var bookId := data.bookId.value;
    if bookId !in db.books {
      return Err(NotFound("Book not found"));
    }
    var book := db.books[bookId];
    if book.stock < qty {
      return Err(InsufficientStock(book.stock));
    }
    if orderId !in db.orders {
      // The insert violates the order_items.order_id foreign key and is rolled back.
      return Err(Rejected("order_items.order_id must reference an order"));
    }
    ghost var before := db.Snapshot();
    var it := Item(orderId, bookId, qty, book.price);
    var id := CommitItem(db, it);
    AddItemKeepsInvariants(before, id, it);
    r := Ok(id);
  }

  /** The writes of a checked add_item: the row under the next id, the trigger's stock update
      and the order total. */
  method CommitItem(db: Database, it: Item) returns (id: int)
    requires db.Valid() && it.orderId in db.orders
    modifies db`items, db`nextItemId, db`books, db`orders
    ensures db.Valid()
    ensures id == old(db.nextItemId) && id !in old(db.items) && db.nextItemId == id + 1
    ensures db.Snapshot() == AddItemEffect(old(db.Snapshot()), id, it)
  {
    id := db.nextItemId;
    db.items := db.items[id := it];
    db.nextItemId := db.nextItemId + 1;
    db.books := AdjustStock(db.books, it.bookId, -it.quantity);
    db.orders := AdjustTotal(db.orders, it.orderId, it.quantity * it.priceEach);
  }

  /** How update_item's checks end on tables `t` when the locked stock row is fetched through a
      cursor of kind `kind`: `Ok(delta)` when the writes go ahead with that change of quantity,
      otherwise the error it reports. The stock column is read as `row[0]`; the code opens a
      dictionary cursor. */
  function UpdateOutcome(t: Tables, itemId: int, quantity: Option<int>, kind: CursorKind): (r: Result<int>)
    ensures r.Ok? <==>
      quantity.Some? && quantity.value > 0 && itemId in t.items &&
      (quantity.value > t.items[itemId].quantity ==>
         kind == TupleRows && t.items[itemId].bookId in t.books &&
         t.books[t.items[itemId].bookId].stock >= quantity.value - t.items[itemId].quantity)
    ensures r.Ok? ==>
      quantity.Some? && itemId in t.items && r.value == quantity.value - t.items[itemId].quantity
  {
    if quantity.None? then Err(Invalid("No supported updates provided"))
    else if quantity.value <= 0 then Err(Invalid("Quantity must be positive"))
    else if itemId !in t.items then Err(NotFound("Item not found"))
    else
      var it := t.items[itemId];
      var delta := quantity.value - it.quantity;
      if delta <= 0 then Ok(delta)
      else if it.bookId !in t.books then Err(NotFound("Book not found"))
      else match FirstColumn(kind, t.books[it.bookId].stock)
        case Err(e) => Err(e)
        case Ok(avail) => if avail < delta then Err(CannotIncrease(delta)) else Ok(delta)
  }

  /** As the code is written, every increase of a quantity whose book exists fails with the
      KeyError of `br[0]` on a dictionary row, although reading the column by position would
      let it through whenever the stock suffices. */
  lemma UpdateIncreaseFails(t: Tables, itemId: int, q: int)
    requires itemId in t.items && q > 0 && q > t.items[itemId].quantity
    requires t.items[itemId].bookId in t.books
    ensures UpdateOutcome(t, itemId, Some(q), DictRows) == Err(Raised(NoKeyZero))
    ensures t.books[t.items[itemId].bookId].stock >= q - t.items[itemId].quantity ==>
      UpdateOutcome(t, itemId, Some(q), TupleRows) == Ok(q - t.items[itemId].quantity)
  {
  }

  /** One item of quantity 1 whose book has 100 in stock: raising the quantity to 2 is refused
      with "0" as written, and goes ahead by 1 with the column read by position. */
  lemma UpdateIncreaseExample()
    ensures var t := Tables(map[1 := Book(500, 100)], map[1 := Order(1, 500, "Pending")],
                            map[1 := Item(1, 1, 1, 500)], []);
      UpdateOutcome(t, 1, Some(2), DictRows) == Err(Raised("0")) &&
      UpdateOutcome(t, 1, Some(2), TupleRows) == Ok(1)
  {
  }

  /** With the stock column read correctly, a committed increase never drives the stock below
      zero, and a decrease never lowers it. */
  lemma IntendedUpdateKeepsStock(t: Tables, itemId: int, q: int)
    requires UpdateOutcome(t, itemId, Some(q), TupleRows).Ok?
    ensures var it := t.items[itemId];
      it.bookId in t.books ==>
        var after := UpdateItemEffect(t, itemId, q).books[it.bookId].stock;
        (q > it.quantity ==> after >= 0) && (q <= it.quantity ==> after >= t.books[it.bookId].stock)
  {
  }

  /** update_item(item_id, {"quantity": q}) as written; `quantity` is the entry under
      "quantity", `None` when the updates hold no such key. Only a quantity that does not grow
      is ever committed: an increase fails on reading the stock column (see
      `UpdateIncreaseFails`) and is rolled back. */
  method UpdateItem(db: Database, itemId: int, quantity: Option<int>) returns (r: Result<int>)
    requires db.Valid()
    modifies db
    ensures db.Valid()
    ensures db.nextOrderId == old(db.nextOrderId) && db.nextItemId == old(db.nextItemId)
    ensures db.nextPaymentId == old(db.nextPaymentId)
    ensures var c := UpdateOutcome(old(db.Snapshot()), itemId, quantity, DictRows);
      if c.Err? then r == Err(c.error) && db.Snapshot() == old(db.Snapshot())
      else
        r == Ok(itemId) &&
        db.Snapshot() == UpdateItemEffect(old(db.Snapshot()), itemId, quantity.value) &&
        db.items[itemId].priceEach == old(db.items)[itemId].priceEach &&
        (c.value == 0 ==> db.books == old(db.books))
    ensures r.Ok? ==>
      quantity.Some? && itemId in old(db.items) && quantity.value <= old(db.items)[itemId].quantity
    ensures SupplyPreserved(old(db.Snapshot()), db.Snapshot())
    ensures TotalsMatch(old(db.Snapshot())) ==> TotalsMatch(db.Snapshot())
  {
    var outcome := UpdateOutcome(db.Snapshot(), itemId, quantity, DictRows);
    if outcome.Err? {
      return Err(outcome.error);
    }
    ghost var before := db.Snapshot();
    CommitQuantity(db, itemId, quantity.value);
    UpdateItemKeepsInvariants(before, itemId, quantity.value);
    r := Ok(itemId);
  }

  /** update_item with the stock column read as intended: an increase goes ahead exactly when
      the book exists and holds enough stock, and then leaves that stock non-negative. */
  method UpdateItemIntended(db: Database, itemId: int, quantity: Option<int>) returns (r: Result<int>)
    requires db.Valid()
    modifies db
    ensures db.Valid()
    ensures db.nextOrderId == old(db.nextOrderId) && db.nextItemId == old(db.nextItemId)
    ensures db.nextPaymentId == old(db.nextPaymentId)
    ensures var c := UpdateOutcome(old(db.Snapshot()), itemId, quantity, TupleRows);
      if c.Err? then r == Err(c.error) && db.Snapshot() == old(db.Snapshot())
      else
        var it := old(db.items)[itemId];
        r == Ok(itemId) &&
        db.Snapshot() == UpdateItemEffect(old(db.Snapshot()), itemId, quantity.value) &&
        db.items[itemId].priceEach == it.priceEach &&
        (c.value == 0 ==> db.books == old(db.books)) &&
        (c.value > 0 ==> db.books[it.bookId].stock >= 0)
    ensures SupplyPreserved(old(db.Snapshot()), db.Snapshot())
    ensures TotalsMatch(old(db.Snapshot())) ==> TotalsMatch(db.Snapshot())
  {
    var outcome := UpdateOutcome(db.Snapshot(), itemId, quantity, TupleRows);
    if outcome.Err? {
      return Err(outcome.error);
    }
    ghost var before := db.Snapshot();
    IntendedUpdateKeepsStock(before, itemId, quantity.value);
    CommitQuantity(db, itemId, quantity.value);
    UpdateItemKeepsInvariants(before, itemId, quantity.value);
    r := Ok(itemId);
  }

  /** The writes of a checked update_item: stock (only when the quantity changes), the item's
      quantity and the order total. */
  method CommitQuantity(db: Database, itemId: int, newQty: int)
    requires db.Valid() && itemId in db.items
    modifies db`books, db`items, db`orders
    ensures db.Valid()
    ensures db.Snapshot() == UpdateItemEffect(old(db.Snapshot()), itemId, newQty)
    ensures newQty == old(db.items)[itemId].quantity ==> db.books == old(db.books)
  {
    var it := db.items[itemId];
    var delta := newQty - it.quantity;
    if delta != 0 {
      db.books := AdjustStock(db.books, it.bookId, -delta);
    } else {
      assert AdjustStock(db.books, it.bookId, -delta) == db.books;
    }
    db.items := db.items[itemId := it.(quantity := newQty)];
    db.orders := AdjustTotal(db.orders, it.orderId, delta * it.priceEach);
  }

  /** delete_item(item_id). */
  method DeleteItem(db: Database, itemId: int) returns (r: Result<int>)
    requires db.Valid()
    modifies db
    ensures db.Valid()
    ensures db.nextOrderId == old(db.nextOrderId) && db.nextItemId == old(db.nextItemId)
    ensures db.nextPaymentId == old(db.nextPaymentId)
    ensures itemId !in old(db.items) ==>
      r == Err(NotFound("Item not found")) && db.Snapshot() == old(db.Snapshot())
    ensures itemId in old(db.items) ==>
      r == Ok(itemId) && db.Snapshot() == DeleteItemEffect(old(db.Snapshot()), itemId)
    ensures SupplyPreserved(old(db.Snapshot()), db.Snapshot())
    ensures TotalsMatch(old(db.Snapshot())) ==> TotalsMatch(db.Snapshot())
  {
    if itemId !in db.items {
      return Err(NotFound("Item not found"));
    }
    ghost var before := db.Snapshot();
    var it := db.items[itemId];
    db.books := AdjustStock(db.books, it.bookId, it.quantity);
    db.orders := AdjustTotal(db.orders, it.orderId, -(it.quantity * it.priceEach));
    db.items := db.items - {itemId};
    DeleteItemKeepsInvariants(before, itemId);
    r := Ok(itemId);
  }

  /** A caller that adds an item and deletes it again finds every table as it was. */
  method AddThenDelete(db: Database, orderId: int, data: ItemData) returns (added: Result<int>)
    requires db.Valid()
    modifies db
    ensures db.Valid()
    ensures db.Snapshot() == old(db.Snapshot())
  {
    ghost var before := db.Snapshot();
    added := AddItem(db, orderId, data);
    if added.Ok? {
      var it := db.items[added.value];
      AddThenDeleteRestores(before, added.value, it);
      var deleted := DeleteItem(db, added.value);
    }
  }
}
