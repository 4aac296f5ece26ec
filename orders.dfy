/** OrdersAPI: creating an order with its items, order-level updates, deleting an order with its
    items (handing their quantities back to stock), recording a payment and the search-field
    check. */
module Orders {
  import opened Results
  import opened Sums
  import opened PyValues
  import opened Helpers
  import opened Store
  import opened Cursors
  import opened PyText

  /** One entry of `order_data["items"]`; an absent key is `None`. */
  datatype LineInput = LineInput(bookId: Option<int>, quantity: Option<int>, priceEach: Option<int>)

  /** The entries `add` reads from `order_data`; an absent key is `None`. */
  datatype OrderData = OrderData(customerId: Option<int>, totalAmount: Option<int>,
                                 orderStatus: Option<string>, items: Option<seq<LineInput>>)

  /** A line the insert can read without a KeyError. */
  predicate Complete(l: LineInput) {
    l.bookId.Some? && l.quantity.Some? && l.priceEach.Some?
  }

  /** The key whose lookup raises first: the insert reads book_id, quantity, price_each in turn. */
  function MissingKeyOf(l: LineInput): (key: string)
    requires !Complete(l)
    ensures key == "book_id" <==> l.bookId.None?
    ensures key == "quantity" <==> l.bookId.Some? && l.quantity.None?
    ensures key == "price_each" <==> l.bookId.Some? && l.quantity.Some?
  {
    if l.bookId.None? then "book_id" else if l.quantity.None? then "quantity" else "price_each"
  }

  /** The index of the first line the insert loop cannot read. */
  function FirstIncomplete(ls: seq<LineInput>): (k: nat)
    requires exists j :: 0 <= j < |ls| && !Complete(ls[j])
    ensures k < |ls| && !Complete(ls[k])
    ensures forall j :: 0 <= j < k ==> Complete(ls[j])
  {
    if !Complete(ls[0]) then 0
    else
      assert exists j :: 0 <= j < |ls[1..]| && !Complete(ls[1..][j]) by {
        var j :| 0 <= j < |ls| && !Complete(ls[j]);
        assert ls[1..][j - 1] == ls[j];
      }
      1 + FirstIncomplete(ls[1..])
  }

  /** The order_items row inserted for a line of order `oid`. */
  function LineItem(oid: int, l: LineInput): (it: Item)
    requires Complete(l)
    ensures it.orderId == oid && it.bookId == l.bookId.value
    ensures it.quantity == l.quantity.value && it.priceEach == l.priceEach.value
  {
    Item(oid, l.bookId.value, l.quantity.value, l.priceEach.value)
  }

  /** The rows inserted for the lines, in order. */
  function LineItems(oid: int, ls: seq<LineInput>): (s: seq<Item>)
    requires forall j :: 0 <= j < |ls| ==> Complete(ls[j])
    ensures |s| == |ls|
    ensures forall j :: 0 <= j < |ls| ==> s[j] == LineItem(oid, ls[j])
    decreases |ls|
  {
    if ls == [] then [] else LineItems(oid, ls[..|ls| - 1]) + [LineItem(oid, ls[|ls| - 1])]
  }

  /** The lines as calculate_order_total reads them. */
  function Priced(ls: seq<LineInput>): (ps: seq<PricedLine>)
    ensures |ps| == |ls|
    ensures forall j :: 0 <= j < |ls| ==>
      ps[j] == PricedLine(ls[j].priceEach, ls[j].quantity)
    decreases |ls|
  {
    if ls == [] then [] else Priced(ls[..|ls| - 1]) + [PricedLine(ls[|ls| - 1].priceEach, ls[|ls| - 1].quantity)]
  }

  /** A committed `add`: the order row, then each item row whose trigger takes its stock. */
  function AddOrderEffect(t: Tables, oid: int, o: Order, first: int, s: seq<Item>): Tables {
    Tables(TakeStock(t.books, s), t.orders[oid := o], InsertAt(t.items, first, s), t.payments)
  }

  /** Each book's stock raised by the quantities of its items among the rows `s` of `items`. */
  ghost function RestoredBooks(books: map<int, Book>, items: map<int, Item>, s: set<int>): map<int, Book> {
    map b | b in books :: books[b].(stock := books[b].stock + SumMap(Restrict(items, s), QuantityOf(b)))
  }

  /** Giving back one more item's quantity is one more stock update. */
  lemma RestoredBooksStep(books: map<int, Book>, items: map<int, Item>, s: set<int>, i: int)
    requires i in items && i !in s
    ensures RestoredBooks(books, items, s + {i})
      == AdjustStock(RestoredBooks(books, items, s), items[i].bookId, items[i].quantity)
  {
    var it := items[i];
    var before := RestoredBooks(books, items, s);
    var after := RestoredBooks(books, items, s + {i});
    forall b | b in books
      ensures SumMap(Restrict(items, s + {i}), QuantityOf(b))
        == SumMap(Restrict(items, s), QuantityOf(b)) + QuantityOf(b)(it)
    {
      assert Restrict(items, s + {i}) == Restrict(items, s)[i := it];
      SumInsert(Restrict(items, s), i, it, QuantityOf(b));
    }
    var adjusted := AdjustStock(before, it.bookId, it.quantity);
    assert after.Keys == adjusted.Keys;
    forall b | b in after
      ensures after[b] == adjusted[b]
    {
      if b == it.bookId {
        assert adjusted[b] == before[b].(stock := before[b].stock + it.quantity);
      } else {
        assert adjusted[b] == before[b];
      }
    }
  }

  /** Giving back no rows changes no stock. */
  lemma RestoredNothing(books: map<int, Book>, items: map<int, Item>)
    ensures RestoredBooks(books, items, {}) == books
  {
    assert Restrict(items, {}) == map[];
  }

  /** A committed `delete`: every item's quantity is given back to its book, then the order and
      (by the cascade) its items are removed. */
  ghost function DeleteOrderEffect(t: Tables, o: int): Tables {
    var gone := ItemsOfOrder(t.items, o);
    Tables(RestoredBooks(t.books, t.items, gone), t.orders - {o}, t.items - gone, t.payments)
  }

  /** Items all belonging to `oid` add nothing to another order's line amount. */
  lemma {:induction false} SeqSumOtherOrder(s: seq<Item>, oid: int, o: int)
    requires o != oid
    requires forall j :: 0 <= j < |s| ==> s[j].orderId == oid
    ensures SeqSum(s, LineAmountIn(o)) == 0
    decreases |s|
  {
    if s != [] {
      SeqSumOtherOrder(s[..|s| - 1], oid, o);
    }
  }

  /** The line amount of the rows inserted for `ls` is what calculate_order_total sums. */
  lemma {:induction false} LineItemsAmount(oid: int, ls: seq<LineInput>)
    requires forall j :: 0 <= j < |ls| ==> Complete(ls[j])
    ensures SeqSum(LineItems(oid, ls), LineAmountIn(oid)) == LinesSum(Priced(ls))
    decreases |ls|
  {
    if ls != [] {
      var init := ls[..|ls| - 1];
      LineItemsAmount(oid, init);
      assert LineItems(oid, ls)[..|ls| - 1] == LineItems(oid, init);
      assert Priced(ls)[..|ls| - 1] == Priced(init);
      var l := ls[|ls| - 1];
      assert l.quantity.value * l.priceEach.value == l.priceEach.value * l.quantity.value;
    }
  }

  /** `add` conserves every book's supply; when the totals matched before, they match after
      exactly when the caller's total is the line amount of the new items. */
  lemma AddOrderKeepsInvariants(t: Tables, oid: int, o: Order, first: int, s: seq<Item>)
    requires oid !in t.orders
    requires forall i :: i in t.items ==> i < first && t.items[i].orderId != oid
    requires forall j :: 0 <= j < |s| ==> s[j].orderId == oid
    ensures SupplyPreserved(t, AddOrderEffect(t, oid, o, first, s))
    ensures TotalsMatch(t) ==>
      (TotalsMatch(AddOrderEffect(t, oid, o, first, s)) <==> o.total == SeqSum(s, LineAmountIn(oid)))
  {
    var u := AddOrderEffect(t, oid, o, first, s);
    forall b | b in t.books
      ensures Supply(t, b) == Supply(u, b)
    {
      TakeStockSum(t.books, s, b);
      InsertAtSum(t.items, first, s, QuantityOf(b));
    }
    InsertAtSum(t.items, first, s, LineAmountIn(oid));
    ForeignLinesAddNothing(t.items, oid);
    if TotalsMatch(t) {
      forall p | p in t.orders
        ensures u.orders[p].total == SumMap(u.items, LineAmountIn(p))
      {
        InsertAtSum(t.items, first, s, LineAmountIn(p));
        SeqSumOtherOrder(s, oid, p);
      }
    }
  }

  /** `delete` conserves every book's supply, keeps the other orders' totals equal to their
      lines, and leaves the books the order does not hold untouched. */
  lemma DeleteOrderKeepsInvariants(t: Tables, o: int)
    ensures SupplyPreserved(t, DeleteOrderEffect(t, o))
    ensures TotalsMatch(t) ==> TotalsMatch(DeleteOrderEffect(t, o))
    ensures forall b :: (b in t.books &&
      forall i :: i in t.items && t.items[i].orderId == o ==> t.items[i].bookId != b) ==>
        DeleteOrderEffect(t, o).books[b] == t.books[b]
  {
    var gone := ItemsOfOrder(t.items, o);
    var u := DeleteOrderEffect(t, o);
    forall b | b in t.books
      ensures Supply(t, b) == Supply(u, b)
    {
      SumPartition(t.items, gone, QuantityOf(b));
    }
    if TotalsMatch(t) {
      forall p | p in u.orders
        ensures u.orders[p].total == SumMap(u.items, LineAmountIn(p))
      {
        SumPartition(t.items, gone, LineAmountIn(p));
        ForeignLinesAddNothing(Restrict(t.items, gone), p);
      }
    }
    forall b | b in t.books &&
      (forall i :: i in t.items && t.items[i].orderId == o ==> t.items[i].bookId != b)
      ensures u.books[b] == t.books[b]
    {
      var held := Restrict(t.items, gone);
      assert forall i :: i in held ==> QuantityOf(b)(held[i]) == 0;
      SumZero(held, QuantityOf(b));
    }
  }

  /** Creating an order and then deleting it gives back every table as it was. */
  lemma CreateThenDeleteRestores(t: Tables, oid: int, o: Order, first: int, s: seq<Item>)
    requires oid !in t.orders
    requires forall i :: i in t.items ==> i < first && t.items[i].orderId != oid
    requires forall j :: 0 <= j < |s| ==> s[j].orderId == oid
    ensures DeleteOrderEffect(AddOrderEffect(t, oid, o, first, s), oid) == t
  {
    var u := AddOrderEffect(t, oid, o, first, s);
    InsertedRowsSplit(t.items, oid, first, s);
    assert u.orders - {oid} == t.orders;
    var v := DeleteOrderEffect(u, oid);
    forall b | b in t.books
      ensures v.books[b] == t.books[b]
    {
      TakeStockSum(t.books, s, b);
      InsertAtSum(map[], first, s, QuantityOf(b));
    }
    assert v.books == t.books;
  }

  /** The rows of the new order are exactly the inserted ones; taking them out leaves the old
      rows. */
  lemma InsertedRowsSplit(items: map<int, Item>, oid: int, first: int, s: seq<Item>)
    requires forall i :: i in items ==> i < first && items[i].orderId != oid
    requires forall j :: 0 <= j < |s| ==> s[j].orderId == oid
    ensures Restrict(InsertAt(items, first, s), ItemsOfOrder(InsertAt(items, first, s), oid))
      == InsertAt(map[], first, s)
    ensures InsertAt(items, first, s) - ItemsOfOrder(InsertAt(items, first, s), oid) == items
  {
    var u := InsertAt(items, first, s);
    var gone := ItemsOfOrder(u, oid);
    var added := InsertAt(map[], first, s);
    InsertAtFacts(map[], first, s);
    InsertAtFacts(items, first, s);
    forall i | i in u
      ensures u[i].orderId == oid <==> first <= i < first + |s|
      ensures first <= i < first + |s| ==> u[i] == added[i]
    {
      if first <= i < first + |s| {
        assert u[i] == s[i - first] && added[i] == s[i - first];
      }
    }
    assert Restrict(u, gone) == added;
    assert u - gone == items;
  }

  lemma InsertAtSnoc(m: map<int, Item>, first: int, s: seq<Item>, it: Item)
    ensures InsertAt(m, first, s + [it]) == InsertAt(m, first, s)[first + |s| := it]
  {
    assert (s + [it])[..|s|] == s;
  }

  lemma TakeStockSnoc(books: map<int, Book>, s: seq<Item>, it: Item)
    ensures TakeStock(books, s + [it]) == AdjustStock(TakeStock(books, s), it.bookId, -it.quantity)
  {
    assert (s + [it])[..|s|] == s;
  }

  /** The insert loop of `add`: one order_items row per line, each taking its quantity from
      stock through the insert trigger, until a line lacks a key. `missing` is the index of that
      line; the rows inserted before it are left for the caller's rollback. */
  method InsertLines(db: Database, oid: int, ls: seq<LineInput>) returns (missing: Option<nat>)
    modifies db
    ensures db.orders == old(db.orders) && db.payments == old(db.payments)
    ensures db.nextOrderId == old(db.nextOrderId) && db.nextPaymentId == old(db.nextPaymentId)
    ensures db.nextItemId >= old(db.nextItemId)
    ensures missing.None? <==> forall j :: 0 <= j < |ls| ==> Complete(ls[j])
    ensures missing.Some? ==>
      (exists j :: 0 <= j < |ls| && !Complete(ls[j])) && missing.value == FirstIncomplete(ls)
    ensures missing.None? ==>
      db.items == InsertAt(old(db.items), old(db.nextItemId), LineItems(oid, ls)) &&
      db.books == TakeStock(old(db.books), LineItems(oid, ls)) &&
      db.nextItemId == old(db.nextItemId) + |ls|
  {
    var first := db.nextItemId;
    var k := 0;
    ghost var inserted: seq<Item> := [];
    while k < |ls|
      invariant 0 <= k <= |ls|
      invariant forall j :: 0 <= j < k ==> Complete(ls[j])
      invariant |inserted| == k
      invariant forall j :: 0 <= j < k ==> inserted[j] == LineItem(oid, ls[j])
      invariant db.items == InsertAt(old(db.items), first, inserted)
      invariant db.books == TakeStock(old(db.books), inserted)
      invariant db.nextItemId == first + k
      modifies db`items, db`books, db`nextItemId
    {
      if !Complete(ls[k]) {
        assert FirstIncomplete(ls) == k by {
          var f := FirstIncomplete(ls);
          assert !(f < k) && !(k < f);
        }
        return Some(k);
      }
      var it := LineItem(oid, ls[k]);
      InsertAtSnoc(old(db.items), first, inserted, it);
      TakeStockSnoc(old(db.books), inserted, it);
      ghost var newItems := InsertAt(old(db.items), first, inserted + [it]);
      assert newItems == db.items[db.nextItemId := it];
      db.items := db.items[db.nextItemId := it];
      db.books := AdjustStock(db.books, it.bookId, -it.quantity);
      db.nextItemId := db.nextItemId + 1;
      inserted := inserted + [it];
      k := k + 1;
    }
    assert inserted == LineItems(oid, ls);
    missing := None;
  }

  /** What `add` reads from `order_data` before it opens the transaction: the order row to
      insert (total 0 and status "Pending" by default) and its lines, or the refusal when the
      customer id is absent or 0 or there are no lines. */
  function OrderRequest(data: OrderData): (r: Result<(Order, seq<LineInput>)>)
    ensures r.Ok? <==> data.customerId.Some? && data.customerId.value != 0 && data.items.GetOr([]) != []
    ensures r.Ok? ==>
      r.value.0 == Order(data.customerId.value, data.totalAmount.GetOr(0), data.orderStatus.GetOr("Pending")) &&
      r.value.1 == data.items.value
    ensures r.Err? ==> r.error == Invalid("Customer ID and order items required")
  {
    var ls := data.items.GetOr([]);
    if data.customerId.None? || data.customerId.value == 0 || ls == [] then
      Err(Invalid("Customer ID and order items required"))
    else
      Ok((Order(data.customerId.value, data.totalAmount.GetOr(0), data.orderStatus.GetOr("Pending")), ls))
  }

  /** add(order_data) as written. A line without one of its keys raises inside the transaction,
      which is rolled back (the AUTO_INCREMENT counters are not). A well-formed add commits, and
      then reads the order back through the same tuple cursor: `OrderModel.from_db_row` calls
      `get` on a tuple and raises after the commit, so the caller is told the add failed
      although the order, its items and the stock they took are stored. */
  method AddOrder(db: Database, data: OrderData) returns (r: Result<int>)
    requires db.Valid()
    modifies db
    ensures db.Valid()
    ensures db.nextPaymentId == old(db.nextPaymentId)
    ensures var req := OrderRequest(data);
      if req.Err? then
        r == Err(req.error) && db.Snapshot() == old(db.Snapshot()) &&
        db.nextOrderId == old(db.nextOrderId) && db.nextItemId == old(db.nextItemId)
      else
        var (o, ls) := req.value;
        if exists k :: 0 <= k < |ls| && !Complete(ls[k]) then
          r == Err(MissingKey(MissingKeyOf(ls[FirstIncomplete(ls)]))) && db.Snapshot() == old(db.Snapshot())
        else
          var oid := old(db.nextOrderId);
          r == Err(Raised(TupleHasNoGet)) &&
          db.Snapshot() == AddOrderEffect(old(db.Snapshot()), oid, o, old(db.nextItemId), LineItems(oid, ls)) &&
          (TotalsMatch(old(db.Snapshot())) ==> (TotalsMatch(db.Snapshot()) <==> o.total == LinesSum(Priced(ls))))
    ensures SupplyPreserved(old(db.Snapshot()), db.Snapshot())
  {
    var req := OrderRequest(data);
    if req.Err? {
      return Err(req.error);
    }
    var created := CreateOrder(db, req.value.0, req.value.1);
    if created.Err? {
      return created;
    }
    r := ColumnGet(TupleRows, created.value);
  }

  /** add(order_data) with the order read back through a dictionary cursor, as the rest of the
      API does: a committed add reports the new order's id. */
  method AddOrderIntended(db: Database, data: OrderData) returns (r: Result<int>)
    requires db.Valid()
    modifies db
    ensures db.Valid()
    ensures db.nextPaymentId == old(db.nextPaymentId)
    ensures r.Err? ==> db.Snapshot() == old(db.Snapshot())
    ensures var req := OrderRequest(data);
      if req.Err? then
        r == Err(req.error) && db.nextOrderId == old(db.nextOrderId) && db.nextItemId == old(db.nextItemId)
      else
        var (o, ls) := req.value;
        if exists k :: 0 <= k < |ls| && !Complete(ls[k]) then
          r == Err(MissingKey(MissingKeyOf(ls[FirstIncomplete(ls)])))
        else
          var oid := old(db.nextOrderId);
          r == Ok(oid) &&
          db.Snapshot() == AddOrderEffect(old(db.Snapshot()), oid, o, old(db.nextItemId), LineItems(oid, ls)) &&
          (TotalsMatch(old(db.Snapshot())) ==> (TotalsMatch(db.Snapshot()) <==> o.total == LinesSum(Priced(ls))))
    ensures SupplyPreserved(old(db.Snapshot()), db.Snapshot())
  {
    var req := OrderRequest(data);
    if req.Err? {
      return Err(req.error);
    }
    var created := CreateOrder(db, req.value.0, req.value.1);
    if created.Err? {
      return created;
    }
    r := ColumnGet(DictRows, created.value);
  }

  /** The transaction of a checked `add`: the order row, then its lines; a line without one of
      its keys rolls everything back. */
  method CreateOrder(db: Database, o: Order, ls: seq<LineInput>) returns (r: Result<int>)
    requires db.Valid()
    modifies db
    ensures db.Valid()
    ensures db.nextPaymentId == old(db.nextPaymentId)
    ensures r.Err? ==> db.Snapshot() == old(db.Snapshot())
    ensures
      if exists k :: 0 <= k < |ls| && !Complete(ls[k]) then
        r == Err(MissingKey(MissingKeyOf(ls[FirstIncomplete(ls)])))
      else
        var oid := old(db.nextOrderId);
        r == Ok(oid) &&
        db.Snapshot() == AddOrderEffect(old(db.Snapshot()), oid, o, old(db.nextItemId), LineItems(oid, ls)) &&
        (TotalsMatch(old(db.Snapshot())) ==> (TotalsMatch(db.Snapshot()) <==> o.total == LinesSum(Priced(ls))))
    ensures SupplyPreserved(old(db.Snapshot()), db.Snapshot())
  {
    var before := db.Snapshot();
    var oid := db.nextOrderId;
    var first := db.nextItemId;
    db.orders := db.orders[oid := o];
    db.nextOrderId := oid + 1;
    var missing := InsertLines(db, oid, ls);
    if missing.Some? {
      db.Restore(before);
      return Err(MissingKey(MissingKeyOf(ls[missing.value])));
    }
    ghost var s := LineItems(oid, ls);
    forall i | i in db.items
      ensures 1 <= i < db.nextItemId && db.items[i].orderId in db.orders
    {
      InsertAtRow(before.items, first, s, i);
    }
    assert db.Snapshot() == AddOrderEffect(before, oid, o, first, s);
    AddOrderKeepsInvariants(before, oid, o, first, s);
    LineItemsAmount(oid, ls);
    r := Ok(oid);
  }

  /** The columns `update` may set. */
  const AllowedOrderFields: set<string> := {"customer_id", "total_amount", "status"}

  /** The updates whose key is an allowed column, in their original order. */
  function AllowedOrderUpdates(updates: Dict): (r: Dict)
    ensures forall kv :: kv in r <==> kv in updates && kv.0 in AllowedOrderFields
    ensures |r| <= |updates|
    decreases |updates|
  {
    if updates == [] then []
    else
      var rest := AllowedOrderUpdates(updates[1..]);
      if updates[0].0 in AllowedOrderFields then [updates[0]] + rest else rest
  }

  /** Filtering twice keeps what filtering once kept. */
  lemma {:induction false} AllowedOrderUpdatesIdempotent(updates: Dict)
    ensures AllowedOrderUpdates(AllowedOrderUpdates(updates)) == AllowedOrderUpdates(updates)
    decreases |updates|
  {
    if updates != [] {
      AllowedOrderUpdatesIdempotent(updates[1..]);
      var rest := AllowedOrderUpdates(updates[1..]);
      if updates[0].0 in AllowedOrderFields {
        assert ([updates[0]] + rest)[1..] == rest;
      }
    }
  }

  /** `n` is order `o` after `SET k = v` for each entry of `updates`: a column named in the
      updates holds the given value, and a column not named keeps the old one. */
  predicate SetsColumns(o: Order, updates: Dict, n: Order) {
    (if Lookup(updates, "customer_id").Some? then Lookup(updates, "customer_id").value == VInt(n.customerId)
     else n.customerId == o.customerId) &&
    (if Lookup(updates, "total_amount").Some? then Lookup(updates, "total_amount").value == VInt(n.total)
     else n.total == o.total) &&
    (if Lookup(updates, "status").Some? then Lookup(updates, "status").value == VStr(n.status)
     else n.status == o.status)
  }

  /** The `SET` clause applied to one order row; a value of the wrong kind for its column is
      refused by the database. On a dictionary (distinct keys) a successful update writes
      exactly the given values. */
  function ApplyOrderUpdates(o: Order, updates: Dict): (r: Result<Order>)
    requires forall kv :: kv in updates ==> kv.0 in AllowedOrderFields
    ensures r.Ok? && DistinctKeys(updates) ==> SetsColumns(o, updates, r.value)
    ensures r.Ok? ==> r.value.total == o.total || exists v :: ("total_amount", VInt(v)) in updates
    decreases |updates|
  {
    if updates == [] then Ok(o)
    else
      var (k, v) := updates[0];
      var next :=
        if k == "customer_id" && v.VInt? then Ok(o.(customerId := v.i))
        else if k == "total_amount" && v.VInt? then Ok(o.(total := v.i))
        else if k == "status" && v.VStr? then Ok(o.(status := v.s))
        else Err(Rejected("Incorrect value for column " + k));
      match next
      case Err(e) => Err(e)
      case Ok(o') =>
        var r := ApplyOrderUpdates(o', updates[1..]);
        assert forall kv :: kv in updates[1..] ==> kv in updates;
        assert r.Ok? && DistinctKeys(updates) ==> SetsColumns(o, updates, r.value) by {
          if r.Ok? && DistinctKeys(updates) {
            DistinctTail(updates);
            assert k !in Keys(updates[1..]) by {
              forall j | 0 <= j < |updates[1..]| ensures Keys(updates[1..])[j] != k {
                assert updates[1..][j] == updates[j + 1];
              }
            }
          }
        }
        r
  }

  /** Dropping the first entry of a dictionary keeps its keys distinct. */
  lemma DistinctTail(d: Dict)
    requires d != [] && DistinctKeys(d)
    ensures DistinctKeys(d[1..])
  {
    forall i, j | 0 <= i < j < |d[1..]| ensures d[1..][i].0 != d[1..][j].0 {
      assert d[1..][i] == d[i + 1] && d[1..][j] == d[j + 1];
    }
  }

  /** Filtering to the allowed columns keeps the value of every allowed column. */
  lemma {:induction false} AllowedOrderUpdatesLookup(updates: Dict, k: string)
    requires k in AllowedOrderFields
    ensures Lookup(AllowedOrderUpdates(updates), k) == Lookup(updates, k)
    decreases |updates|
  {
    if updates != [] {
      AllowedOrderUpdatesLookup(updates[1..], k);
      var rest := AllowedOrderUpdates(updates[1..]);
      if updates[0].0 in AllowedOrderFields {
        var r := [updates[0]] + rest;
        assert r[0] == updates[0] && r[1..] == rest;
      }
    }
  }

  /** The filtered updates of a dictionary are again a dictionary: no key twice. */
  lemma {:induction false} AllowedOrderUpdatesDistinct(updates: Dict)
    requires DistinctKeys(updates)
    ensures DistinctKeys(AllowedOrderUpdates(updates))
    decreases |updates|
  {
    if updates != [] {
      DistinctTail(updates);
      AllowedOrderUpdatesDistinct(updates[1..]);
      var rest := AllowedOrderUpdates(updates[1..]);
      if updates[0].0 in AllowedOrderFields {
        var r := [updates[0]] + rest;
        forall j | 0 <= j < |rest| ensures rest[j].0 != updates[0].0 {
          assert rest[j] in rest;
          var m :| 0 <= m < |updates[1..]| && updates[1..][m] == rest[j];
          assert updates[m + 1] == rest[j];
        }
        forall i, j | 0 <= i < j < |r| ensures r[i].0 != r[j].0 {
          if i == 0 {
            assert r[j] == rest[j - 1];
          } else {
            assert r[i] == rest[i - 1] && r[j] == rest[j - 1];
          }
        }
      }
    }
  }

  /** On a dictionary of updates, a successful `SET` of the allowed entries writes each allowed
      column the caller gave and leaves the others; the other entries play no part. */
  lemma UpdateSetsColumns(o: Order, updates: Dict)
    requires ApplyOrderUpdates(o, AllowedOrderUpdates(updates)).Ok?
    ensures DistinctKeys(updates) ==>
      SetsColumns(o, updates, ApplyOrderUpdates(o, AllowedOrderUpdates(updates)).value)
  {
    if DistinctKeys(updates) {
      AllowedOrderUpdatesDistinct(updates);
      AllowedOrderUpdatesLookup(updates, "customer_id");
      AllowedOrderUpdatesLookup(updates, "total_amount");
      AllowedOrderUpdatesLookup(updates, "status");
    }
  }

  /** A successful `SET` of updates that name no total_amount leaves the total as it was. */
  lemma UpdateKeepsTotal(o: Order, updates: Dict)
    requires ApplyOrderUpdates(o, AllowedOrderUpdates(updates)).Ok?
    ensures "total_amount" !in Keys(updates) ==>
      ApplyOrderUpdates(o, AllowedOrderUpdates(updates)).value.total == o.total
  {
    AllowedOrderUpdatesLookup(updates, "total_amount");
  }

  /** What update(order_id, updates) reports, the updated order being what get_by_id reads
      back: an empty update, one with no allowed column, a value of the wrong kind or an order
      that does not exist is refused; otherwise the order with the given columns set. */
  function UpdateOrderOutcome(orders: map<int, Order>, orderId: int, updates: Dict): (r: Result<Order>)
    ensures r.Ok? <==>
      AllowedOrderUpdates(updates) != [] &&
      ApplyOrderUpdates(Order(0, 0, ""), AllowedOrderUpdates(updates)).Ok? && orderId in orders
    ensures r.Ok? && DistinctKeys(updates) ==> SetsColumns(orders[orderId], updates, r.value)
    ensures r.Ok? && "total_amount" !in Keys(updates) ==> r.value.total == orders[orderId].total
  {
    if updates == [] then Err(Invalid("No fields to update"))
    else
      var allowed := AllowedOrderUpdates(updates);
      if allowed == [] then Err(Invalid("No valid order fields to update"))
      else
        var probe := ApplyOrderUpdates(Order(0, 0, ""), allowed);
        if probe.Err? then probe
        else if orderId !in orders then Err(NotFound("Order not found"))
        else
          KindsDoNotDependOnRow(Order(0, 0, ""), orders[orderId], allowed);
          UpdateSetsColumns(orders[orderId], updates);
          UpdateKeepsTotal(orders[orderId], updates);
          ApplyOrderUpdates(orders[orderId], allowed)
  }

  /** update(order_id, updates): the order row is replaced by the outcome's order, and nothing
      else changes; a refusal changes nothing. */
  method UpdateOrder(db: Database, orderId: int, updates: Dict) returns (r: Result<Order>)
    requires db.Valid()
    modifies db
    ensures db.Valid()
    ensures db.nextOrderId == old(db.nextOrderId) && db.nextItemId == old(db.nextItemId)
    ensures db.nextPaymentId == old(db.nextPaymentId)
    ensures db.books == old(db.books) && db.items == old(db.items) && db.payments == old(db.payments)
    ensures r == UpdateOrderOutcome(old(db.orders), orderId, updates)
    ensures r.Ok? ==> db.orders == old(db.orders)[orderId := r.value]
    ensures r.Err? ==> db.Snapshot() == old(db.Snapshot())
    ensures "total_amount" !in Keys(updates) && TotalsMatch(old(db.Snapshot())) ==>
      TotalsMatch(db.Snapshot())
  {
    r := UpdateOrderOutcome(db.orders, orderId, updates);
    if r.Ok? {
      SetOrderRow(db, orderId, r.value);
    }
  }

  /** The write of `update` on an existing order: only that order's row changes, so the totals
      still match when its total stays. */
  method SetOrderRow(db: Database, orderId: int, n: Order)
    requires db.Valid() && orderId in db.orders
    modifies db`orders
    ensures db.Valid()
    ensures db.orders == old(db.orders)[orderId := n]
    ensures n.total == old(db.orders)[orderId].total && TotalsMatch(old(db.Snapshot())) ==>
      TotalsMatch(db.Snapshot())
  {
    db.orders := db.orders[orderId := n];
  }

  /** Whether the `SET` clause is refused depends only on the values' kinds, not on the row. */
  lemma {:induction false} KindsDoNotDependOnRow(o1: Order, o2: Order, updates: Dict)
    requires forall kv :: kv in updates ==> kv.0 in AllowedOrderFields
    ensures ApplyOrderUpdates(o1, updates).Err? <==> ApplyOrderUpdates(o2, updates).Err?
    ensures ApplyOrderUpdates(o1, updates).Err? ==>
      ApplyOrderUpdates(o1, updates) == ApplyOrderUpdates(o2, updates)
    decreases |updates|
  {
    if updates != [] {
      var (k, v) := updates[0];
      assert forall kv :: kv in updates[1..] ==> kv in updates;
      if k == "customer_id" && v.VInt? {
        KindsDoNotDependOnRow(o1.(customerId := v.i), o2.(customerId := v.i), updates[1..]);
      } else if k == "total_amount" && v.VInt? {
        KindsDoNotDependOnRow(o1.(total := v.i), o2.(total := v.i), updates[1..]);
      } else if k == "status" && v.VStr? {
        KindsDoNotDependOnRow(o1.(status := v.s), o2.(status := v.s), updates[1..]);
      }
    }
  }

  /** The stock loop of `delete`: `UPDATE books SET stock = stock + quantity` for each of the
      rows `gone` of `items`, visited in whatever order the SELECT returned them. */
  method RestoreStock(db: Database, items: map<int, Item>, gone: set<int>)
    requires gone <= items.Keys
    modifies db`books
    ensures db.books == RestoredBooks(old(db.books), items, gone)
  {
    ghost var books0 := db.books;
    var remaining := gone;
    ghost var done: set<int> := {};
    RestoredNothing(books0, items);
    while remaining != {}
      invariant remaining + done == gone && remaining !! done
      invariant db.books == RestoredBooks(books0, items, done)
      decreases |remaining|
    {
      ghost var some := Pick(remaining);
      var i :| i in remaining;
      RestoredBooksStep(books0, items, done, i);
      db.books := AdjustStock(db.books, items[i].bookId, items[i].quantity);
      remaining := remaining - {i};
      done := done + {i};
    }
  }

  /** delete(order_id): gives every item's quantity back to its book, then deletes the order;
      the cascade removes its items. There is no existence check: deleting an absent order
      succeeds and changes nothing. */
  method DeleteOrder(db: Database, orderId: int) returns (r: Result<int>)
    requires db.Valid()
    modifies db
    ensures db.Valid()
    ensures db.nextOrderId == old(db.nextOrderId) && db.nextItemId == old(db.nextItemId)
    ensures db.nextPaymentId == old(db.nextPaymentId)
    ensures r == Ok(orderId)
    ensures db.Snapshot() == DeleteOrderEffect(old(db.Snapshot()), orderId)
    ensures orderId !in old(db.orders) ==> db.Snapshot() == old(db.Snapshot())
    ensures SupplyPreserved(old(db.Snapshot()), db.Snapshot())
    ensures TotalsMatch(old(db.Snapshot())) ==> TotalsMatch(db.Snapshot())
  {
    ghost var before := db.Snapshot();
    var gone := ItemsOfOrder(db.items, orderId);
    RestoreStock(db, db.items, gone);
    db.orders := db.orders - {orderId};
    db.items := db.items - gone;
    DeleteOrderKeepsInvariants(before, orderId);
    if orderId !in before.orders {
      AbsentOrderDeletesNothing(before, orderId);
    }
    r := Ok(orderId);
  }

  /** An order that does not exist has no items, so deleting it changes nothing. */
  lemma AbsentOrderDeletesNothing(t: Tables, o: int)
    requires o !in t.orders
    requires forall i :: i in t.items ==> t.items[i].orderId in t.orders
    ensures DeleteOrderEffect(t, o) == t
  {
    var gone := ItemsOfOrder(t.items, o);
    assert forall i :: i in t.items ==> t.items[i].orderId != o;
    assert gone == {};
    RestoredNothing(t.books, t.items);
    assert t.items - {} == t.items;
  }

  /** A caller that creates an order and deletes it again finds books, orders and items as they
      were. */
  method CreateThenDelete(db: Database, data: OrderData) returns (created: Result<int>)
    requires db.Valid()
    modifies db
    ensures db.Valid()
    ensures db.Snapshot() == old(db.Snapshot())
  {
    ghost var before := db.Snapshot();
    ghost var first := db.nextItemId;
    created := AddOrderIntended(db, data);
    if created.Ok? {
      var oid := created.value;
      var (o, ls) := OrderRequest(data).value;
      CreateThenDeleteRestores(before, oid, o, first, LineItems(oid, ls));
      var deleted := DeleteOrder(db, oid);
    }
  }

  /** record_payment(order_id, amount, method, status, transaction_id): the new payment's id.
      The amount is stored as given; it is not compared with the order total. */
  method RecordPayment(db: Database, orderId: Option<int>, amount: Option<Decimal>,
                       paymentMethod: string := "UPI", status: string := "Success",
                       transactionId: Option<string> := None) returns (r: Result<int>)
    requires db.Valid()
    modifies db
    ensures db.Valid()
    ensures db.nextOrderId == old(db.nextOrderId) && db.nextItemId == old(db.nextItemId)
    ensures db.books == old(db.books) && db.orders == old(db.orders) && db.items == old(db.items)
    ensures
      if orderId.None? || orderId.value == 0 || amount.None? then
        r == Err(Invalid("Order ID and amount are required")) && db.payments == old(db.payments)
      else if orderId.value !in old(db.orders) then
        r == Err(OrderMissing(orderId.value)) && db.payments == old(db.payments)
      else
        r == Ok(old(db.nextPaymentId)) &&
        db.payments == old(db.payments) +
          [Payment(old(db.nextPaymentId), orderId.value, paymentMethod, amount.value, status, transactionId)]
    ensures r.Err? ==> db.nextPaymentId == old(db.nextPaymentId)
  {
    if orderId.None? || orderId.value == 0 || amount.None? {
      return Err(Invalid("Order ID and amount are required"));
    }
    if orderId.value !in db.orders {
      return Err(OrderMissing(orderId.value));
    }
    var id := db.nextPaymentId;
    db.payments := db.payments + [Payment(id, orderId.value, paymentMethod, amount.value, status, transactionId)];
    db.nextPaymentId := id + 1;
    r := Ok(id);
  }

  /** The fields `search` may filter on, in the source's order. */
  const OrderSearchFields: seq<string> := ["order_id", "customer_id", "status", "order_date"]

  /** search(by, query)'s plan, with `by` as `field`: the LIKE pattern for an allowed field, or
      the field error. A field off the list never reaches the SQL text; the query reaches it only
      as a parameter, verbatim between two wildcards. */
  function OrderSearch(field: string, query: string): (r: Result<string>)
    ensures r.Ok? <==> field in OrderSearchFields
    ensures r.Ok? ==> r.value == LikePattern(query) && r.value[1..|r.value| - 1] == query
    ensures r.Err? ==> r.error == Invalid("Invalid search field '" + field + "'")
  {
    if field in OrderSearchFields then Ok(LikePattern(query))
    else Err(Invalid("Invalid search field '" + field + "'"))
  }
}
