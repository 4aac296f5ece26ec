/** The bookshop's tables as the order, line-item and payment APIs see them: books (price and
    stock), orders (customer, total, status), order items and payments. Money is integer cents.

    The schema itself is outside this model; the table shapes follow the columns the API code
    reads and writes. Two schema facts are modelled because the API code relies on them: inserting
    an order item lowers the book's stock by the item's quantity (an insert trigger), and an order
    item's `order_id` is a foreign key that cascades when its order is deleted. */
module Store {
  import opened Results
  import opened Sums
  import opened Helpers

  datatype Book = Book(price: int, stock: int)
  datatype Order = Order(customerId: int, total: int, status: string)
  datatype Item = Item(orderId: int, bookId: int, quantity: int, priceEach: int)
  datatype Payment = Payment(paymentId: int, orderId: int, paymentMethod: string, amount: Decimal,
                             status: string, transactionId: Option<string>)

  /** A snapshot of every table: what a committed transaction changes and a rolled back one
      does not. */
  datatype Tables = Tables(books: map<int, Book>, orders: map<int, Order>,
                           items: map<int, Item>, payments: seq<Payment>)

  /** What an item contributes to the total of order `o`. */
  function LineAmountIn(o: int): Item -> int {
    (it: Item) => if it.orderId == o then it.quantity * it.priceEach else 0
  }

  /** How many copies of book `b` an item holds. */
  function QuantityOf(b: int): Item -> int {
    (it: Item) => if it.bookId == b then it.quantity else 0
  }

  /** Every order's stored total is the sum of quantity × price_each over its items. */
  ghost predicate TotalsMatch(t: Tables) {
    forall o :: o in t.orders ==> t.orders[o].total == SumMap(t.items, LineAmountIn(o))
  }

  /** The copies of book `b` in the shop: on the shelf plus held by order items. */
  ghost function Supply(t: Tables, b: int): int
    requires b in t.books
  {
    t.books[b].stock + SumMap(t.items, QuantityOf(b))
  }

  /** No copy of any book appeared or vanished between `t0` and `t1`. */
  ghost predicate SupplyPreserved(t0: Tables, t1: Tables) {
    t0.books.Keys == t1.books.Keys &&
    forall b :: b in t0.books ==> Supply(t0, b) == Supply(t1, b)
  }

  /** `UPDATE books SET stock = stock + d WHERE book_id = b`. */
  function AdjustStock(books: map<int, Book>, b: int, d: int): (r: map<int, Book>)
    ensures r.Keys == books.Keys
    ensures b in books ==> r[b] == Book(books[b].price, books[b].stock + d)
    ensures forall c :: c in books && c != b ==> r[c] == books[c]
  {
    if b in books then books[b := books[b].(stock := books[b].stock + d)] else books
  }

  /** `UPDATE orders SET total_amount = total_amount + d WHERE order_id = o`. */
  function AdjustTotal(orders: map<int, Order>, o: int, d: int): (r: map<int, Order>)
    ensures r.Keys == orders.Keys
    ensures o in orders ==> r[o] == orders[o].(total := orders[o].total + d)
    ensures forall p :: p in orders && p != o ==> r[p] == orders[p]
  {
    if o in orders then orders[o := orders[o].(total := orders[o].total + d)] else orders
  }

  /** `INSERT INTO order_items`, with the insert trigger taking the quantity from stock. */
  function InsertItem(t: Tables, id: int, it: Item): (r: Tables)
    ensures r.items == t.items[id := it] && r.orders == t.orders && r.payments == t.payments
    ensures r.books == AdjustStock(t.books, it.bookId, -it.quantity)
  {
    t.(items := t.items[id := it], books := AdjustStock(t.books, it.bookId, -it.quantity))
  }

  /** The items of order `o`: the rows its deletion cascades to. */
  function ItemsOfOrder(items: map<int, Item>, o: int): (s: set<int>)
    ensures forall i :: i in s <==> i in items && items[i].orderId == o
  {
    set i | i in items && items[i].orderId == o
  }

  /** The items inserted one by one at consecutive ids from `first`. */
  function InsertAt(m: map<int, Item>, first: int, s: seq<Item>): map<int, Item>
    decreases |s|
  {
    if s == [] then m
    else InsertAt(m, first, s[..|s| - 1])[first + |s| - 1 := s[|s| - 1]]
  }

  /** The rows of `InsertAt`: the old ones outside the new ids, and `s[j]` at `first + j`. */
  lemma {:induction false} InsertAtFacts(m: map<int, Item>, first: int, s: seq<Item>)
    ensures forall i :: i in InsertAt(m, first, s) <==> i in m || first <= i < first + |s|
    ensures forall i :: first <= i < first + |s| ==> InsertAt(m, first, s)[i] == s[i - first]
    ensures forall i :: i in m && !(first <= i < first + |s|) ==> InsertAt(m, first, s)[i] == m[i]
    decreases |s|
  {
    if s != [] {
      InsertAtFacts(m, first, s[..|s| - 1]);
    }
  }

  /** The insert trigger applied for each item of `s` in turn. */
  function TakeStock(books: map<int, Book>, s: seq<Item>): (r: map<int, Book>)
    ensures r.Keys == books.Keys
    decreases |s|
  {
    if s == [] then books
    else
      var it := s[|s| - 1];
      AdjustStock(TakeStock(books, s[..|s| - 1]), it.bookId, -it.quantity)
  }

  /** Σ f over a sequence of items. */
  function SeqSum(s: seq<Item>, f: Item -> int): int
    decreases |s|
  {
    if s == [] then 0 else SeqSum(s[..|s| - 1], f) + f(s[|s| - 1])
  }

  /** The stock taken by a run of inserts is the quantity they hold. */
  lemma {:induction false} TakeStockSum(books: map<int, Book>, s: seq<Item>, b: int)
    requires b in books
    ensures TakeStock(books, s)[b] == Book(books[b].price, books[b].stock - SeqSum(s, QuantityOf(b)))
    decreases |s|
  {
    if s != [] {
      TakeStockSum(books, s[..|s| - 1], b);
    }
  }

  /** Inserting a run of items at fresh ids adds their sum. */
  lemma {:induction false} InsertAtSum(m: map<int, Item>, first: int, s: seq<Item>, f: Item -> int)
    requires forall i :: i in m ==> i < first
    ensures SumMap(InsertAt(m, first, s), f) == SumMap(m, f) + SeqSum(s, f)
    decreases |s|
  {
    if s != [] {
      var init := s[..|s| - 1];
      var id := first + |s| - 1;
      InsertAtSum(m, first, init, f);
      InsertAtRow(m, first, init, id);
      assert InsertAt(m, first, s) == InsertAt(m, first, init)[id := s[|s| - 1]];
      assert SeqSum(s, f) == SeqSum(init, f) + f(s[|s| - 1]);
      SumInsert(InsertAt(m, first, init), id, s[|s| - 1], f);
    }
  }

  /** `InsertAtFacts` for one id: `i` is a row exactly when it is an old row or a new id, and
      holds the new item there or the old row elsewhere. */
  lemma {:induction false} InsertAtRow(m: map<int, Item>, first: int, s: seq<Item>, i: int)
    ensures i in InsertAt(m, first, s) <==> i in m || first <= i < first + |s|
    ensures first <= i < first + |s| ==> InsertAt(m, first, s)[i] == s[i - first]
    ensures i in m && !(first <= i < first + |s|) ==> InsertAt(m, first, s)[i] == m[i]
    decreases |s|
  {
    if s != [] {
      InsertAtRow(m, first, s[..|s| - 1], i);
    }
  }

  /** Rows of other orders add nothing to the line amount of order `o`. */
  lemma ForeignLinesAddNothing(m: map<int, Item>, o: int)
    requires forall i :: i in m ==> m[i].orderId != o
    ensures SumMap(m, LineAmountIn(o)) == 0
  {
    assert forall i :: i in m ==> LineAmountIn(o)(m[i]) == 0;
    SumZero(m, LineAmountIn(o));
  }

  /** Payment ids increase along the payments table (AUTO_INCREMENT order). */
  ghost predicate IdsIncreasing(ps: seq<Payment>) {
    forall j, k :: 0 <= j < k < |ps| ==> ps[j].paymentId < ps[k].paymentId
  }

  class Database {
    var books: map<int, Book>
    var orders: map<int, Order>
    var items: map<int, Item>
    var payments: seq<Payment>
    /** The next values of the three AUTO_INCREMENT keys. */
    var nextOrderId: int
    var nextItemId: int
    var nextPaymentId: int

    function Snapshot(): Tables
      reads this
    {
      Tables(books, orders, items, payments)
    }

    /** Keys the counters have not handed out are unused, every item's order exists (the cascade
        foreign key), and payment ids increase along the table. */
    ghost predicate Valid()
      reads this
    {
      1 <= nextOrderId && 1 <= nextItemId && 1 <= nextPaymentId &&
      (forall o :: o in orders ==> 1 <= o < nextOrderId) &&
      (forall i :: i in items ==> 1 <= i < nextItemId && items[i].orderId in orders) &&
      (forall k :: 0 <= k < |payments| ==> 1 <= payments[k].paymentId < nextPaymentId) &&
      IdsIncreasing(payments)
    }

    /** An empty shop with the given books. */
    constructor (stock: map<int, Book>)
      ensures Valid()
      ensures Snapshot() == Tables(stock, map[], map[], [])
    {
      books, orders, items, payments := stock, map[], map[], [];
      nextOrderId, nextItemId, nextPaymentId := 1, 1, 1;
    }

    /** ROLLBACK: every table back to `t`; the AUTO_INCREMENT counters keep their values. */
    method Restore(t: Tables)
      modifies this
      ensures Snapshot() == t
      ensures nextOrderId == old(nextOrderId) && nextItemId == old(nextItemId)
      ensures nextPaymentId == old(nextPaymentId)
    {
      books, orders, items, payments := t.books, t.orders, t.items, t.payments;
    }
  }
}
