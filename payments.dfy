/** PaymentsAPI: recording a payment against an order's total, changing a payment's status,
    deleting a payment, and the field check of `search`. */
module Payments {
  import opened Results
  import opened Helpers
  import opened Store
  import opened PyText

  /** The entries add reads from its `payment_data`; an absent key is `None`. */
  datatype PaymentData = PaymentData(orderId: Option<int>, amount: Option<Decimal>,
                                     paymentMethod: Option<string>, paymentStatus: Option<string>,
                                     transactionId: Option<string>)

  /** `not order_id or not is_positive_number(amount)`: the order id is absent or 0, or the
      amount is absent or not above zero. */
  predicate MissingOrderOrAmount(data: PaymentData) {
    data.orderId.None? || data.orderId.value == 0 || data.amount.None? || data.amount.value.units <= 0
  }

  /** What add decides before it writes: the amount it will store (rounded to cents), or why it
      refuses. Only the order's own total is consulted, never the payments already recorded. */
  function CheckPayment(orders: map<int, Order>, data: PaymentData): (r: Result<int>)
    ensures r.Ok? <==>
      !MissingOrderOrAmount(data) && data.orderId.value in orders &&
      !Exceeds(data.amount.value, orders[data.orderId.value].total)
  {
    if MissingOrderOrAmount(data) then Err(Invalid("order_id and valid amount are required"))
    else if data.orderId.value !in orders then Err(OrderMissing(data.orderId.value))
    else if Exceeds(data.amount.value, orders[data.orderId.value].total) then Err(ExceedsTotal)
    else Ok(RoundPrice(data.amount))
  }

  /** An accepted payment stores a non-negative number of cents no larger than the order total. */
  lemma AcceptedWithinTotal(orders: map<int, Order>, data: PaymentData)
    requires CheckPayment(orders, data).Ok?
    ensures 0 <= CheckPayment(orders, data).value <= orders[data.orderId.value].total
  {
    RoundedWithinBound(data.amount.value, orders[data.orderId.value].total);
  }

  /** Paying exactly the order total (in cents, with any number of trailing zeros) is accepted
      and stores the total itself. */
  lemma PayingInFullAccepted(orders: map<int, Order>, data: PaymentData, k: nat)
    requires data.orderId.Some? && data.orderId.value != 0 && data.orderId.value in orders
    requires orders[data.orderId.value].total > 0
    requires data.amount == Some(Decimal(orders[data.orderId.value].total * Pow10(k), k + 2))
    ensures CheckPayment(orders, data) == Ok(orders[data.orderId.value].total)
  {
    var c := orders[data.orderId.value].total;
    FullAmountWithin(c, k);
    RoundPriceFixesCents(c, k);
  }

  /** Paying a cent more than the order total is refused. */
  lemma OverpaymentRefused(orders: map<int, Order>, data: PaymentData)
    requires data.orderId.Some? && data.orderId.value != 0 && data.orderId.value in orders
    requires orders[data.orderId.value].total >= 0
    requires data.amount == Some(Decimal(orders[data.orderId.value].total + 1, 2))
    ensures CheckPayment(orders, data) == Err(ExceedsTotal)
  {
    assert Pow10(2) == 100;
  }

  /** The row add inserts: the new id, the given method (default "UPI"), the rounded amount,
      the given status (default "Pending") and the transaction id. */
  function NewPayment(id: int, data: PaymentData, cents: int): (p: Payment)
    requires data.orderId.Some?
    ensures p.paymentId == id && p.orderId == data.orderId.value && p.amount == Decimal(cents, 2)
    ensures p.paymentMethod == data.paymentMethod.GetOr("UPI")
    ensures p.status == data.paymentStatus.GetOr("Pending")
  {
    Payment(id, data.orderId.value, data.paymentMethod.GetOr("UPI"), Decimal(cents, 2),
            data.paymentStatus.GetOr("Pending"), data.transactionId)
  }

  /** add(payment_data): the new payment's id, or why nothing was written. Books, orders and
      items are never touched. */
  method AddPayment(db: Database, data: PaymentData) returns (r: Result<int>)
    requires db.Valid()
    modifies db
    ensures db.Valid()
    ensures db.nextOrderId == old(db.nextOrderId) && db.nextItemId == old(db.nextItemId)
    ensures db.books == old(db.books) && db.orders == old(db.orders) && db.items == old(db.items)
    ensures var check := CheckPayment(old(db.orders), data);
      if check.Err? then
        r == Err(check.error) && db.payments == old(db.payments) &&
        db.nextPaymentId == old(db.nextPaymentId)
      else
        r == Ok(old(db.nextPaymentId)) && db.nextPaymentId == old(db.nextPaymentId) + 1 &&
        db.payments == old(db.payments) + [NewPayment(old(db.nextPaymentId), data, check.value)] &&
        0 <= check.value <= db.orders[data.orderId.value].total
  {
    var check := CheckPayment(db.orders, data);
    if check.Err? {
      return Err(check.error);
    }
    AcceptedWithinTotal(db.orders, data);
    var id := db.nextPaymentId;
    db.payments := db.payments + [NewPayment(id, data, check.value)];
    db.nextPaymentId := id + 1;
    r := Ok(id);
  }

  /** The statuses update_status accepts. */
  const PaymentStatuses: set<string> := {"Success", "Pending", "Failed", "Cancelled"}

  /** `UPDATE payments SET payment_status = s WHERE payment_id = id`. */
  function SetStatus(ps: seq<Payment>, id: int, s: string): (r: seq<Payment>)
    ensures |r| == |ps|
    ensures forall k :: 0 <= k < |ps| ==>
      r[k] == if ps[k].paymentId == id then ps[k].(status := s) else ps[k]
  {
    seq(|ps|, k requires 0 <= k < |ps| => if ps[k].paymentId == id then ps[k].(status := s) else ps[k])
  }

  /** Setting a status twice is setting it once. */
  lemma SetStatusIdempotent(ps: seq<Payment>, id: int, s: string)
    ensures SetStatus(SetStatus(ps, id, s), id, s) == SetStatus(ps, id, s)
  {
  }

  /** update_status(payment_id, payment_status): `Some` error when the status is refused, `None`
      once the update is committed. Only the status of the payment with that id changes. */
  method UpdatePaymentStatus(db: Database, paymentId: int, status: string) returns (refused: Option<ApiError>)
    requires db.Valid()
    modifies db`payments
    ensures db.Valid()
    ensures status !in PaymentStatuses ==>
      refused == Some(Invalid("Invalid payment_status '" + status + "'")) && db.payments == old(db.payments)
    ensures status in PaymentStatuses ==>
      refused.None? && db.payments == SetStatus(old(db.payments), paymentId, status)
  {
    if status !in PaymentStatuses {
      return Some(Invalid("Invalid payment_status '" + status + "'"));
    }
    db.payments := SetStatus(db.payments, paymentId, status);
    refused := None;
  }

  /** `DELETE FROM payments WHERE payment_id = id`: the other rows, in their order. */
  function RemovePayment(ps: seq<Payment>, id: int): (r: seq<Payment>)
    ensures forall p :: p in r <==> p in ps && p.paymentId != id
    ensures |r| <= |ps|
    decreases |ps|
  {
    if ps == [] then []
    else
      var init := RemovePayment(ps[..|ps| - 1], id);
      var last := ps[|ps| - 1];
      assert forall p :: p in ps <==> p in ps[..|ps| - 1] || p == last;
      if last.paymentId == id then init else init + [last]
  }

  /** Removing rows keeps every id below a bound that all of them were below. */
  lemma {:induction false} RemovePaymentBelow(ps: seq<Payment>, id: int, bound: int)
    requires forall k :: 0 <= k < |ps| ==> ps[k].paymentId < bound
    ensures var r := RemovePayment(ps, id);
      forall k :: 0 <= k < |r| ==> r[k].paymentId < bound
    decreases |ps|
  {
    if ps != [] {
      RemovePaymentBelow(ps[..|ps| - 1], id, bound);
    }
  }

  /** Removing rows keeps payment ids increasing along the table. */
  lemma {:induction false} RemovePaymentKeepsOrder(ps: seq<Payment>, id: int)
    requires IdsIncreasing(ps)
    ensures IdsIncreasing(RemovePayment(ps, id))
    decreases |ps|
  {
    if ps != [] {
      var init := ps[..|ps| - 1];
      var last := ps[|ps| - 1];
      RemovePaymentKeepsOrder(init, id);
      assert forall k :: 0 <= k < |init| ==> init[k] == ps[k];
      RemovePaymentBelow(init, id, last.paymentId);
      var ri := RemovePayment(init, id);
      if last.paymentId != id {
        var r := ri + [last];
        assert RemovePayment(ps, id) == r;
        forall j, k | 0 <= j < k < |r|
          ensures r[j].paymentId < r[k].paymentId
        {
          if k == |ri| {
            assert r[j] == ri[j] && r[k] == last;
          } else {
            assert r[j] == ri[j] && r[k] == ri[k];
          }
        }
      } else {
        assert RemovePayment(ps, id) == ri;
      }
    }
  }

  /** Deleting a payment and then looking for it finds nothing. */
  lemma RemovePaymentGone(ps: seq<Payment>, id: int)
    ensures forall k :: 0 <= k < |RemovePayment(ps, id)| ==> RemovePayment(ps, id)[k].paymentId != id
  {
    var r := RemovePayment(ps, id);
    forall k | 0 <= k < |r|
      ensures r[k].paymentId != id
    {
      assert r[k] in r;
    }
  }

  /** delete(payment_id): removes the payment with that id, if there is one, and reports the id. */
  method DeletePayment(db: Database, paymentId: int) returns (r: Result<int>)
    requires db.Valid()
    modifies db`payments
    ensures db.Valid()
    ensures r == Ok(paymentId)
    ensures db.payments == RemovePayment(old(db.payments), paymentId)
  {
    RemovePaymentKeepsOrder(db.payments, paymentId);
    db.payments := RemovePayment(db.payments, paymentId);
    r := Ok(paymentId);
  }

  /** The fields `search` may filter on. */
  const PaymentSearchFields: set<string> :=
    {"payment_id", "order_id", "payment_method", "payment_status", "transaction_id", "amount"}

  /** The query `search` runs: every payment, or a LIKE filter on one column. */
  datatype PaymentQuery = AllPayments | Matching(field: string, pattern: string)

  /** search(field, value)'s plan: an absent or empty field or value selects every payment;
      otherwise an allowed column is filtered with the value verbatim between two wildcards, and
      any other field is refused before it can reach the SQL text. */
  function PaymentSearch(field: Option<string>, value: Option<string>): (r: Result<PaymentQuery>)
    ensures r == Ok(AllPayments) <==> field.None? || field.value == "" || value.None? || value.value == ""
    ensures r.Ok? && r.value.Matching? ==>
      field == Some(r.value.field) && r.value.field in PaymentSearchFields &&
      value.Some? && r.value.pattern == LikePattern(value.value) &&
      r.value.pattern[1..|r.value.pattern| - 1] == value.value
    ensures r.Err? <==>
      field.Some? && field.value != "" && value.Some? && value.value != "" && field.value !in PaymentSearchFields
    ensures r.Err? ==> r.error == Invalid("Invalid search field '" + field.value + "'")
  {
    if field.None? || field.value == "" || value.None? || value.value == "" then Ok(AllPayments)
    else if field.value !in PaymentSearchFields then Err(Invalid("Invalid search field '" + field.value + "'"))
    else Ok(Matching(field.value, LikePattern(value.value)))
  }
}
