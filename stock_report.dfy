/** StockReport.get_low_stock: the books whose stock is known and below a threshold, picked out
    of the current-stock rows (which are read from the database and are a parameter here). */
module StockReport {
  import opened Results

  /** One row of the current-stock query; `stock` is `None` for a NULL column. */
  datatype StockRow = StockRow(bookId: int, title: string, stock: Option<int>,
                               category: Option<string>, publisher: Option<string>, price: int)

  /** The threshold used when the caller gives none. */
  const DefaultThreshold: int := 10

  /** `book['stock'] is not None and book['stock'] < threshold`. */
  predicate IsLow(row: StockRow, threshold: int) {
    row.stock.Some? && row.stock.value < threshold
  }

  /** get_low_stock(threshold): the low rows, in the order the query returned them. */
  function LowStock(rows: seq<StockRow>, threshold: int := DefaultThreshold): (r: seq<StockRow>)
    ensures |r| <= |rows|
    decreases |rows|
  {
    if rows == [] then []
    else (if IsLow(rows[0], threshold) then [rows[0]] else []) + LowStock(rows[1..], threshold)
  }

  /** A row is reported exactly when it is one of the input rows and is low. */
  lemma {:induction false} LowStockMembers(rows: seq<StockRow>, threshold: int)
    ensures forall x :: x in LowStock(rows, threshold) <==> x in rows && IsLow(x, threshold)
    decreases |rows|
  {
    if rows != [] {
      LowStockMembers(rows[1..], threshold);
      assert forall x :: x in rows <==> x == rows[0] || x in rows[1..];
    }
  }

  /** Filtering a concatenation filters each part in place: the relative order of the rows is
      kept. */
  lemma {:induction false} LowStockAppend(a: seq<StockRow>, b: seq<StockRow>, threshold: int)
    ensures LowStock(a + b, threshold) == LowStock(a, threshold) + LowStock(b, threshold)
    decreases |a|
  {
    if a == [] {
      assert a + b == b;
    } else {
      var head := if IsLow(a[0], threshold) then [a[0]] else [];
      assert (a + b)[0] == a[0];
      assert (a + b)[1..] == a[1..] + b;
      LowStockAppend(a[1..], b, threshold);
      assert LowStock(a + b, threshold) == head + (LowStock(a[1..], threshold) + LowStock(b, threshold));
      assert LowStock(a, threshold) == head + LowStock(a[1..], threshold);
    }
  }

  /** Every row of the report is low, so filtering it again keeps it whole. */
  lemma {:induction false} LowStockIdempotent(rows: seq<StockRow>, threshold: int)
    ensures LowStock(LowStock(rows, threshold), threshold) == LowStock(rows, threshold)
    decreases |rows|
  {
    if rows != [] {
      LowStockIdempotent(rows[1..], threshold);
      var rest := LowStock(rows[1..], threshold);
      if IsLow(rows[0], threshold) {
        var r := [rows[0]] + rest;
        assert r[0] == rows[0] && r[1..] == rest;
        assert LowStock(r, threshold) == [rows[0]] + LowStock(rest, threshold);
      } else {
        assert LowStock(rows, threshold) == rest;
      }
    }
  }

  /** A row whose stock equals the threshold, or is NULL, is not reported; one just below is. */
  lemma LowStockBoundary(row: StockRow, threshold: int)
    ensures row.stock == Some(threshold) ==> LowStock([row], threshold) == []
    ensures row.stock.None? ==> LowStock([row], threshold) == []
    ensures row.stock == Some(threshold - 1) ==> LowStock([row], threshold) == [row]
  {
    assert [row][1..] == [];
  }
}
