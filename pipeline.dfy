/**
 * The window's data handling without the window: the ingestion loop that
 * fills the hash table and the two totals dictionaries, the choice of the
 * "maximum" products, and the load action that chains the two.
 */
module Pipeline {
  import opened Wrappers
  import opened Buckets
  import opened HashTables
  import opened Sales

  /** Exceptions the summary step can raise. */
  datatype Failure =
    | EmptySequence          // `max()` of an empty sequence (ValueError)
    | MissingKey(key: string) // `revenue_by_product[product]` on an absent product (KeyError)
    | DivisionByZero         // the revenue share of a product when the total revenue is 0

  datatype Maxima = Maxima(maxSalesProduct: string, maxRevenueProduct: string, maxUnitsSoldProduct: string)

  /** What the load action shows in its labels. */
  datatype Summary = Summary(maxSalesProduct: string, maxRevenueProduct: string, maxUnitsSoldProduct: string, totalRevenue: int)

  /**
   * One pass over the lines after the header, each parsed by `parse`: add up
   * the revenue, `put` the units into a fresh 100-bucket table (last write
   * wins), and add revenue and units into the two per-product dictionaries.
   */
  method UpdateSalesData(lines: seq<string>, parse: string -> Sale)
    returns (salesByProduct: HashTable, totalRevenue: int, revenueByProduct: seq<Entry>, unitsSoldByProduct: seq<Entry>)
    ensures fresh(salesByProduct) && fresh(salesByProduct.table) && salesByProduct.Valid()
    ensures salesByProduct.size == BucketCount
    ensures salesByProduct.table[..] == SalesTable(Rows(lines, parse))
    ensures totalRevenue == TotalRevenue(Rows(lines, parse))
    ensures revenueByProduct == Totals(Rows(lines, parse), Revenue)
    ensures unitsSoldByProduct == Totals(Rows(lines, parse), Units)
  {
    salesByProduct := new HashTable(BucketCount);
    totalRevenue := 0;
    revenueByProduct := [];
    unitsSoldByProduct := [];
    var rows := Rows(lines, parse);
    for i := 0 to |rows|
      invariant fresh(salesByProduct) && fresh(salesByProduct.table)
      invariant salesByProduct.Valid() && salesByProduct.size == BucketCount
      invariant salesByProduct.table[..] == SalesTable(rows[..i])
      invariant totalRevenue == TotalRevenue(rows[..i])
      invariant revenueByProduct == Totals(rows[..i], Revenue)
      invariant unitsSoldByProduct == Totals(rows[..i], Units)
    {
      IngestStep(rows, i);
      totalRevenue, revenueByProduct, unitsSoldByProduct :=
        AddSale(salesByProduct, rows[i], totalRevenue, revenueByProduct, unitsSoldByProduct);
    }
    assert rows[..|rows|] == rows;
  }

  /**
   * The body of the ingestion loop for one parsed row.  The two dictionaries
   * have the same keys, so testing the revenue dictionary alone decides both
   * updates.
   */
  method AddSale(salesByProduct: HashTable, sale: Sale, totalRevenue: int, revenueByProduct: seq<Entry>, unitsSoldByProduct: seq<Entry>)
    returns (totalRevenue': int, revenueByProduct': seq<Entry>, unitsSoldByProduct': seq<Entry>)
    requires salesByProduct.Valid()
    requires FindIn(revenueByProduct, sale.product).Some? <==> FindIn(unitsSoldByProduct, sale.product).Some?
    modifies salesByProduct.table
    ensures salesByProduct.Valid()
    ensures salesByProduct.table[..] == Buckets.Put(old(salesByProduct.table[..]), sale.product, sale.units)
    ensures totalRevenue' == totalRevenue + sale.revenue
    ensures revenueByProduct' == AddTo(revenueByProduct, sale.product, sale.revenue)
    ensures unitsSoldByProduct' == AddTo(unitsSoldByProduct, sale.product, sale.units)
  {
    totalRevenue' := totalRevenue + sale.revenue;
    salesByProduct.Put(sale.product, sale.units);
    if FindIn(revenueByProduct, sale.product).Some? {
      revenueByProduct' := PutIn(revenueByProduct, sale.product, FindIn(revenueByProduct, sale.product).value + sale.revenue);
      unitsSoldByProduct' := PutIn(unitsSoldByProduct, sale.product, FindIn(unitsSoldByProduct, sale.product).value + sale.units);
    } else {
      revenueByProduct' := PutIn(revenueByProduct, sale.product, sale.revenue);
      unitsSoldByProduct' := PutIn(unitsSoldByProduct, sale.product, sale.units);
    }
  }

  /** What one more row does to the total, the table and the two dictionaries. */
  lemma IngestStep(rows: seq<Sale>, i: nat)
    requires i < |rows|
    ensures TotalRevenue(rows[..i + 1]) == TotalRevenue(rows[..i]) + rows[i].revenue
    ensures SalesTable(rows[..i + 1]) == Put(SalesTable(rows[..i]), rows[i].product, rows[i].units)
    ensures FindIn(Totals(rows[..i], Revenue), rows[i].product).Some? <==>
            FindIn(Totals(rows[..i], Units), rows[i].product).Some?
    ensures Totals(rows[..i + 1], Revenue) == AddTo(Totals(rows[..i], Revenue), rows[i].product, rows[i].revenue)
    ensures Totals(rows[..i + 1], Units) == AddTo(Totals(rows[..i], Units), rows[i].product, rows[i].units)
  {
    assert rows[..i + 1][..i] == rows[..i];
    TotalsKeys(rows[..i], Revenue);
    TotalsKeys(rows[..i], Units);
    FindInKeySet(Totals(rows[..i], Revenue), rows[i].product);
    FindInKeySet(Totals(rows[..i], Units), rows[i].product);
  }

  /**
   * The three "maximum" products, each the first maximal entry in its
   * collection's iteration order, and the failures the source raises on the
   * way: `max` of an empty collection, a product without revenue entry, and
   * a revenue share computed against a zero total.
   */
  method CalculateMaxValues(salesByProduct: HashTable, revenueByProduct: seq<Entry>, unitsSoldByProduct: seq<Entry>, totalRevenue: int)
    returns (r: Result<Maxima, Failure>)
    requires salesByProduct.Valid()
    ensures var items := Concat(salesByProduct.table[..]);
      r == Failure(EmptySequence) <==> items == [] || revenueByProduct == [] || unitsSoldByProduct == []
    ensures var items := Concat(salesByProduct.table[..]);
      r == Failure(DivisionByZero) <==>
        items != [] && revenueByProduct != [] && unitsSoldByProduct != [] && totalRevenue == 0 &&
        unitsSoldByProduct[0].key in KeySet(revenueByProduct)
    ensures r.Failure? && r.error.MissingKey? ==>
      r.error.key !in KeySet(revenueByProduct) &&
      exists i :: 0 <= i < |unitsSoldByProduct| && unitsSoldByProduct[i].key == r.error.key &&
        forall j :: 0 <= j < i ==> unitsSoldByProduct[j].key in KeySet(revenueByProduct)
    ensures var items := Concat(salesByProduct.table[..]);
      r.Success? <==>
        items != [] && revenueByProduct != [] && unitsSoldByProduct != [] && totalRevenue != 0 &&
        KeySet(unitsSoldByProduct) <= KeySet(revenueByProduct)
    ensures r.Success? ==>
      r.value == Maxima(MaxKey(Concat(salesByProduct.table[..])).value,
                        MaxKey(revenueByProduct).value, MaxKey(unitsSoldByProduct).value)
  {
    var items := salesByProduct.Items();
    if items == [] {
      return Failure(EmptySequence);
    }
    var maxSalesProduct := MaxKey(items).value;
    if revenueByProduct == [] {
      return Failure(EmptySequence);
    }
    var maxRevenueProduct := MaxKey(revenueByProduct).value;
    for i := 0 to |unitsSoldByProduct|
      invariant forall j :: 0 <= j < i ==> unitsSoldByProduct[j].key in KeySet(revenueByProduct)
      invariant i > 0 ==> totalRevenue != 0
    {
      var product := unitsSoldByProduct[i].key;
      FindInKeySet(revenueByProduct, product);
      if FindIn(revenueByProduct, product).None? {
        assert unitsSoldByProduct[i].key == product;
        return Failure(MissingKey(product));
      }
      if totalRevenue == 0 {
        return Failure(DivisionByZero);
      }
    }
    if unitsSoldByProduct == [] {
      return Failure(EmptySequence);
    }
    assert KeySet(unitsSoldByProduct) <= KeySet(revenueByProduct);
    var maxUnitsSoldProduct := MaxKey(unitsSoldByProduct).value;
    return Success(Maxima(maxSalesProduct, maxRevenueProduct, maxUnitsSoldProduct));
  }

  /**
   * The load action on already parsed lines: ingestion, then the summary.
   * It fails exactly when there is no data row (`max` of an empty sequence)
   * or when the total revenue is zero (the revenue shares divide by it).
   */
  method LoadData(lines: seq<string>, parse: string -> Sale) returns (r: Result<Summary, Failure>)
    ensures r == Failure(EmptySequence) <==> Rows(lines, parse) == []
    ensures r == Failure(DivisionByZero) <==> Rows(lines, parse) != [] && TotalRevenue(Rows(lines, parse)) == 0
    ensures r.Success? <==> Rows(lines, parse) != [] && TotalRevenue(Rows(lines, parse)) != 0
    ensures r.Success? ==>
      var rows := Rows(lines, parse);
      && MaxKey(Concat(SalesTable(rows))) == Some(r.value.maxSalesProduct)
      && MaxKey(Totals(rows, Revenue)) == Some(r.value.maxRevenueProduct)
      && MaxKey(Totals(rows, Units)) == Some(r.value.maxUnitsSoldProduct)
      && r.value.totalRevenue == TotalRevenue(rows)
  {
    var salesByProduct, totalRevenue, revenueByProduct, unitsSoldByProduct := UpdateSalesData(lines, parse);
    var rows := Rows(lines, parse);
    TotalsKeys(rows, Revenue);
    TotalsKeys(rows, Units);
    SalesItemsArePerProduct(rows);
    assert unitsSoldByProduct == [] <==> rows == [] by {
      if rows != [] {
        assert rows[0].product in Products(rows);
      }
    }
    assert revenueByProduct == [] <==> rows == [];
    if rows != [] {
      assert unitsSoldByProduct[0].key in KeySet(unitsSoldByProduct);
    }
    var maxima := CalculateMaxValues(salesByProduct, revenueByProduct, unitsSoldByProduct, totalRevenue);
    match maxima
    case Failure(e) =>
      r := Failure(e);
    case Success(m) =>
      r := Success(Summary(m.maxSalesProduct, m.maxRevenueProduct, m.maxUnitsSoldProduct, totalRevenue));
  }

  /** Rows (A, 10 units, 100), (B, 5, 50), (A, 3, 30). */
  const Example: seq<Sale> := [Sale("A", 10, 100), Sale("B", 5, 50), Sale("A", 3, 30)]

  /** After the example the table holds A with its last units in bucket 65 and B in bucket 66. */
  lemma ExampleBuckets()
    ensures SalesTable(Example) == Empty(BucketCount)[65 := [Entry("A", 3)]][66 := [Entry("B", 5)]]
  {
    var r1 := [Sale("A", 10, 100)];
    var r2 := [Sale("A", 10, 100), Sale("B", 5, 50)];
    assert r1[..0] == [];
    assert r2[..1] == r1;
    assert Example[..2] == r2;
    assert Hash("A", BucketCount) == 65 by {
      assert "A"[..0] == [];
    }
    assert Hash("B", BucketCount) == 66 by {
      assert "B"[..0] == [];
    }
    var bs1 := SalesTable(r1);
    assert bs1 == Put(Empty(BucketCount), "A", 10);
    assert PutIn([], "A", 10) == [Entry("A", 10)];
    var bs2 := SalesTable(r2);
    assert bs2 == Put(bs1, "B", 5);
    assert PutIn([], "B", 5) == [Entry("B", 5)];
    assert bs2 == Empty(BucketCount)[65 := [Entry("A", 10)]][66 := [Entry("B", 5)]];
    assert SalesTable(Example) == Put(bs2, "A", 3);
    assert IndexOf(bs2[65], "A") == 0;
    assert PutIn(bs2[65], "A", 3) == [Entry("A", 3)];
  }

  lemma ExampleItems()
    ensures Concat(SalesTable(Example)) == [Entry("A", 3), Entry("B", 5)]
  {
    ExampleBuckets();
    var bs := SalesTable(Example);
    assert forall b :: 0 <= b < BucketCount && b != 65 && b != 66 ==> bs[b] == [];
    assert bs == bs[..65] + [bs[65], bs[66]] + bs[67..];
    ConcatSplit(bs[..65] + [bs[65], bs[66]], bs[67..]);
    ConcatSplit(bs[..65], [bs[65], bs[66]]);
    ConcatOfEmpty(bs[..65]);
    assert forall b :: 0 <= b < |bs[67..]| ==> bs[67..][b] == bs[67 + b];
    ConcatOfEmpty(bs[67..]);
    assert Concat([bs[65], bs[66]]) == bs[65] + bs[66] by {
      ConcatAppend([], bs[65]);
      ConcatAppend([bs[65]], bs[66]);
      assert [] + [bs[65]] == [bs[65]];
      assert [bs[65]] + [bs[66]] == [bs[65], bs[66]];
    }
  }

  lemma ExampleTotals()
    ensures TotalRevenue(Example) == 180
    ensures Totals(Example, Revenue) == [Entry("A", 130), Entry("B", 50)]
    ensures Totals(Example, Units) == [Entry("A", 13), Entry("B", 5)]
  {
    var r1 := [Sale("A", 10, 100)];
    var r2 := [Sale("A", 10, 100), Sale("B", 5, 50)];
    assert r1[..0] == [];
    assert r2[..1] == r1;
    assert Example[..2] == r2;
  }

  /**
   * On the example the table keeps A's last units (3), so the top seller by
   * the table is B, while the accumulated totals make A the top product for
   * revenue and for units.
   */
  lemma DivergentMaxima()
    ensures MaxKey(Concat(SalesTable(Example))) == Some("B")
    ensures MaxKey(Totals(Example, Revenue)) == Some("A")
    ensures MaxKey(Totals(Example, Units)) == Some("A")
  {
    ExampleItems();
    ExampleTotals();
    assert FirstMaxIndex([Entry("A", 3), Entry("B", 5)]) == 1 by {
      assert [Entry("A", 3), Entry("B", 5)][..1] == [Entry("A", 3)];
    }
    assert FirstMaxIndex([Entry("A", 130), Entry("B", 50)]) == 0 by {
      assert [Entry("A", 130), Entry("B", 50)][..1] == [Entry("A", 130)];
    }
    assert FirstMaxIndex([Entry("A", 13), Entry("B", 5)]) == 0 by {
      assert [Entry("A", 13), Entry("B", 5)][..1] == [Entry("A", 13)];
    }
  }
}
