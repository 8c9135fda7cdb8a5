/**
 * The sales aggregation as functions of the parsed rows: what the ingestion
 * loop leaves in the hash table, in the grand total and in the two
 * per-product totals dictionaries, and how the "maximum" products are chosen.
 * A Python dictionary, which iterates in insertion order, is an association
 * list `seq<Entry>` whose keys are distinct.
 */
module Sales {
  import opened Wrappers
  import opened Buckets

  /** Number of buckets of the table built by the ingestion loop. */
  const BucketCount: nat := 100

  /** One parsed data row: product name (field 2), units sold (field 4, also read as "sales"), revenue (field 5). */
  datatype Sale = Sale(product: string, units: int, revenue: int)

  /** Which number of a row a totals dictionary adds up. */
  datatype Field = Units | Revenue

  function Amount(s: Sale, f: Field): int
  {
    match f
    case Units => s.units
    case Revenue => s.revenue
  }

  /**
   * The parsed rows after the header line (`lines[1:]`, empty when there is
   * no line at all).  `parse` stands for the split, strip and `int`
   * conversions of one line; the header line is never parsed.
   */
  function Rows(lines: seq<string>, parse: string -> Sale): (rows: seq<Sale>)
    ensures |rows| == if lines == [] then 0 else |lines| - 1
  {
    if lines == [] then [] else ParseAll(lines[1..], parse)
  }

  /** Every line parsed, in order. */
  function ParseAll(lines: seq<string>, parse: string -> Sale): (rows: seq<Sale>)
    ensures |rows| == |lines|
  {
    if lines == [] then [] else [parse(lines[0])] + ParseAll(lines[1..], parse)
  }

  // ---------------------------------------------------------------------
  // What the ingestion loop computes

  function TotalRevenue(rows: seq<Sale>): int
  {
    if rows == [] then 0 else TotalRevenue(rows[..|rows| - 1]) + rows[|rows| - 1].revenue
  }

  /** `d[p] += x` when `p` is a key of `d`, else `d[p] = x` (appended at the end). */
  function AddTo(d: seq<Entry>, p: string, x: int): seq<Entry>
  {
    match FindIn(d, p)
    case Some(v) => PutIn(d, p, v + x)
    case None => PutIn(d, p, x)
  }

  /** The per-product totals dictionary for field `f` after all of `rows`. */
  function Totals(rows: seq<Sale>, f: Field): seq<Entry>
  {
    if rows == [] then []
    else
      var last := rows[|rows| - 1];
      AddTo(Totals(rows[..|rows| - 1], f), last.product, Amount(last, f))
  }

  /** The buckets of the hash table after `put(product, units)` for every row in turn. */
  function SalesTable(rows: seq<Sale>): (bs: seq<seq<Entry>>)
    ensures |bs| == BucketCount
  {
    if rows == [] then Empty(BucketCount)
    else
      var last := rows[|rows| - 1];
      Put(SalesTable(rows[..|rows| - 1]), last.product, last.units)
  }

  // ---------------------------------------------------------------------
  // Reference definitions, independent of the loop

  function Products(rows: seq<Sale>): set<string>
  {
    set i | 0 <= i < |rows| :: rows[i].product
  }

  /** Sum of field `f` over the rows whose product is `p`. */
  function SumFor(rows: seq<Sale>, p: string, f: Field): int
  {
    if rows == [] then 0
    else SumFor(rows[1..], p, f) + if rows[0].product == p then Amount(rows[0], f) else 0
  }

  /** Sum of the values of an association list. */
  function SumValues(d: seq<Entry>): int
  {
    if d == [] then 0 else SumValues(d[..|d| - 1]) + d[|d| - 1].value
  }

  /** Index `i` is the first of `items` whose value no other value exceeds. */
  ghost predicate IsFirstMax(items: seq<Entry>, i: int)
  {
    && 0 <= i < |items|
    && (forall j :: 0 <= j < |items| ==> items[j].value <= items[i].value)
    && (forall j :: 0 <= j < i ==> items[j].value < items[i].value)
  }

  // ---------------------------------------------------------------------
  // Python's max(..., key=value): keep the first maximal entry

  function FirstMaxIndex(items: seq<Entry>): (i: nat)
    requires items != []
    ensures IsFirstMax(items, i)
  {
    if |items| == 1 then 0
    else
      var i := FirstMaxIndex(items[..|items| - 1]);
      if items[|items| - 1].value > items[i].value then |items| - 1 else i
  }

  /** The key of the first maximal entry; `None` where `max` raises on an empty sequence. */
  function MaxKey(items: seq<Entry>): (r: Option<string>)
    ensures r.None? <==> items == []
    ensures r.Some? ==> exists i :: IsFirstMax(items, i) && items[i].key == r.value
  {
    if items == [] then None else Some(items[FirstMaxIndex(items)].key)
  }

  // ---------------------------------------------------------------------
  // Lemmas

  lemma SumValuesUpdate(d: seq<Entry>, i: nat, e: Entry)
    requires i < |d|
    ensures SumValues(d[i := e]) == SumValues(d) - d[i].value + e.value
  {
    if i < |d| - 1 {
      assert d[i := e][..|d| - 1] == d[..|d| - 1][i := e];
      SumValuesUpdate(d[..|d| - 1], i, e);
    } else {
      assert d[i := e][..|d| - 1] == d[..|d| - 1];
    }
  }

  lemma SumValuesAddTo(d: seq<Entry>, p: string, x: int)
    ensures SumValues(AddTo(d, p, x)) == SumValues(d) + x
  {
    var i := IndexOf(d, p);
    if i < 0 {
      assert (d + [Entry(p, x)])[..|d|] == d;
    } else {
      SumValuesUpdate(d, i, Entry(p, d[i].value + x));
    }
  }

  /** The revenue totals add up to the grand total (so the exact revenue ratios, before rounding, add up to 100%). */
  lemma {:induction false} RevenueTotalsSumToTotal(rows: seq<Sale>)
    ensures SumValues(Totals(rows, Revenue)) == TotalRevenue(rows)
  {
    if rows != [] {
      var last := rows[|rows| - 1];
      RevenueTotalsSumToTotal(rows[..|rows| - 1]);
      SumValuesAddTo(Totals(rows[..|rows| - 1], Revenue), last.product, last.revenue);
    }
  }

  lemma SumForSnoc(rows: seq<Sale>, s: Sale, p: string, f: Field)
    ensures SumFor(rows + [s], p, f) == SumFor(rows, p, f) + if s.product == p then Amount(s, f) else 0
  {
    if rows != [] {
      assert (rows + [s])[1..] == rows[1..] + [s];
      SumForSnoc(rows[1..], s, p, f);
    }
  }

  lemma ProductsSnoc(rows: seq<Sale>)
    requires rows != []
    ensures Products(rows) == Products(rows[..|rows| - 1]) + {rows[|rows| - 1].product}
  {
  }

  /** Keys stay distinct and equal to the set of keys added so far. */
  lemma AddToKeys(d: seq<Entry>, p: string, x: int)
    requires DistinctKeys(d)
    ensures DistinctKeys(AddTo(d, p, x))
    ensures KeySet(AddTo(d, p, x)) == KeySet(d) + {p}
    ensures KeysOf(AddTo(d, p, x)) == if p in KeySet(d) then KeysOf(d) else KeysOf(d) + [p]
  {
    var i := IndexOf(d, p);
    var d' := AddTo(d, p, x);
    if i < 0 {
      assert p !in KeySet(d);
      assert KeySet(d') == KeySet(d) + {p} by {
        assert forall j :: 0 <= j < |d| ==> d'[j] == d[j];
        assert d'[|d|].key == p;
      }
    } else {
      assert p in KeySet(d);
      assert forall j :: 0 <= j < |d| ==> d'[j].key == d[j].key;
      assert KeySet(d') == KeySet(d);
    }
  }

  /** Each totals dictionary holds every product sold, and each of them once. */
  lemma {:induction false} TotalsKeys(rows: seq<Sale>, f: Field)
    ensures DistinctKeys(Totals(rows, f))
    ensures KeySet(Totals(rows, f)) == Products(rows)
  {
    if rows != [] {
      var front := rows[..|rows| - 1];
      var last := rows[|rows| - 1];
      TotalsKeys(front, f);
      AddToKeys(Totals(front, f), last.product, Amount(last, f));
      ProductsSnoc(rows);
    }
  }

  lemma AddToFind(d: seq<Entry>, q: string, x: int, p: string)
    ensures FindIn(AddTo(d, q, x), p) == if p == q then Some(FindIn(d, q).GetOr(0) + x) else FindIn(d, p)
  {
    FindInPutIn(d, q, FindIn(d, q).GetOr(0) + x, p);
  }

  /**
   * The entry of a totals dictionary for `p` is the sum of field `f` over
   * the rows of product `p`; a product never sold has no entry.
   */
  lemma {:induction false} TotalsAreSums(rows: seq<Sale>, f: Field, p: string)
    ensures FindIn(Totals(rows, f), p) ==
            if p in Products(rows) then Some(SumFor(rows, p, f)) else None
  {
    if rows != [] {
      var front := rows[..|rows| - 1];
      var last := rows[|rows| - 1];
      var d := Totals(front, f);
      TotalsAreSums(front, f, p);
      ProductsSnoc(rows);
      assert rows == front + [last];
      SumForSnoc(front, last, p, f);
      AddToFind(d, last.product, Amount(last, f), p);
      if p == last.product && p !in Products(front) {
        SumForAbsent(front, p, f);
      }
    }
  }

  lemma {:induction false} SumForAbsent(rows: seq<Sale>, p: string, f: Field)
    requires p !in Products(rows)
    ensures SumFor(rows, p, f) == 0
  {
    if rows != [] {
      assert rows[0].product != p;
      assert Products(rows[1..]) <= Products(rows) by {
        forall q | q in Products(rows[1..]) ensures q in Products(rows) {
          var i :| 0 <= i < |rows[1..]| && rows[1..][i].product == q;
          assert rows[i + 1].product == q;
        }
      }
      SumForAbsent(rows[1..], p, f);
    }
  }

  /** Both totals dictionaries gain their keys in the same order, the order of first sale. */
  lemma {:induction false} TotalsShareKeyOrder(rows: seq<Sale>)
    ensures KeysOf(Totals(rows, Units)) == KeysOf(Totals(rows, Revenue))
  {
    if rows != [] {
      var front := rows[..|rows| - 1];
      var last := rows[|rows| - 1];
      TotalsShareKeyOrder(front);
      TotalsKeys(front, Units);
      TotalsKeys(front, Revenue);
      AddToKeys(Totals(front, Units), last.product, last.units);
      AddToKeys(Totals(front, Revenue), last.product, last.revenue);
    }
  }

  /** The table stays well formed while the rows are put into it. */
  lemma {:induction false} SalesTableWellFormed(rows: seq<Sale>)
    ensures WellFormed(SalesTable(rows))
  {
    if rows == [] {
      assert forall b :: 0 <= b < BucketCount ==> SalesTable(rows)[b] == [];
    } else {
      var last := rows[|rows| - 1];
      SalesTableWellFormed(rows[..|rows| - 1]);
      PutPreservesWellFormed(SalesTable(rows[..|rows| - 1]), last.product, last.units);
    }
  }

  /**
   * Last write wins: the table maps `p` to the units of the last row of
   * product `p`, and has no entry for a product never sold.
   */
  lemma {:induction false} SalesTableKeepsLastUnits(rows: seq<Sale>, p: string)
    ensures Lookup(SalesTable(rows), p).None? <==> p !in Products(rows)
    ensures forall i :: 0 <= i < |rows| && rows[i].product == p &&
                        (forall j :: i < j < |rows| ==> rows[j].product != p) ==>
                        Lookup(SalesTable(rows), p) == Some(rows[i].units)
  {
    if rows != [] {
      var front := rows[..|rows| - 1];
      var last := rows[|rows| - 1];
      SalesTableKeepsLastUnits(front, p);
      LookupAfterPut(SalesTable(front), last.product, last.units, p);
      ProductsSnoc(rows);
      forall i | 0 <= i < |rows| && rows[i].product == p &&
                 (forall j :: i < j < |rows| ==> rows[j].product != p)
        ensures Lookup(SalesTable(rows), p) == Some(rows[i].units)
      {
        if i < |rows| - 1 {
          assert front[i] == rows[i];
          assert forall j :: i < j < |front| ==> front[j] == rows[j];
        }
      }
    }
  }

  /** `items()` of the ingested table has one entry per product sold. */
  lemma SalesItemsArePerProduct(rows: seq<Sale>)
    ensures KeySet(Concat(SalesTable(rows))) == Products(rows)
    ensures |Concat(SalesTable(rows))| == |Products(rows)|
    ensures Concat(SalesTable(rows)) == [] <==> rows == []
  {
    SalesTableWellFormed(rows);
    ItemsAreContents(SalesTable(rows));
    forall k ensures k in KeySet(Concat(SalesTable(rows))) <==> k in Products(rows) {
      SalesTableKeepsLastUnits(rows, k);
    }
    if rows != [] {
      assert rows[0].product in Products(rows);
    }
  }
}
