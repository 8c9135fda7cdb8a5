# Sales CSV reader: hash table, aggregation and sorts

A Dafny model of the data handling of a small desktop sales report (Kitrop/csv_reader).
The application reads a sales CSV file and does three things with it:
- it fills a fixed-bucket, separately chained hash table with the units of each product;
- it builds two per-product totals dictionaries and a grand total of the revenue;
- it reports the top product by the hash table and by the two dictionaries.

The file also holds two classroom sorts of the CSV rows, a bubble sort and a selection sort.

The model has six modules:

- `Wrappers` (wrappers.dfy): `Option` and `Result`. A `get` miss, which the source reports with the string sentinel "Не найдено", is `None`.
- `Buckets` (buckets.dfy): the hash table as a value, a `seq<seq<Entry>>` of buckets.
  - It defines the bucket index (the sum of the character codes modulo the bucket count) and the first-match scan `IndexOf`.
  - The put, get, delete and items operations are functions over that value. Delete returns `None` where the source raises `KeyError`.
  - The table invariant `WellFormed` says every key sits in the bucket it hashes to, and no bucket holds a key twice.
  - The lemmas state last-write-wins, delete, bucket growth, invariant preservation and the contents of `items()`.
- `HashTables` (hash_table.dfy): the class `HashTable`.
  - Its fields are a constant `size` and an `array<seq<Entry>>` of buckets, which `Put` and `Delete` update in place.
  - Each method scans the bucket with a loop, as the source does. Each is proved to leave the array equal to the matching `Buckets` function of the old array.
- `Sales` (sales.dfy): the aggregation as functions of the parsed rows.
  - `SalesTable` is the buckets after one `put(product, units)` per row.
  - `Totals` is a per-product totals dictionary, and `TotalRevenue` the grand total.
  - `MaxKey` is Python's `max(..., key=...)`, which returns the first maximal entry.
  - These functions are related to independent reference definitions: the per-product sum `SumFor`, the set of products, and the last row of a product.
  - A Python dictionary iterates in insertion order. It is modelled as an association list `seq<Entry>` with distinct keys, and `d[p] += x` overwrites the entry in place.
- `Pipeline` (pipeline.dfy): the ingestion loop (`UpdateSalesData`), the choice of the maximum products with the exceptions on the way (`CalculateMaxValues`), and the load action chaining the two (`LoadData`).
  - It also works through the three-row example (A, 10, 100), (B, 5, 50), (A, 3, 30).
  - On that example the two kinds of maximum diverge. The table keeps only the last units per product, so its top seller is B. The accumulated dictionaries make A the top product for revenue and for units.
  - The model keeps both behaviours as written.
- `CsvSort` (sorting.dfy): the bubble sort and the selection sort, in place on an array of rows.
  - The integer the sorts compare is a `key` function: `int(row[5])` for the bubble sort, `int(row[2])` for the selection sort.
  - Both are proved to sort by that key and to permute the array.

Two points about the failures of the code:
- `ZeroDivisionError` is raised only while a revenue share is computed (main.py:126-127). That happens only if the units dictionary is non-empty, and only after the revenue lookup of the product, which can raise `KeyError`. `CalculateMaxValues` states this order.
- A short or non-numeric row raises `IndexError` or `ValueError` during parsing (main.py:102-106), which is not modelled (see below).

## Model

| member | source | states |
|---|---|---|
| Buckets.Hash | main.py:12-14 | the bucket index of a key is below the bucket count (size 100 in the ingestion loop) |
| Buckets.CodeSumPermutation | main.py:13 | the character-code sum does not depend on the order of the characters |
| Buckets.AnagramsCollide | main.py:12-14 | two keys with the same characters always get the same bucket |
| Buckets.IndexOf | main.py:18-19 | the scan finds the first entry whose key matches, or reports that no entry matches |
| Buckets.Put | main.py:16-22 | put leaves every bucket other than Hash(key) unchanged and never changes the number of buckets (no resizing) |
| Buckets.LookupAfterPut | main.py:16-29 | after put(k, v), get(k) is v and every other key reads as before, whether or not it shares k's bucket |
| Buckets.PutGrowsOneBucket | main.py:16-22 | overwriting a present key grows no bucket; inserting a new key grows only bucket Hash(k), by one |
| Buckets.PutPreservesWellFormed | main.py:16-22 | put keeps every key in the bucket it hashes to and each key at most once |
| Buckets.LookupAfterDelete | main.py:24-37 | delete fails exactly when get misses; after a successful delete get(k) misses and every other key reads as before |
| Buckets.DeletePreservesWellFormed | main.py:31-37 | delete keeps the table invariant |
| Buckets.ItemsAreContents | main.py:39-43 | items() has distinct keys, lists exactly the stored keys with their stored values, and its length is the number of keys stored |
| HashTables.HashTable.constructor | main.py:8-10 | a new table has `size` empty buckets |
| HashTables.HashTable.Put | main.py:16-22 | the bucket array afterwards is the put function of the old one, and the invariant holds |
| HashTables.HashTable.Get | main.py:24-29 | returns the stored value of the key, or None (the not-found sentinel) |
| HashTables.HashTable.Delete | main.py:31-37 | either deletes or raises KeyError for the given key; raises and changes nothing exactly when the key is absent, otherwise leaves the delete function of the old array |
| HashTables.HashTable.Items | main.py:39-43 | returns the buckets concatenated in index order |
| Sales.FirstMaxIndex | main.py:123 | the chosen entry has a value no other value exceeds, and every earlier entry has a smaller value |
| Sales.MaxKey | main.py:123-124 | max over an empty collection fails; otherwise it is the key of the first maximal entry |
| Sales.RevenueTotalsSumToTotal | main.py:107-116 | the per-product revenue totals add up to the total revenue, so the exact revenue ratios (before rounding) add up to 100% |
| Sales.TotalsKeys | main.py:111-116 | a totals dictionary has one key per product sold, and no other |
| Sales.TotalsAreSums | main.py:111-116 | the dictionary's entry for p is the sum of the field over the rows of product p; unsold products have no entry |
| Sales.TotalsShareKeyOrder | main.py:111-116 | both totals dictionaries have their keys in the same insertion order |
| Sales.SalesTableWellFormed | main.py:96-109 | the table filled by the ingestion loop keeps the table invariant |
| Sales.SalesTableKeepsLastUnits | main.py:101-109 | the table maps p to the units of the last row of product p (last write, not a sum), and has no entry for unsold products |
| Sales.SalesItemsArePerProduct | main.py:109 | items() of the filled table has one entry per product sold, and is empty exactly when there are no rows |
| Pipeline.UpdateSalesData | main.py:94-118 | the loop reads `Rows(lines, parse)`, the parsed lines after the header, so the header is never counted; it leaves a fresh 100-bucket table, the total revenue and the two totals dictionaries as the aggregation functions of those rows |
| Pipeline.AddSale | main.py:102-116 | one iteration of the loop: the total grows by the row's revenue, the table becomes put(product, units) of the old one, and each dictionary adds the row's amount to the product's entry or creates it |
| Pipeline.CalculateMaxValues | main.py:120-135 | which exception max, the revenue lookup or the share division raises, and which inputs raise it; a KeyError names the first product, in units-dictionary order, without a revenue entry; on success the three first-maximal keys |
| Pipeline.LoadData | main.py:150-156 | fails with an empty max exactly when there are no data rows and with a division by zero exactly when the total revenue is 0; otherwise reports the three maxima and the total |
| Pipeline.ExampleBuckets | main.py:12-22 | in the example, A lands in bucket 65 holding its last units 3, and B lands in bucket 66 |
| Pipeline.ExampleItems | main.py:39-43 | in the example, items() is [A: 3, B: 5] |
| Pipeline.ExampleTotals | main.py:107-116 | in the example, total revenue is 180, revenue totals are A 130 and B 50, unit totals are A 13 and B 5 |
| Pipeline.DivergentMaxima | main.py:123-133 | in the example the top seller by the table is B, while the top products by revenue and by units are A |
| CsvSort.StepKeepsPass | main.py:178-179 | one compare-and-swap keeps the sorted suffix, moves the running maximum one place right, and permutes |
| CsvSort.BubblePass | main.py:177-179 | one full pass extends the sorted suffix of largest keys by one position, permuting the rows |
| CsvSort.BubbleSort | main.py:176-179 | the rows end sorted by the key (column 5) and are a permutation of the input |
| CsvSort.SelectionSort | main.py:194-200 | the rows end sorted by the key (column 2) and are a permutation of the input |

## Left out

- The PyQt5 window: the widget layout, `display_data`, `update_labels`, the rows of the revenue-share table, and application start-up. They are user-interface wiring only.
- File reading, and the `split`/`strip`/`int` conversions of a line. The ingestion takes the lines as strings and a `parse` function that turns one line into `Sale(product, units, revenue)`. The sorts take a `key` function in place of `int(row[5])` and `int(row[2])`. As a result, the `IndexError` and `ValueError` raised by short or non-numeric rows are not modelled.
- CsvSort.SelectionSort: the source compares `int(row[2])` (main.py:197), and column 2 is the product name that `update_sales_data` reads (main.py:103). On a file with non-numeric product names and at least two data rows, that conversion raises `ValueError`. The `key` parameter does not capture this.
- The console `print` output of `calculate_max_values` and of both sorts, and the module-level calls that run the sorts at import. They are external effects.
- Pipeline.CalculateMaxValues: the value `round(revenue / total * 100, 2)` is floating point and is not computed. Only two of its failure modes are modelled: the `KeyError` of the revenue lookup and the `ZeroDivisionError` of the division. The `OverflowError` that `int / int` raises when the quotient does not fit in a float (a huge product revenue against a small total; revenues are unbounded and may be negative) is not modelled.
- Pipeline.AddSale: requires the two dictionaries to agree on whether the product is present. The ingestion loop always keeps them so (both have the products sold as keys). On other dictionaries the source behaves differently: if only the revenue dictionary has the product, it raises `KeyError` in the units update (main.py:111-113); if only the units dictionary has it, it overwrites that entry with the row's units (main.py:114-116). Neither case is modelled.
- HashTables.HashTable.constructor: requires at least one bucket. With zero buckets the source builds the table and then raises `ZeroDivisionError` on the first put, get or delete (the `% self.size` at main.py:13); `items()` returns `[]`.
- HashTables.HashTable.Items: returns copies of the entries. The source returns the bucket's own `[key, value]` lists, which a caller could mutate. That aliasing is not modelled.
- Table values are integers, the only kind the application stores. The source's table accepts any value.
