/**
 * The two console sorts over the rows of the CSV file, in place.  A row is
 * any value; `key` is the integer the sort compares (`int(row[5])`, the
 * total cost, for the bubble sort and `int(row[2])` for the selection sort).
 */
module CsvSort {

  ghost predicate SortedBy<T>(s: seq<T>, key: T -> int)
  {
    forall p, q :: 0 <= p < q < |s| ==> key(s[p]) <= key(s[q])
  }

  /** `s[b..]` is sorted by key. */
  ghost predicate SortedFrom<T>(s: seq<T>, key: T -> int, b: int)
  {
    forall p, q :: b <= p < q < |s| && 0 <= p ==> key(s[p]) <= key(s[q])
  }

  /** No key in `s[..b]` exceeds a key in `s[b..]`. */
  ghost predicate SplitAt<T>(s: seq<T>, key: T -> int, b: int)
  {
    forall p, q :: 0 <= p < b <= q < |s| ==> key(s[p]) <= key(s[q])
  }

  /**
   * Bubble sort: `len(data)` passes, each comparing every adjacent pair and
   * swapping the two rows when the first has the larger key.
   */
  method BubbleSort<T>(data: array<T>, key: T -> int)
    modifies data
    ensures SortedBy(data[..], key)
    ensures multiset(data[..]) == old(multiset(data[..]))
  {
    var n := data.Length;
    for i := 0 to n
      invariant SortedFrom(data[..], key, n - i)
      invariant SplitAt(data[..], key, n - i)
      invariant multiset(data[..]) == old(multiset(data[..]))
    {
      BubblePass(data, key, n - i);
    }
    assert SortedFrom(data[..], key, 0);
  }

  /** `s[j]` has the largest key of `s[..j + 1]`. */
  ghost predicate MaxAt<T>(s: seq<T>, key: T -> int, j: int)
  {
    0 <= j < |s| && forall k :: 0 <= k <= j ==> key(s[k]) <= key(s[j])
  }

  /** One comparison of the pass: swap `s[j]` and `s[j + 1]` when they are out of order. */
  function Step<T>(s: seq<T>, key: T -> int, j: int): seq<T>
    requires 0 <= j && j + 1 < |s|
  {
    if key(s[j]) > key(s[j + 1]) then s[j := s[j + 1]][j + 1 := s[j]] else s
  }

  /**
   * A comparison keeps the sorted suffix `s[b..]` and the split at `b`, moves
   * the running maximum one place right, and never swaps across or inside
   * the sorted suffix.
   */
  lemma StepKeepsPass<T>(s: seq<T>, key: T -> int, j: int, b: int)
    requires 0 <= j && j + 1 < |s| && 0 < b <= |s|
    requires SortedFrom(s, key, b) && SplitAt(s, key, b) && MaxAt(s, key, j)
    requires j >= b - 1 ==> MaxAt(s, key, b - 1)
    ensures SortedFrom(Step(s, key, j), key, b) && SplitAt(Step(s, key, j), key, b)
    ensures MaxAt(Step(s, key, j), key, j + 1)
    ensures j + 1 >= b - 1 ==> MaxAt(Step(s, key, j), key, b - 1)
    ensures multiset(Step(s, key, j)) == multiset(s)
  {
    var t := Step(s, key, j);
    if key(s[j]) > key(s[j + 1]) {
      assert j + 1 < b;
      assert forall k :: 0 <= k < |s| && k != j && k != j + 1 ==> t[k] == s[k];
      assert t[j] == s[j + 1] && t[j + 1] == s[j];
    }
  }

  /**
   * One pass of the adjacent-swap loop over the whole array.  With the
   * largest keys already sorted in `data[b..]`, it carries the largest key of
   * `data[..b]` to position `b - 1`.
   */
  method BubblePass<T>(data: array<T>, key: T -> int, b: int)
    requires 0 < b <= data.Length
    requires SortedFrom(data[..], key, b) && SplitAt(data[..], key, b)
    modifies data
    ensures SortedFrom(data[..], key, b - 1) && SplitAt(data[..], key, b - 1)
    ensures multiset(data[..]) == old(multiset(data[..]))
  {
    var n := data.Length;
    var j := 0;
    while j < n - 1
      invariant 0 <= j <= n - 1
      invariant MaxAt(data[..], key, j)
      invariant j >= b - 1 ==> MaxAt(data[..], key, b - 1)
      invariant SortedFrom(data[..], key, b) && SplitAt(data[..], key, b)
      invariant multiset(data[..]) == old(multiset(data[..]))
    {
      ghost var s := data[..];
      StepKeepsPass(s, key, j, b);
      if key(data[j]) > key(data[j + 1]) {
        data[j], data[j + 1] := data[j + 1], data[j];
      }
      assert data[..] == Step(s, key, j);
      j := j + 1;
    }
    PassDone(data[..], key, b);
  }

  lemma PassDone<T>(s: seq<T>, key: T -> int, b: int)
    requires 0 < b <= |s|
    requires SortedFrom(s, key, b) && SplitAt(s, key, b) && MaxAt(s, key, b - 1)
    ensures SortedFrom(s, key, b - 1) && SplitAt(s, key, b - 1)
  {
  }

  /**
   * Selection sort: for each position `i`, find the first row of least key
   * in `data[i..]` and swap it into position `i`.
   */
  method SelectionSort<T>(data: array<T>, key: T -> int)
    modifies data
    ensures SortedBy(data[..], key)
    ensures multiset(data[..]) == old(multiset(data[..]))
  {
    var n := data.Length;
    for i := 0 to n
      invariant forall p, q :: 0 <= p < q < i ==> key(data[p]) <= key(data[q])
      invariant forall p, q :: 0 <= p < i <= q < n ==> key(data[p]) <= key(data[q])
      invariant multiset(data[..]) == old(multiset(data[..]))
    {
      var minIndex := i;
      for j := i + 1 to n
        invariant i <= minIndex < j
        invariant forall k :: i <= k < j ==> key(data[minIndex]) <= key(data[k])
      {
        if key(data[j]) < key(data[minIndex]) {
          minIndex := j;
        }
      }
      data[i], data[minIndex] := data[minIndex], data[i];
    }
  }
}
