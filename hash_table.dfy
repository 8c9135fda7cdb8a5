/**
 * The `HashTable` class: a fixed number of buckets held in an array, each
 * bucket a list of entries that `Put` and `Delete` change in place.  Every
 * method is proved to leave the array as the matching function of module
 * `Buckets` says, so the lemmas there carry over to the object.
 */
module HashTables {
  import opened Wrappers
  import opened Buckets

  /** Outcome of `Delete`: the entry was removed, or `KeyError` was raised. */
  datatype DeleteOutcome = Deleted | KeyError(key: string)

  class HashTable {
    const size: nat
    const table: array<seq<Entry>>

    ghost predicate Valid()
      reads this, table
    {
      table.Length == size && WellFormed(table[..])
    }

    /** A table of `size` empty buckets. */
    constructor (size: nat)
      requires size > 0
      ensures Valid() && fresh(table)
      ensures this.size == size && table[..] == Empty(size)
    {
      this.size := size;
      table := new seq<Entry>[size](_ => []);
      new;
      assert table[..] == Empty(size);
    }

    /** Replace the value of `key` if it is stored, otherwise append a new entry. */
    method Put(key: string, value: int)
      requires Valid()
      modifies table
      ensures Valid()
      ensures table[..] == Buckets.Put(old(table[..]), key, value)
    {
      var h := Hash(key, size);
      var bucket := table[h];
      PutPreservesWellFormed(table[..], key, value);
      var i := 0;
      while i < |bucket|
        invariant 0 <= i <= |bucket|
        invariant table[..] == old(table[..])
        invariant forall j :: 0 <= j < i ==> bucket[j].key != key
      {
        if bucket[i].key == key {
          IndexOfIs(bucket, key, i);
          table[h] := bucket[i := Entry(key, value)];
          return;
        }
        i := i + 1;
      }
      IndexOfIs(bucket, key, -1);
      table[h] := bucket + [Entry(key, value)];
    }

    /** The value stored under `key`; `None` is the "not found" sentinel. */
    method Get(key: string) returns (r: Option<int>)
      requires Valid()
      ensures r == Lookup(table[..], key)
    {
      var h := Hash(key, size);
      var bucket := table[h];
      var i := 0;
      while i < |bucket|
        invariant 0 <= i <= |bucket|
        invariant forall j :: 0 <= j < i ==> bucket[j].key != key
      {
        if bucket[i].key == key {
          IndexOfIs(bucket, key, i);
          return Some(bucket[i].value);
        }
        i := i + 1;
      }
      IndexOfIs(bucket, key, -1);
      return None;
    }

    /** Remove the entry for `key`; raise `KeyError` and change nothing if there is none. */
    method Delete(key: string) returns (r: DeleteOutcome)
      requires Valid()
      modifies table
      ensures Valid()
      ensures r == Deleted || r == KeyError(key)
      ensures r == KeyError(key) <==> Buckets.Delete(old(table[..]), key).None?
      ensures r == KeyError(key) ==> table[..] == old(table[..])
      ensures r == Deleted ==> Buckets.Delete(old(table[..]), key) == Some(table[..])
    {
      var h := Hash(key, size);
      var bucket := table[h];
      var i := 0;
      while i < |bucket|
        invariant 0 <= i <= |bucket|
        invariant table[..] == old(table[..])
        invariant forall j :: 0 <= j < i ==> bucket[j].key != key
      {
        if bucket[i].key == key {
          IndexOfIs(bucket, key, i);
          DeletePreservesWellFormed(table[..], key);
          table[h] := bucket[..i] + bucket[i + 1..];
          return Deleted;
        }
        i := i + 1;
      }
      IndexOfIs(bucket, key, -1);
      return KeyError(key);
    }

    /** All entries, bucket by bucket in index order. */
    method Items() returns (result: seq<Entry>)
      requires Valid()
      ensures result == Concat(table[..])
    {
      result := [];
      var b := 0;
      while b < table.Length
        invariant 0 <= b <= table.Length
        invariant result == Concat(table[..b])
      {
        assert table[..b + 1] == table[..b] + [table[b]];
        ConcatAppend(table[..b], table[b]);
        result := result + table[b];
        b := b + 1;
      }
      assert table[..b] == table[..];
    }
  }
}
