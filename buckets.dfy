/**
 * The separately chained hash table as a value: a sequence of buckets, each
 * bucket a sequence of key/value entries in insertion order.  The functions
 * here are the specification that the `HashTable` class is proved against.
 */
module Buckets {
  import opened Wrappers

  /** One `[key, value]` pair held in a bucket. */
  datatype Entry = Entry(key: string, value: int)

  /** Sum of the character codes of `s`. */
  function CodeSum(s: string): nat
  {
    if s == [] then 0 else CodeSum(s[..|s| - 1]) + s[|s| - 1] as int
  }

  /** The bucket index of `key` in a table of `size` buckets. */
  function Hash(key: string, size: nat): (h: nat)
    requires size > 0
    ensures h < size
  {
    CodeSum(key) % size
  }

  lemma {:induction false} CodeSumAppend(a: string, b: string)
    ensures CodeSum(a + b) == CodeSum(a) + CodeSum(b)
  {
    if b == [] {
      assert a + b == a;
    } else {
      assert (a + b)[..|a + b| - 1] == a + b[..|b| - 1];
      CodeSumAppend(a, b[..|b| - 1]);
    }
  }

  /** Taking one character out of a string lowers the code sum by its code. */
  lemma RemoveOne(b: string, j: nat)
    requires j < |b|
    ensures CodeSum(b) == CodeSum(b[..j] + b[j + 1..]) + b[j] as int
  {
    var c := b[j];
    assert b == b[..j] + ([c] + b[j + 1..]);
    CodeSumAppend(b[..j], [c] + b[j + 1..]);
    CodeSumAppend([c], b[j + 1..]);
    CodeSumAppend(b[..j], b[j + 1..]);
    assert CodeSum([c]) == c as int by {
      assert [c][..0] == [];
    }
  }

  /** The code sum ignores the order of the characters. */
  lemma {:induction false} CodeSumPermutation(a: string, b: string)
    requires multiset(a) == multiset(b)
    ensures CodeSum(a) == CodeSum(b)
  {
    if a == [] {
      assert |b| == |multiset(b)| == 0;
    } else {
      var n := |a| - 1;
      var c := a[n];
      assert c in multiset(b) by {
        assert c in multiset(a);
      }
      var j :| 0 <= j < |b| && b[j] == c;
      var b' := b[..j] + b[j + 1..];
      RemoveOne(b, j);
      assert a == a[..n] + [c];
      CodeSumAppend(a[..n], [c]);
      assert CodeSum([c]) == c as int by {
        assert [c][..0] == [];
      }
      assert b == b[..j] + [c] + b[j + 1..];
      assert multiset(b) == multiset(b[..j]) + multiset{c} + multiset(b[j + 1..]);
      assert multiset(a) == multiset(a[..n]) + multiset{c};
      assert multiset(b') == multiset(b[..j]) + multiset(b[j + 1..]);
      assert multiset(a[..n]) == multiset(a) - multiset{c};
      assert multiset(b') == multiset(b) - multiset{c};
      CodeSumPermutation(a[..n], b');
    }
  }

  /** Two keys made of the same characters always land in the same bucket. */
  lemma AnagramsCollide(a: string, b: string, size: nat)
    requires size > 0
    requires multiset(a) == multiset(b)
    ensures Hash(a, size) == Hash(b, size)
  {
    CodeSumPermutation(a, b);
  }

  /** Position of the first entry of `bucket` whose key is `key`, or -1. */
  function IndexOf(bucket: seq<Entry>, key: string): (i: int)
    ensures -1 <= i < |bucket|
    ensures 0 <= i ==> bucket[i].key == key
    ensures forall j :: 0 <= j < |bucket| && (i < 0 || j < i) ==> bucket[j].key != key
  {
    if bucket == [] then -1
    else if bucket[0].key == key then 0
    else
      var i := IndexOf(bucket[1..], key);
      if i < 0 then -1 else i + 1
  }

  /** The value stored under `key` in one bucket. */
  function FindIn(bucket: seq<Entry>, key: string): Option<int>
  {
    var i := IndexOf(bucket, key);
    if i < 0 then None else Some(bucket[i].value)
  }

  /** Overwrite the first entry for `key`, or append a new entry. */
  function PutIn(bucket: seq<Entry>, key: string, value: int): seq<Entry>
  {
    var i := IndexOf(bucket, key);
    if i < 0 then bucket + [Entry(key, value)] else bucket[i := Entry(key, value)]
  }

  /** Drop the first entry for `key`; `None` when there is none. */
  function RemoveFrom(bucket: seq<Entry>, key: string): Option<seq<Entry>>
  {
    var i := IndexOf(bucket, key);
    if i < 0 then None else Some(bucket[..i] + bucket[i + 1..])
  }

  /** A table of `size` empty buckets. */
  function Empty(size: nat): (bs: seq<seq<Entry>>)
    ensures |bs| == size
    ensures forall b :: 0 <= b < size ==> bs[b] == []
  {
    seq(size, _ => [])
  }

  function Lookup(bs: seq<seq<Entry>>, key: string): Option<int>
    requires |bs| > 0
  {
    FindIn(bs[Hash(key, |bs|)], key)
  }

  /** Bucket `Hash(key)` gets `key`; the number of buckets never changes. */
  function Put(bs: seq<seq<Entry>>, key: string, value: int): (bs': seq<seq<Entry>>)
    requires |bs| > 0
    ensures |bs'| == |bs|
    ensures forall b :: 0 <= b < |bs| && b != Hash(key, |bs|) ==> bs'[b] == bs[b]
  {
    var h := Hash(key, |bs|);
    bs[h := PutIn(bs[h], key, value)]
  }

  /** `None` stands for the `KeyError` raised when `key` is absent. */
  function Delete(bs: seq<seq<Entry>>, key: string): Option<seq<seq<Entry>>>
    requires |bs| > 0
  {
    var h := Hash(key, |bs|);
    match RemoveFrom(bs[h], key)
    case None => None
    case Some(bucket) => Some(bs[h := bucket])
  }

  /** All entries, bucket after bucket. */
  function Concat(bs: seq<seq<Entry>>): seq<Entry>
  {
    if bs == [] then [] else Concat(bs[..|bs| - 1]) + bs[|bs| - 1]
  }

  predicate DistinctKeys(s: seq<Entry>)
  {
    forall i, j :: 0 <= i < j < |s| ==> s[i].key != s[j].key
  }

  function KeySet(s: seq<Entry>): set<string>
  {
    set i | 0 <= i < |s| :: s[i].key
  }

  function KeysOf(s: seq<Entry>): seq<string>
  {
    seq(|s|, i requires 0 <= i < |s| => s[i].key)
  }

  /** Every entry sits in the bucket its key hashes to. */
  ghost predicate Placed(bs: seq<seq<Entry>>, size: nat)
    requires size > 0
  {
    forall b, i :: 0 <= b < |bs| && 0 <= i < |bs[b]| ==> Hash(bs[b][i].key, size) == b
  }

  /**
   * The table invariant: at least one bucket, every key in the bucket it
   * hashes to, and no key twice in a bucket (hence no key twice at all).
   */
  ghost predicate WellFormed(bs: seq<seq<Entry>>)
  {
    && |bs| > 0
    && Placed(bs, |bs|)
    && forall b :: 0 <= b < |bs| ==> DistinctKeys(bs[b])
  }

  /** The first-match index is pinned down by the keys of the bucket. */
  lemma IndexOfIs(bucket: seq<Entry>, key: string, i: int)
    requires -1 <= i < |bucket|
    requires 0 <= i ==> bucket[i].key == key
    requires forall j :: 0 <= j < |bucket| && (i < 0 || j < i) ==> bucket[j].key != key
    ensures IndexOf(bucket, key) == i
  {
  }

  lemma IndexOfDistinct(bucket: seq<Entry>, i: int)
    requires DistinctKeys(bucket)
    requires 0 <= i < |bucket|
    ensures IndexOf(bucket, bucket[i].key) == i
  {
  }

  /** Scanning a bucket after an overwrite or append. */
  lemma {:induction false} FindInPutIn(bucket: seq<Entry>, key: string, value: int, other: string)
    ensures FindIn(PutIn(bucket, key, value), other) ==
            if other == key then Some(value) else FindIn(bucket, other)
  {
    var i := IndexOf(bucket, key);
    var b' := PutIn(bucket, key, value);
    var m := IndexOf(bucket, other);
    if other == key {
      if i < 0 {
        IndexOfIs(b', key, |bucket|);
      } else {
        IndexOfIs(b', key, i);
      }
    } else {
      assert |b'| >= |bucket|;
      assert forall j :: 0 <= j < |bucket| ==> b'[j].key == bucket[j].key;
      if m < 0 {
        IndexOfIs(b', other, -1);
      } else {
        IndexOfIs(b', other, m);
        assert m != i;
      }
    }
  }

  /** Last write wins: after `put(k, v)`, `get(k)` is `v` and every other key reads as before. */
  lemma LookupAfterPut(bs: seq<seq<Entry>>, key: string, value: int, other: string)
    requires |bs| > 0
    ensures |Put(bs, key, value)| == |bs|
    ensures Lookup(Put(bs, key, value), other) ==
            if other == key then Some(value) else Lookup(bs, other)
  {
    var h := Hash(key, |bs|);
    if Hash(other, |bs|) == h {
      FindInPutIn(bs[h], key, value, other);
    }
  }

  /** An overwrite grows no bucket; an insertion grows exactly bucket `Hash(key)` by one. */
  lemma PutGrowsOneBucket(bs: seq<seq<Entry>>, key: string, value: int)
    requires |bs| > 0
    ensures |Put(bs, key, value)| == |bs|
    ensures forall b :: 0 <= b < |bs| ==>
      |Put(bs, key, value)[b]| ==
        |bs[b]| + if b == Hash(key, |bs|) && Lookup(bs, key) == None then 1 else 0
  {
  }

  lemma PutPreservesWellFormed(bs: seq<seq<Entry>>, key: string, value: int)
    requires WellFormed(bs)
    ensures WellFormed(Put(bs, key, value))
  {
  }

  /** Removing a present key leaves no entry for it and leaves every other key alone. */
  lemma LookupAfterDelete(bs: seq<seq<Entry>>, key: string, other: string)
    requires WellFormed(bs)
    ensures Delete(bs, key).None? <==> Lookup(bs, key).None?
    ensures Delete(bs, key).Some? ==>
      var bs' := Delete(bs, key).value;
      |bs'| == |bs| &&
      Lookup(bs', other) == if other == key then None else Lookup(bs, other)
  {
    var h := Hash(key, |bs|);
    var b := bs[h];
    var i := IndexOf(b, key);
    if 0 <= i {
      var bs' := Delete(bs, key).value;
      var b' := b[..i] + b[i + 1..];
      assert bs'[h] == b';
      assert forall j :: 0 <= j < |b'| ==> b'[j] == if j < i then b[j] else b[j + 1];
      if other == key {
        IndexOfIs(b', key, -1);
      } else if Hash(other, |bs|) == h {
        var m := IndexOf(b, other);
        if m < 0 {
          IndexOfIs(b', other, -1);
        } else if m < i {
          IndexOfIs(b', other, m);
        } else {
          IndexOfIs(b', other, m - 1);
        }
      }
    }
  }

  lemma DeletePreservesWellFormed(bs: seq<seq<Entry>>, key: string)
    requires WellFormed(bs)
    requires Delete(bs, key).Some?
    ensures WellFormed(Delete(bs, key).value)
  {
  }

  lemma ConcatAppend(bs: seq<seq<Entry>>, bucket: seq<Entry>)
    ensures Concat(bs + [bucket]) == Concat(bs) + bucket
  {
  }

  lemma {:induction false} ConcatSplit(a: seq<seq<Entry>>, b: seq<seq<Entry>>)
    ensures Concat(a + b) == Concat(a) + Concat(b)
  {
    if b == [] {
      assert a + b == a;
    } else {
      var b' := b[..|b| - 1];
      assert a + b == (a + b') + [b[|b| - 1]];
      ConcatAppend(a + b', b[|b| - 1]);
      ConcatSplit(a, b');
    }
  }

  lemma {:induction false} ConcatOfEmpty(bs: seq<seq<Entry>>)
    requires forall b :: 0 <= b < |bs| ==> bs[b] == []
    ensures Concat(bs) == []
  {
    if bs != [] {
      ConcatOfEmpty(bs[..|bs| - 1]);
    }
  }

  lemma FindInKeySet(bucket: seq<Entry>, key: string)
    ensures FindIn(bucket, key).Some? <==> key in KeySet(bucket)
  {
  }

  /** An entry is listed by `Concat` exactly when some bucket holds it. */
  lemma {:induction false} ConcatMembers(bs: seq<seq<Entry>>, e: Entry)
    ensures e in Concat(bs) <==> exists b :: 0 <= b < |bs| && e in bs[b]
  {
    if bs != [] {
      var front := bs[..|bs| - 1];
      ConcatMembers(front, e);
      assert forall b :: 0 <= b < |front| ==> front[b] == bs[b];
      if e in Concat(bs) && e !in bs[|bs| - 1] {
        var b :| 0 <= b < |front| && e in front[b];
        assert e in bs[b];
      }
    }
  }

  /** Keys of disjoint buckets stay distinct once the buckets are joined. */
  lemma {:induction false} ConcatDistinct(bs: seq<seq<Entry>>, size: nat)
    requires size > 0
    requires Placed(bs, size)
    requires forall b :: 0 <= b < |bs| ==> DistinctKeys(bs[b])
    ensures DistinctKeys(Concat(bs))
    ensures forall j :: 0 <= j < |Concat(bs)| ==> Hash(Concat(bs)[j].key, size) < |bs|
  {
    if bs != [] {
      var front := bs[..|bs| - 1];
      var last := bs[|bs| - 1];
      assert forall b :: 0 <= b < |front| ==> front[b] == bs[b];
      ConcatDistinct(front, size);
      var c := Concat(front);
      assert Concat(bs) == c + last;
      assert forall j :: 0 <= j < |last| ==> Hash(last[j].key, size) == |bs| - 1;
      forall i, j | 0 <= i < j < |c + last|
        ensures (c + last)[i].key != (c + last)[j].key
      {
        if j < |c| {
        } else if i >= |c| {
          assert (c + last)[i] == last[i - |c|];
          assert (c + last)[j] == last[j - |c|];
        } else {
          assert Hash((c + last)[i].key, size) < |bs| - 1;
          assert Hash((c + last)[j].key, size) == |bs| - 1;
        }
      }
    }
  }

  lemma {:induction false} DistinctKeySetSize(s: seq<Entry>)
    requires DistinctKeys(s)
    ensures |KeySet(s)| == |s|
  {
    if s != [] {
      var front := s[..|s| - 1];
      DistinctKeySetSize(front);
      assert KeySet(s) == KeySet(front) + {s[|s| - 1].key};
      assert s[|s| - 1].key !in KeySet(front);
    }
  }

  /**
   * `items()` lists every stored key once, with its stored value, and
   * nothing else; so its length is the number of keys stored.
   */
  lemma ItemsAreContents(bs: seq<seq<Entry>>)
    requires WellFormed(bs)
    ensures DistinctKeys(Concat(bs))
    ensures |Concat(bs)| == |KeySet(Concat(bs))|
    ensures forall e :: e in Concat(bs) ==> Lookup(bs, e.key) == Some(e.value)
    ensures forall k :: k in KeySet(Concat(bs)) <==> Lookup(bs, k).Some?
  {
    ConcatDistinct(bs, |bs|);
    DistinctKeySetSize(Concat(bs));
    forall e | e in Concat(bs)
      ensures Lookup(bs, e.key) == Some(e.value)
    {
      ConcatMembers(bs, e);
      var b :| 0 <= b < |bs| && e in bs[b];
      var i :| 0 <= i < |bs[b]| && bs[b][i] == e;
      IndexOfDistinct(bs[b], i);
    }
    forall k | Lookup(bs, k).Some?
      ensures k in KeySet(Concat(bs))
    {
      var h := Hash(k, |bs|);
      var i := IndexOf(bs[h], k);
      ConcatMembers(bs, bs[h][i]);
      var j :| 0 <= j < |Concat(bs)| && Concat(bs)[j] == bs[h][i];
    }
  }
}
