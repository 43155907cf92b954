/** The least-recently-used policy on values: a cache is a sequence of entries,
    most recently used first.  CheckpointCache is proved to refine it. */
module LruSpec {
  import opened Common

  datatype Entry<K, V> = Entry(key: K, value: V)

  /** The keys, most recently used first. */
  function Keys<K, V>(s: seq<Entry<K, V>>): (ks: seq<K>)
    ensures |ks| == |s|
    ensures forall i :: 0 <= i < |s| ==> ks[i] == s[i].key
  {
    seq(|s|, i requires 0 <= i < |s| => s[i].key)
  }

  function Lookup<K(==), V>(s: seq<Entry<K, V>>, k: K): (r: Option<V>)
    ensures r.Some? <==> k in Keys(s)
  {
    if s == [] then None
    else if s[0].key == k then Some(s[0].value)
    else
      assert Keys(s) == [s[0].key] + Keys(s[1..]);
      Lookup(s[1..], k)
  }

  function Without<K(==), V>(s: seq<Entry<K, V>>, k: K): seq<Entry<K, V>> {
    if s == [] then []
    else if s[0].key == k then Without(s[1..], k)
    else [s[0]] + Without(s[1..], k)
  }

  function Get<K(==), V>(s: seq<Entry<K, V>>, k: K): seq<Entry<K, V>> {
    match Lookup(s, k)
    case None => s
    case Some(v) => [Entry(k, v)] + Without(s, k)
  }

  /** A negative or zero maxSize leaves no room at all. */
  function Capacity(maxSize: int): nat {
    if maxSize < 0 then 0 else maxSize
  }

  function Put<K(==), V>(s: seq<Entry<K, V>>, maxSize: int, k: K, v: V): seq<Entry<K, V>> {
    var s' := [Entry(k, v)] + Without(s, k);
    if Lookup(s, k).None? then Trim(s', maxSize) else s'
  }

  /** Evicts the least recently used entry of an overfull cache. */
  function Trim<T>(s: seq<T>, maxSize: int): seq<T> {
    if |s| > maxSize then DropLast(s) else s
  }

  function DropLast<T>(s: seq<T>): seq<T> {
    if s == [] then [] else s[..|s| - 1]
  }

  /** Removing the only occurrence of a key cuts the sequence at that point. */
  lemma {:induction false} WithoutOnly<K, V>(s: seq<Entry<K, V>>, i: nat)
    requires i < |s| && forall j :: 0 <= j < |s| && j != i ==> s[j].key != s[i].key
    ensures Without(s, s[i].key) == s[..i] + s[i + 1..]
  {
    hide Lookup, Keys;
    if i == 0 {
      WithoutAbsent(s[1..], s[0].key);
    } else {
      assert s[0].key != s[i].key && s[1..][i - 1] == s[i];
      WithoutOnly(s[1..], i - 1);
      CutTail(s, i);
    }
  }

  /** And looking it up finds it. */
  lemma {:induction false} LookupOnly<K, V>(s: seq<Entry<K, V>>, i: nat)
    requires i < |s| && forall j :: 0 <= j < i ==> s[j].key != s[i].key
    ensures Lookup(s, s[i].key) == Some(s[i].value)
  {
    hide Keys;
    if i > 0 {
      assert s[0].key != s[i].key && s[1..][i - 1] == s[i];
      LookupOnly(s[1..], i - 1);
    }
  }

  lemma CutTail<T>(s: seq<T>, i: nat)
    requires 0 < i < |s|
    ensures [s[0]] + (s[1..][..i - 1] + s[1..][i..]) == s[..i] + s[i + 1..]
  {
  }

  lemma WithoutAt<K, V>(s: seq<Entry<K, V>>, i: nat)
    requires i < |s|
    requires Distinct(Keys(s))
    ensures Without(s, s[i].key) == s[..i] + s[i + 1..]
    ensures Lookup(s, s[i].key) == Some(s[i].value)
  {
    hide Without, Lookup;
    forall j | 0 <= j < |s| && j != i ensures s[j].key != s[i].key {
      assert Keys(s)[j] != Keys(s)[i];
    }
    WithoutOnly(s, i);
    LookupOnly(s, i);
  }

  lemma MissLeaves<K, V>(s: seq<Entry<K, V>>, k: K)
    ensures Lookup(s, k).None? ==> Get(s, k) == s
  {
  }

  /** Moving element i to the front. */
  function MovedToFront<T>(s: seq<T>, i: nat): seq<T>
    requires i < |s|
  {
    [s[i]] + (s[..i] + s[i + 1..])
  }

  /** What touching a present key does: its entry moves to the front. */
  lemma Promotion<K, V>(s: seq<Entry<K, V>>, maxSize: int, i: nat, v: V)
    requires i < |s| && Distinct(Keys(s))
    ensures Lookup(s, s[i].key) == Some(s[i].value)
    ensures Get(s, s[i].key) == MovedToFront(s, i)
    ensures Put(s, maxSize, s[i].key, v) == MovedToFront(s[i := Entry(s[i].key, v)], i)
  {
    WithoutAt(s, i);
  }

  lemma {:induction false} WithoutAbsent<K, V>(s: seq<Entry<K, V>>, k: K)
    requires forall i :: 0 <= i < |s| ==> s[i].key != k
    ensures Without(s, k) == s
    ensures Lookup(s, k) == None
  {
    if s != [] {
      WithoutAbsent(s[1..], k);
    }
  }

  lemma {:induction false} WithoutShrinks<K, V>(s: seq<Entry<K, V>>, k: K)
    ensures |Without(s, k)| <= |s| - (if Lookup(s, k).Some? then 1 else 0)
  {
    if s != [] {
      WithoutShrinks(s[1..], k);
    }
  }

  /** No operation leaves more entries than there is room for. */
  lemma StaysWithinCapacity<K, V>(s: seq<Entry<K, V>>, maxSize: int, k: K, v: V)
    requires |s| <= Capacity(maxSize)
    ensures |Get(s, k)| <= Capacity(maxSize)
    ensures |Put(s, maxSize, k, v)| <= Capacity(maxSize)
    ensures |Without(s, k)| <= Capacity(maxSize)
  {
    WithoutShrinks(s, k);
  }
}
