/** The checkpoint cache: a map into a doubly linked list with two sentinels. */
module CheckpointCache {
  import opened Common
  import opened LruSpec

  class Node<K, V> {
    var key: K
    var checkpoint: V
    var prev: Node?<K, V>
    var next: Node?<K, V>

    constructor (key: K, checkpoint: V)
      ensures this.key == key && this.checkpoint == checkpoint
    {
      this.key, this.checkpoint, prev, next := key, checkpoint, null, null;
    }
  }

  /** s lists the elements of ts, each once. */
  ghost predicate Spells<T>(s: seq<T>, ts: set<T>) {
    && Distinct(s)
    && (forall i :: 0 <= i < |s| ==> s[i] in ts)
    && (forall x :: x in ts ==> x in s)
  }

  lemma SpellsCut<T>(s: seq<T>, ts: set<T>, i: nat)
    requires Spells(s, ts) && i < |s|
    ensures Spells(s[..i] + s[i + 1..], ts - {s[i]})
  {
    forall x | x in ts - {s[i]} ensures x in s[..i] + s[i + 1..] {
      var j :| 0 <= j < |s| && s[j] == x;
      assert x == (s[..i] + s[i + 1..])[if j < i then j else j - 1];
    }
  }

  lemma SpellsInsert<T>(s: seq<T>, ts: set<T>, x: T)
    requires Spells(s, ts) && s != [] && x !in ts
    ensures Spells([s[0], x] + s[1..], ts + {x})
  {
    assert s == [s[0]] + s[1..];
    forall y | y in ts + {x} ensures y in [s[0], x] + s[1..] {
      assert y == x || y in s;
    }
  }

  class Cache<K(==), V> {
    var cache: map<K, Node<K, V>>
    const maxSize: int
    const head: Node<K, V>
    const tail: Node<K, V>
    var hitCount: int
    var getCount: int

    /** The list from head to tail, sentinels included. */
    ghost var links: seq<Node<K, V>>
    /** The same nodes as a set. */
    ghost var nodes: set<Node<K, V>>
    /** The abstract recency sequence. */
    ghost var contents: seq<Entry<K, V>>

    /** prev and next are inverse along links, and no node occurs twice. */
    ghost predicate Linked()
      reads this`links, this`nodes, nodes`prev, nodes`next
    {
      && |links| >= 2
      && links[0] == head && links[|links| - 1] == tail
      && Spells(links, nodes)
      && (forall i {:trigger links[i].next} :: 0 <= i < |links| - 1 ==> links[i].next == links[i + 1])
      && (forall i {:trigger links[i].prev} :: 0 < i < |links| ==> links[i].prev == links[i - 1])
    }

    ghost predicate Inner(n: Node<K, V>)
      reads this`nodes
    {
      n != head && n != tail && n in nodes
    }

    /** The map and the list hold the same nodes, each under its own key. */
    ghost predicate Indexed()
      reads this`cache, this`nodes, nodes`key
    {
      && (forall k :: k in cache ==> Inner(cache[k]) && cache[k].key == k)
      && (forall n :: n in nodes && Inner(n) ==> n.key in cache && cache[n.key] == n)
    }

    /** The list, sentinels left out, spells the recency sequence. */
    ghost predicate Represents()
      requires Linked()
      reads this`links, this`nodes, this`contents, nodes
    {
      && |contents| == |links| - 2
      && (forall i {:trigger contents[i]} :: 0 <= i < |contents| ==>
            contents[i] == Entry(links[i + 1].key, links[i + 1].checkpoint))
    }

    /** Map, list and recency sequence agree. */
    ghost predicate Consistent()
      reads this`cache, this`links, this`nodes, this`contents, nodes
    {
      Linked() && Indexed() && Represents()
    }

    /** Between operations there are at most maxSize entries. */
    ghost predicate Valid()
      reads this`cache, this`links, this`nodes, this`contents, nodes
    {
      Consistent() && |contents| <= Capacity(maxSize)
    }

    constructor (maxSize: int, zeroKey: K, zeroCheckpoint: V)
      ensures Valid() && fresh(nodes)
      ensures this.maxSize == maxSize && contents == []
      ensures hitCount == getCount == 0
    {
      this.maxSize := maxSize;
      cache := map[];
      hitCount, getCount := 0, 0;
      var h := new Node(zeroKey, zeroCheckpoint);
      var t := new Node(zeroKey, zeroCheckpoint);
      head, tail := h, t;
      links, nodes, contents := [h, t], {h, t}, [];
      new;
      head.next := tail;
      tail.prev := head;
    }

    /** Distinct keys, and one map entry per list entry. */
    lemma Shape()
      requires Consistent()
      ensures Distinct(Keys(contents))
      ensures forall k :: k in cache <==> k in Keys(contents)
      ensures |cache| == |contents| && (Valid() ==> |cache| <= Capacity(maxSize))
    {
      var ks := Keys(contents);
      forall i {:trigger ks[i]} | 0 <= i < |ks| ensures Inner(links[i + 1]) && ks[i] == links[i + 1].key {
        assert contents[i].key == links[i + 1].key;
        assert links[i + 1] != links[0] && links[i + 1] != links[|links| - 1];
      }
      forall i, j | 0 <= i < j < |ks| ensures ks[i] != ks[j] {
        assert links[i + 1] != links[j + 1];
      }
      forall k | k in cache ensures k in ks {
        var i := IndexOf(cache[k]);
        assert ks[i - 1] == k;
      }
      SizeOfKeys(ks, cache.Keys);
    }

    static lemma {:induction false} SizeOfKeys<T>(s: seq<T>, ts: set<T>)
      requires Distinct(s)
      requires forall x :: x in s <==> x in ts
      ensures |s| == |ts|
    {
      if s == [] {
        assert ts == {};
      } else {
        var r, us := s[1..], ts - {s[0]};
        assert forall x :: x in s <==> x == s[0] || x in r;
        SizeOfKeys(r, us);
      }
    }

    lemma IndexOf(n: Node<K, V>) returns (i: nat)
      requires Linked() && Inner(n)
      ensures 0 < i < |links| - 1 && links[i] == n
    {
      i :| 0 <= i < |links| && links[i] == n;
    }

    /** Where a cached key sits, and what the specification does there. */
    lemma Position(k: K, v: V) returns (i: nat)
      requires Consistent() && k in cache
      ensures 0 < i < |links| - 1 && links[i] == cache[k] && cache[k] in nodes && |contents| == |links| - 2
      ensures contents[i - 1] == Entry(k, cache[k].checkpoint)
      ensures Lookup(contents, k) == Some(cache[k].checkpoint)
      ensures LruSpec.Get(contents, k) == MovedToFront(contents, i - 1)
      ensures LruSpec.Put(contents, maxSize, k, v) == MovedToFront(contents[i - 1 := Entry(k, v)], i - 1)
    {
      i := IndexOf(cache[k]);
      Shape();
      assert contents[i - 1].key == k;
      Promotion(contents, maxSize, i - 1, v);
    }

    lemma Cutting(k: K, i: nat)
      requires Consistent() && k in cache && 0 < i < |links| - 1 && links[i] == cache[k]
      ensures Without(contents, k) == contents[..i - 1] + contents[i..]
    {
      Shape();
      assert contents[i - 1].key == k;
      WithoutAt(contents, i - 1);
    }

    lemma Absent(k: K, v: V)
      requires Consistent() && k !in cache
      ensures LruSpec.Put(contents, maxSize, k, v) == Trim([Entry(k, v)] + contents, maxSize)
    {
      AbsentKey(k);
    }

    lemma AbsentKey(k: K)
      requires Consistent() && k !in cache
      ensures Without(contents, k) == contents && Lookup(contents, k) == None
    {
      Shape();
      forall i | 0 <= i < |contents| ensures contents[i].key != k {
        assert Keys(contents)[i] == contents[i].key;
      }
      WithoutAbsent(contents, k);
    }

    /** List surgery touches only prev and next. */
    twostate predicate PayloadKept(among: set<Node<K, V>>)
      reads among
    {
      forall n :: n in among ==> n.key == old(n.key) && n.checkpoint == old(n.checkpoint)
    }

    /** A node of the list is there once. */
    lemma Once(i: nat)
      requires Linked() && i < |links|
      ensures links[i] in nodes && forall j :: 0 <= j < |links| && j != i ==> links[j] != links[i]
    {
    }

    lemma NotListed(n: Node<K, V>)
      requires Linked() && n !in nodes
      ensures forall j :: 0 <= j < |links| ==> links[j] != n
    {
    }

    /** A list linked except around position i is linked once that position is cut out. */
    static lemma ChainCut(s: seq<Node<K, V>>, i: nat)
      requires 0 < i < |s| - 1
      requires forall j {:trigger s[j].next} :: 0 <= j < |s| - 1 && j != i ==>
                 s[j].next == s[if j == i - 1 then i + 1 else j + 1]
      requires forall j {:trigger s[j].prev} :: 0 < j < |s| && j != i ==>
                 s[j].prev == s[if j == i + 1 then i - 1 else j - 1]
      ensures var r := s[..i] + s[i + 1..];
              && (forall j {:trigger r[j].next} :: 0 <= j < |r| - 1 ==> r[j].next == r[j + 1])
              && (forall j {:trigger r[j].prev} :: 0 < j < |r| ==> r[j].prev == r[j - 1])
    {
    }

    /** A list linked except between its first two nodes is linked with x in between. */
    static lemma ChainInsert(s: seq<Node<K, V>>, x: Node<K, V>)
      requires |s| >= 2
      requires forall j {:trigger s[j].next} :: 0 <= j < |s| - 1 ==> s[j].next == if j == 0 then x else s[j + 1]
      requires forall j {:trigger s[j].prev} :: 0 < j < |s| ==> s[j].prev == if j == 1 then x else s[j - 1]
      requires x.prev == s[0] && x.next == s[1]
      ensures var r := [s[0], x] + s[1..];
              && (forall j {:trigger r[j].next} :: 0 <= j < |r| - 1 ==> r[j].next == r[j + 1])
              && (forall j {:trigger r[j].prev} :: 0 < j < |r| ==> r[j].prev == r[j - 1])
    {
    }

    /** The pointer surgery of removeFromList. */
    method Unlink(entry: Node<K, V>, ghost i: nat)
      requires Linked() && 0 < i < |links| - 1 && links[i] == entry
      modifies this`links, this`nodes, nodes
      ensures Linked()
      ensures links == old(links)[..i] + old(links)[i + 1..]
      ensures nodes == old(nodes) - {entry}
      ensures PayloadKept(old(nodes))
    {
      hide Spells;
      SpellsCut(links, nodes, i);
      Once(i - 1);
      Once(i + 1);
      entry.prev.next := entry.next;
      entry.next.prev := entry.prev;
      ChainCut(links, i);
      links, nodes := links[..i] + links[i + 1..], nodes - {entry};
    }

    method RemoveFromList(entry: Node<K, V>, ghost i: nat)
      requires Linked() && Represents() && 0 < i < |links| - 1 && links[i] == entry
      modifies this`links, this`nodes, this`contents, nodes
      ensures Linked() && Represents()
      ensures links == old(links)[..i] + old(links)[i + 1..]
      ensures contents == old(contents)[..i - 1] + old(contents)[i..]
      ensures nodes == old(nodes) - {entry}
      ensures PayloadKept(old(nodes))
    {
      Unlink(entry, i);
      contents := contents[..i - 1] + contents[i..];
    }

    /** The pointer surgery of addToFront. */
    method Link(entry: Node<K, V>)
      requires Linked() && entry !in nodes
      modifies this`links, this`nodes, nodes, entry
      ensures Linked()
      ensures links == [old(links)[0], entry] + old(links)[1..]
      ensures nodes == old(nodes) + {entry}
      ensures PayloadKept(old(nodes)) && entry.key == old(entry.key) && entry.checkpoint == old(entry.checkpoint)
    {
      hide Spells;
      SpellsInsert(links, nodes, entry);
      Once(0);
      Once(1);
      NotListed(entry);
      entry.prev := head;
      entry.next := head.next;
      head.next.prev := entry;
      head.next := entry;
      ChainInsert(links, entry);
      links, nodes := [links[0], entry] + links[1..], nodes + {entry};
    }

    method AddToFront(entry: Node<K, V>)
      requires Linked() && Represents() && entry !in nodes
      modifies this`links, this`nodes, this`contents, nodes, entry
      ensures Linked() && Represents()
      ensures links == [old(links)[0], entry] + old(links)[1..]
      ensures contents == [Entry(entry.key, entry.checkpoint)] + old(contents)
      ensures nodes == old(nodes) + {entry}
      ensures PayloadKept(old(nodes)) && entry.key == old(entry.key) && entry.checkpoint == old(entry.checkpoint)
    {
      Link(entry);
      contents := [Entry(entry.key, entry.checkpoint)] + contents;
    }

    /** Reordering the list does not disturb the map. */
    twostate lemma StillIndexed()
      requires old(Indexed()) && cache == old(cache) && nodes == old(nodes) && PayloadKept(nodes)
      ensures Indexed()
    {
    }

    method MoveToFront(entry: Node<K, V>, ghost i: nat)
      requires Linked() && Represents() && 0 < i < |links| - 1 && links[i] == entry
      modifies this`links, this`nodes, this`contents, nodes
      ensures Linked() && Represents()
      ensures contents == MovedToFront(old(contents), i - 1)
      ensures nodes == old(nodes)
      ensures PayloadKept(old(nodes))
    {
      RemoveFromList(entry, i);
      AddToFront(entry);
    }

    /** A hit moves the entry to the front; a miss changes nothing but the count. */
    method Get(k: K) returns (r: Option<V>)
      requires Valid()
      modifies this, nodes
      ensures Valid() && nodes == old(nodes)
      ensures r == Lookup(old(contents), k)
      ensures contents == LruSpec.Get(old(contents), k)
      ensures getCount == old(getCount) + 1
      ensures hitCount == old(hitCount) + (if r.Some? then 1 else 0)
    {
      hide Linked, Represents, Indexed, Spells, Without;
      getCount := getCount + 1;
      if k !in cache {
        AbsentKey(k);
        return None;
      }
      ghost var before := contents;
      var v := Hit(k);
      StaysWithinCapacity(before, maxSize, k, v);
      return Some(v);
    }

    /** The branch of Get for a key that is present. */
    method Hit(k: K) returns (v: V)
      requires Consistent() && k in cache
      modifies this, nodes
      ensures Consistent() && nodes == old(nodes)
      ensures Lookup(old(contents), k) == Some(v)
      ensures contents == LruSpec.Get(old(contents), k)
      ensures hitCount == old(hitCount) + 1 && getCount == old(getCount)
    {
      hide Linked, Represents, Indexed, Spells, LruSpec.Get, LruSpec.Put, Without, Lookup, MovedToFront;
      hitCount := hitCount + 1;
      var entry := cache[k];
      v := entry.checkpoint;
      ghost var i := Position(k, v);
      label promoting:
      MoveToFront(entry, i);
      StillIndexed@promoting();
    }

    method Put(k: K, v: V)
      requires Valid()
      modifies this, nodes
      ensures Valid() && fresh(nodes - old(nodes))
      ensures contents == LruSpec.Put(old(contents), maxSize, k, v)
      ensures hitCount == old(hitCount) && getCount == old(getCount)
    {
      hide Linked, Represents, Indexed, Spells, LruSpec.Put, Without;
      StaysWithinCapacity(contents, maxSize, k, v);
      if k in cache {
        Update(k, v);
      } else {
        Absent(k, v);
        Insert(k, v);
        Shape();
        if |cache| > maxSize {
          EvictLru();
        }
      }
    }

    /** The branch of Put for a key that is present. */
    method Update(k: K, v: V)
      requires Consistent() && k in cache
      modifies this, nodes
      ensures Consistent() && nodes == old(nodes)
      ensures contents == LruSpec.Put(old(contents), maxSize, k, v)
      ensures hitCount == old(hitCount) && getCount == old(getCount)
    {
      hide Linked, Represents, Indexed, Spells, LruSpec.Get, LruSpec.Put, Without, Lookup, MovedToFront;
      ghost var i := Position(k, v);
      var entry := cache[k];
      Overwrite(entry, v, i);
      label promoting:
      MoveToFront(entry, i);
      StillIndexed@promoting();
    }

    /** Stores another checkpoint in a node of the list. */
    method Overwrite(entry: Node<K, V>, v: V, ghost i: nat)
      requires Consistent() && 0 < i < |links| - 1 && links[i] == entry
      modifies this`contents, entry`checkpoint
      ensures Consistent() && i <= |contents| && contents == old(contents)[i - 1 := Entry(entry.key, v)]
    {
      entry.checkpoint := v;
      contents := contents[i - 1 := Entry(entry.key, v)];
    }

    /** The branch of Put for a new key, before the eviction. */
    method Insert(k: K, v: V)
      requires Consistent() && k !in cache
      modifies this, nodes
      ensures Consistent() && fresh(nodes - old(nodes))
      ensures contents == [Entry(k, v)] + old(contents)
      ensures hitCount == old(hitCount) && getCount == old(getCount)
    {
      hide Linked, Represents, Spells;
      var entry := new Node(k, v);
      AddToFront(entry);
      cache := cache[k := entry];
      assert Indexed();
    }

    method EvictLru()
      requires Consistent()
      modifies this, nodes
      ensures Consistent() && nodes <= old(nodes)
      ensures contents == DropLast(old(contents))
      ensures hitCount == old(hitCount) && getCount == old(getCount)
    {
      var lru := tail.prev;
      if lru != head {
        Drop(lru, |links| - 2);
      }
    }

    method Remove(k: K)
      requires Valid()
      modifies this, nodes
      ensures Valid() && nodes <= old(nodes)
      ensures contents == Without(old(contents), k)
      ensures hitCount == old(hitCount) && getCount == old(getCount)
    {
      if k in cache {
        WithoutShrinks(contents, k);
        ghost var i := IndexOf(cache[k]);
        Cutting(k, i);
        Drop(cache[k], i);
      } else {
        AbsentKey(k);
      }
    }

    /** Deletes a node from the map and from the list. */
    method Drop(entry: Node<K, V>, ghost i: nat)
      requires Consistent() && 0 < i < |links| - 1 && links[i] == entry
      modifies this, nodes
      ensures Consistent() && nodes <= old(nodes)
      ensures contents == old(contents)[..i - 1] + old(contents)[i..]
      ensures hitCount == old(hitCount) && getCount == old(getCount)
    {
      cache := cache - {entry.key};
      RemoveFromList(entry, i);
    }

    method Clear()
      requires Valid()
      modifies this, head, tail
      ensures Valid() && nodes <= old(nodes)
      ensures contents == [] && hitCount == getCount == 0
    {
      cache := map[];
      head.next := tail;
      tail.prev := head;
      links, nodes, contents := [head, tail], {head, tail}, [];
      hitCount, getCount := 0, 0;
    }
  }
}
