/** The stack theorem of the recency policy: over runs of Get and Put a key
    that was ever stored is cached exactly when fewer than maxSize distinct other
    keys were touched since its own last touch. */
module LruStack {
  import opened Common
  import opened LruSpec

  datatype Op<K, V> = GetOp(key: K) | PutOp(key: K, value: V)

  function Step<K(==,!new), V>(s: seq<Entry<K, V>>, maxSize: int, op: Op<K, V>): seq<Entry<K, V>> {
    match op
    case GetOp(k) => Get(s, k)
    case PutOp(k, v) => Put(s, maxSize, k, v)
  }

  /** The cache after a run that starts empty. */
  function Run<K(==,!new), V>(maxSize: int, ops: seq<Op<K, V>>): seq<Entry<K, V>> {
    if ops == [] then []
    else Step(Run(maxSize, ops[..|ops| - 1]), maxSize, ops[|ops| - 1])
  }

  /** A Put touches its key; a Get touches it when it hits. */
  predicate Touches<K(==,!new), V>(s: seq<Entry<K, V>>, op: Op<K, V>) {
    op.PutOp? || Lookup(s, op.key).Some?
  }

  /** The keys touched by a run, oldest touch first. */
  function TouchLog<K(==,!new), V>(maxSize: int, ops: seq<Op<K, V>>): seq<K> {
    if ops == [] then []
    else
      var before := ops[..|ops| - 1];
      var op := ops[|ops| - 1];
      TouchLog(maxSize, before) + (if Touches(Run(maxSize, before), op) then [op.key] else [])
  }

  /** The value of the last Put of k in the run. */
  function LastPut<K(==,!new), V>(ops: seq<Op<K, V>>, k: K): Option<V> {
    if ops == [] then None
    else
      var op := ops[|ops| - 1];
      if op.PutOp? && op.key == k then Some(op.value) else LastPut(ops[..|ops| - 1], k)
  }

  /** How many distinct other keys occur in log after the last k. */
  function OthersSince<K(==,!new)>(log: seq<K>, k: K): set<K> {
    if log == [] || log[|log| - 1] == k then {}
    else {log[|log| - 1]} + OthersSince(log[..|log| - 1], k)
  }

  function Drop<K(==,!new)>(s: seq<K>, k: K): (r: seq<K>)
    ensures forall x :: x in r <==> x in s && x != k
    ensures |r| <= |s|
  {
    if s == [] then []
    else if s[0] == k then Drop(s[1..], k)
    else [s[0]] + Drop(s[1..], k)
  }

  /** All keys of the log, each once, most recent touch first. */
  function Stack<K(==,!new)>(log: seq<K>): (r: seq<K>)
    ensures forall x :: x in r <==> x in log
  {
    if log == [] then []
    else
      var k := log[|log| - 1];
      assert log == log[..|log| - 1] + [k];
      [k] + Drop(Stack(log[..|log| - 1]), k)
  }

  function Take<T>(s: seq<T>, n: nat): seq<T> {
    if n < |s| then s[..n] else s
  }

  lemma {:induction false} StackDistinct<K(!new)>(log: seq<K>)
    ensures Distinct(Stack(log))
  {
    if log != [] {
      StackDistinct(log[..|log| - 1]);
      DropDistinct(Stack(log[..|log| - 1]), log[|log| - 1]);
      assert log[|log| - 1] !in Drop(Stack(log[..|log| - 1]), log[|log| - 1]);
    }
  }

  lemma {:induction false} DropDistinct<K(!new)>(s: seq<K>, k: K)
    requires Distinct(s)
    ensures Distinct(Drop(s, k))
  {
    if s != [] {
      DropDistinct(s[1..], k);
      assert s[0] !in s[1..];
    }
  }

  lemma {:induction false} DropAbsent<K(!new)>(s: seq<K>, k: K)
    requires k !in s
    ensures Drop(s, k) == s
  {
    if s != [] {
      DropAbsent(s[1..], k);
    }
  }

  lemma {:induction false} DropAt<K(!new)>(s: seq<K>, i: nat)
    requires i < |s| && Distinct(s)
    ensures Drop(s, s[i]) == s[..i] + s[i + 1..]
  {
    if i == 0 {
      DropAbsent(s[1..], s[0]);
    } else {
      DropAt(s[1..], i - 1);
      assert s[1..][i - 1] == s[i];
      assert s[..i] + s[i + 1..] == [s[0]] + (s[1..][..i - 1] + s[1..][i..]);
    }
  }

  lemma {:induction false} KeysWithout<K(!new), V>(s: seq<Entry<K, V>>, k: K)
    ensures Keys(Without(s, k)) == Drop(Keys(s), k)
  {
    if s == [] {
    } else {
      KeysWithout(s[1..], k);
      assert Keys(s) == [s[0].key] + Keys(s[1..]);
      if s[0].key != k {
        assert Without(s, k) == [s[0]] + Without(s[1..], k);
        assert Keys(Without(s, k)) == [s[0].key] + Keys(Without(s[1..], k));
      }
    }
  }

  /** Touching a key of the first n moves it to the front within the first n. */
  lemma TouchWithin<K(!new)>(s: seq<K>, n: nat, k: K)
    requires Distinct(s) && k in Take(s, n)
    ensures [k] + Drop(Take(s, n), k) == Take([k] + Drop(s, k), n)
  {
    var t := Take(s, n);
    var i :| 0 <= i < |t| && t[i] == k;
    DropAt(s, i);
    DropAt(t, i);
    assert s[i] == k;
    if n < |s| {
      var l, r := [k] + (t[..i] + t[i + 1..]), [k] + (s[..i] + s[i + 1..]);
      forall j | 0 <= j < n ensures l[j] == r[j] {
        if i < j {
          assert l[j] == t[j] && r[j] == s[j];
        }
      }
      assert l == r[..n];
    }
  }

  /** Touching any other key pushes the last of the first n out. */
  lemma TouchOutside<K(!new)>(s: seq<K>, n: nat, k: K)
    requires Distinct(s) && k !in Take(s, n)
    ensures Take([k] + Drop(s, k), n) ==
            if |Take(s, n)| < n then [k] + Take(s, n) else DropLast([k] + Take(s, n))
  {
    hide Distinct, Drop;
    if k in s {
      var i :| 0 <= i < |s| && s[i] == k;
      assert forall j :: 0 <= j < |Take(s, n)| ==> s[j] == Take(s, n)[j];
      assert i >= n;
      DropAt(s, i);
      assert ([k] + (s[..i] + s[i + 1..]))[..n] == if n == 0 then [] else [k] + s[..n - 1];
    } else {
      DropAbsent(s, k);
    }
  }

  /** At every moment the cache holds the top of the stack, in stack order. */
  lemma {:induction false} CacheIsTopOfStack<K(!new), V>(maxSize: int, ops: seq<Op<K, V>>)
    ensures Keys(Run(maxSize, ops)) == Take(Stack(TouchLog(maxSize, ops)), Capacity(maxSize))
  {
    if ops != [] {
      var before, op := ops[..|ops| - 1], ops[|ops| - 1];
      CacheIsTopOfStack(maxSize, before);
      StepOnTop(Run(maxSize, before), maxSize, op, TouchLog(maxSize, before));
    }
  }

  lemma StepOnTop<K(!new), V>(s: seq<Entry<K, V>>, maxSize: int, op: Op<K, V>, log: seq<K>)
    requires Keys(s) == Take(Stack(log), Capacity(maxSize))
    ensures Keys(Step(s, maxSize, op)) ==
            Take(Stack(log + if Touches(s, op) then [op.key] else []), Capacity(maxSize))
  {
    var n, k := Capacity(maxSize), op.key;
    if Touches(s, op) {
      StackDistinct(log);
      assert (log + [k])[..|log|] == log;
      KeysAfterTouch(s, maxSize, op);
      if Lookup(s, k).Some? {
        TouchWithin(Stack(log), n, k);
      } else {
        TouchOutside(Stack(log), n, k);
      }
    } else {
      assert log + [] == log;
    }
  }

  lemma KeysAfterTouch<K(!new), V>(s: seq<Entry<K, V>>, maxSize: int, op: Op<K, V>)
    requires Touches(s, op)
    ensures Lookup(s, op.key).Some? ==> Keys(Step(s, maxSize, op)) == [op.key] + Drop(Keys(s), op.key)
    ensures Lookup(s, op.key).None? ==> Keys(Step(s, maxSize, op)) == Trim([op.key] + Keys(s), maxSize)
  {
    KeysWithout(s, op.key);
    match op {
      case GetOp(k) =>
        KeysCons(Entry(k, Lookup(s, k).value), Without(s, k));
      case PutOp(k, v) =>
        KeysCons(Entry(k, v), Without(s, k));
        if Lookup(s, k).None? {
          DropAbsent(Keys(s), k);
          KeysTrim([Entry(k, v)] + Without(s, k), maxSize);
        }
    }
  }

  lemma KeysCons<K, V>(e: Entry<K, V>, s: seq<Entry<K, V>>)
    ensures Keys([e] + s) == [e.key] + Keys(s)
  {
  }

  lemma KeysTrim<K, V>(s: seq<Entry<K, V>>, maxSize: int)
    ensures Keys(Trim(s, maxSize)) == Trim(Keys(s), maxSize)
  {
  }

  /** The stack position of a key counts the distinct keys touched after it. */
  lemma {:induction false} StackPosition<K(!new)>(log: seq<K>, k: K)
    requires k in log
    ensures IsAbove(OthersSince(log, k), Stack(log), k)
  {
    var x, l := log[|log| - 1], log[..|log| - 1];
    assert log == l + [x];
    if x != k {
      StackPosition(l, k);
      StackDistinct(l);
      PushAbove(OthersSince(l, k), Stack(l), k, x);
    }
  }

  /** The keys above k in the stack s are exactly others. */
  ghost predicate IsAbove<K>(others: set<K>, s: seq<K>, k: K) {
    && |others| < |s|
    && s[|others|] == k
    && (forall x :: x in others ==> x in s[..|others|])
    && (forall i :: 0 <= i < |others| ==> s[i] in others)
  }

  lemma PushAbove<K(!new)>(others: set<K>, s: seq<K>, k: K, x: K)
    requires Distinct(s) && IsAbove(others, s, k) && x != k
    ensures IsAbove({x} + others, [x] + Drop(s, x), k)
  {
    if x in others {
      PushFromAbove(others, s, k, x);
    } else {
      PushFromBelow(others, s, k, x);
    }
  }

  lemma PushFromAbove<K(!new)>(others: set<K>, s: seq<K>, k: K, x: K)
    requires Distinct(s) && IsAbove(others, s, k) && x in others
    ensures IsAbove({x} + others, [x] + Drop(s, x), k)
  {
    hide Distinct, Drop;
    var i := |others|;
    var j :| 0 <= j < i && s[..i][j] == x;
    DropAt(s, j);
    assert s[j] == x;
    var t := [s[j]] + (s[..j] + s[j + 1..]);
    RotationKeepsPrefix(s, j, i);
    assert {x} + others == others;
    forall l | 0 <= l < i ensures t[l] in others {
      assert t[..i][l] == t[l];
    }
  }

  /** Moving an element of a prefix to the front keeps the prefix's elements. */
  lemma RotationKeepsPrefix<T>(s: seq<T>, j: nat, i: nat)
    requires j < i < |s|
    ensures var t := [s[j]] + (s[..j] + s[j + 1..]);
            t[i] == s[i] && forall y :: y in s[..i] <==> y in t[..i]
  {
    var t := [s[j]] + (s[..j] + s[j + 1..]);
    assert s[..i] == s[..j] + [s[j]] + s[j + 1..i];
    assert t[..i] == [s[j]] + s[..j] + s[j + 1..i];
  }

  lemma PushFromBelow<K(!new)>(others: set<K>, s: seq<K>, k: K, x: K)
    requires Distinct(s) && IsAbove(others, s, k) && x != k && x !in others
    ensures IsAbove({x} + others, [x] + Drop(s, x), k)
  {
    hide Distinct, Drop;
    var i, d := |others|, Drop(s, x);
    DropKeepsPrefix(s, x, i);
    assert |{x} + others| == i + 1;
    var t := [x] + d;
    assert t[i + 1] == d[i] == s[i];
    forall l | 0 <= l < i + 1 ensures t[l] in {x} + others {
      if l > 0 {
        assert t[l] == d[l - 1] == s[l - 1];
      }
    }
    forall y | y in {x} + others ensures y in t[..i + 1] {
      if y == x {
        assert t[..i + 1][0] == x;
      } else {
        var m :| 0 <= m < i && s[..i][m] == y;
        assert t[..i + 1][m + 1] == d[m] == s[m];
      }
    }
  }

  /** Dropping an element that comes after index i leaves the elements up to i in place. */
  lemma DropKeepsPrefix<K(!new)>(s: seq<K>, x: K, i: nat)
    requires Distinct(s) && i < |s| && forall l :: 0 <= l <= i ==> s[l] != x
    ensures i < |Drop(s, x)| && forall l :: 0 <= l <= i ==> Drop(s, x)[l] == s[l]
  {
    if x in s {
      var j :| 0 <= j < |s| && s[j] == x;
      DropAt(s, j);
    } else {
      DropAbsent(s, x);
    }
  }

  /** A key has been touched exactly if it has been stored. */
  lemma {:induction false} TouchedMeansStored<K(!new), V>(maxSize: int, ops: seq<Op<K, V>>, k: K)
    ensures k in TouchLog(maxSize, ops) <==> LastPut(ops, k).Some?
  {
    if ops != [] {
      var before, op := ops[..|ops| - 1], ops[|ops| - 1];
      TouchedMeansStored(maxSize, before, k);
      if op.GetOp? && op.key == k && Touches(Run(maxSize, before), op) {
        CacheIsTopOfStack(maxSize, before);
        assert k in Stack(TouchLog(maxSize, before));
      }
    }
  }

  /** A cached value is the one stored last. */
  lemma {:induction false} CachedIsLastPut<K(!new), V>(maxSize: int, ops: seq<Op<K, V>>, k: K)
    ensures Lookup(Run(maxSize, ops), k).Some? ==> Lookup(Run(maxSize, ops), k) == LastPut(ops, k)
  {
    if ops != [] {
      var before, op := ops[..|ops| - 1], ops[|ops| - 1];
      var s := Run(maxSize, before);
      CachedIsLastPut(maxSize, before, k);
      if k != op.key {
        LookupWithout(s, op.key, k);
      }
      if op.PutOp? {
        var s' := [Entry(op.key, op.value)] + Without(s, op.key);
        assert s'[1..] == Without(s, op.key);
        LookupDropLast(s', k);
      } else if Lookup(s, op.key).Some? {
        var s' := Step(s, maxSize, op);
        assert s'[1..] == Without(s, op.key);
      }
    }
  }

  lemma {:induction false} LookupWithout<K(!new), V>(s: seq<Entry<K, V>>, x: K, k: K)
    requires k != x
    ensures Lookup(Without(s, x), k) == Lookup(s, k)
  {
    if s != [] {
      LookupWithout(s[1..], x, k);
      assert s[0].key != x ==> Without(s, x)[1..] == Without(s[1..], x);
    }
  }

  lemma {:induction false} LookupDropLast<K(!new), V>(s: seq<Entry<K, V>>, k: K)
    ensures Lookup(DropLast(s), k).Some? ==> Lookup(DropLast(s), k) == Lookup(s, k)
  {
    if |s| > 1 {
      LookupDropLast(s[1..], k);
      assert DropLast(s)[1..] == DropLast(s[1..]);
    }
  }

  /** The stack theorem. */
  lemma StackTheorem<K(!new), V>(maxSize: int, ops: seq<Op<K, V>>, k: K)
    ensures Lookup(Run(maxSize, ops), k) ==
            if |OthersSince(TouchLog(maxSize, ops), k)| < maxSize then LastPut(ops, k) else None
  {
    var log, n := TouchLog(maxSize, ops), Capacity(maxSize);
    CacheIsTopOfStack(maxSize, ops);
    TouchedMeansStored(maxSize, ops, k);
    CachedIsLastPut(maxSize, ops, k);
    if k in log {
      StackPosition(log, k);
      StackDistinct(log);
      var others, s := OthersSince(log, k), Stack(log);
      assert |others| < n ==> Take(s, n)[|others|] == k;
      assert forall j :: 0 <= j < |Take(s, n)| && Take(s, n)[j] == k ==> j == |others|;
    } else {
      assert k !in Take(Stack(log), n);
    }
  }
}
