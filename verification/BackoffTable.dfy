/** Precomputed backoff tables: how they are filled and cached, and that looking a
    delay up gives what the direct policies compute. */
module BackoffTable {
  import opened RetryPolicy

  datatype Key = Key(baseDelay: int, maxDelay: int, multiplier: real, maxAttempts: int)

  function KeyOf(c: Config): Key {
    Key(c.baseDelay, c.maxDelay, c.multiplier, c.maxAttempts)
  }

  /** Entry i of the table for a key: the delay after attempt i + 1. */
  function EntryOf(key: Key, i: nat): int {
    Capped(key.maxDelay,
           if key.multiplier > 0.0 then Scale(key.baseDelay, Pow(key.multiplier, i))
           else key.baseDelay * (i + 1))
  }

  ghost predicate IsTable(key: Key, table: seq<int>) {
    && |table| == key.maxAttempts
    && (forall i :: 0 <= i < |table| ==> table[i] == EntryOf(key, i))
  }

  method Power(m: real, n: nat) returns (p: real)
    ensures p == Pow(m, n)
  {
    p := 1.0;
    for i := 0 to n
      invariant p == Pow(m, i)
    {
      p := m * p;
    }
  }

  /** A negative number of attempts makes the allocation fail in the program. */
  method CreateTable(key: Key) returns (table: seq<int>)
    requires key.maxAttempts >= 0
    ensures IsTable(key, table)
  {
    var delays := new int[key.maxAttempts];
    for attempt := 0 to key.maxAttempts
      invariant forall i :: 0 <= i < attempt ==> delays[i] == EntryOf(key, i)
    {
      var delay;
      if key.multiplier > 0.0 {
        var p := Power(key.multiplier, attempt);
        delay := Scale(key.baseDelay, p);
      } else if attempt == 0 {
        delay := key.baseDelay;
      } else {
        delay := key.baseDelay * (attempt + 1);
      }
      if key.maxDelay > 0 && delay > key.maxDelay {
        delay := key.maxDelay;
      }
      delays[attempt] := delay;
    }
    table := delays[..];
  }

  class BackoffTableCache {
    var cache: map<Key, seq<int>>

    ghost predicate Valid()
      reads this
    {
      forall k :: k in cache ==> IsTable(k, cache[k])
    }

    constructor ()
      ensures Valid() && cache == map[]
    {
      cache := map[];
    }

    /** Whatever was asked for before, the answer is the table of this key. */
    method GetTable(key: Key) returns (table: seq<int>)
      requires Valid() && key.maxAttempts >= 0
      modifies this
      ensures Valid() && IsTable(key, table)
      ensures cache == old(cache)[key := table]
      ensures key in old(cache) ==> cache == old(cache)
    {
      if key in cache {
        return cache[key];
      }
      table := CreateTable(key);
      cache := cache[key := table];
    }

    method Clear()
      modifies this
      ensures Valid() && cache == map[]
    {
      var rest := cache.Keys;
      while rest != {}
        invariant rest == cache.Keys
        decreases |rest|
      {
        var k :| k in rest;
        cache := cache - {k};
        rest := rest - {k};
      }
    }
  }

  /** Without a cache the policy makes one of its own. */
  method NewOptimizedPolicy(c: Config, cache: BackoffTableCache?) returns (p: Policy)
    requires (cache != null ==> cache.Valid()) && c.maxAttempts >= 0
    modifies if cache == null then {} else {cache}
    ensures p.Tabled? && p.config == c && IsTable(KeyOf(c), p.table)
    ensures cache != null ==> cache.Valid() && cache.cache == old(cache.cache)[KeyOf(c) := p.table]
  {
    var tables := cache;
    if tables == null {
      tables := new BackoffTableCache();
    }
    var table := tables.GetTable(KeyOf(c));
    p := Tabled(c, table);
  }

  /** With a positive multiplier the table policy is the exponential one, jitter included. */
  lemma AgreesWithExponential(c: Config, table: seq<int>, cancelled: bool, t: FailureType, attempt: int, draw: real)
    requires IsTable(KeyOf(c), table) && c.multiplier > 0.0 && attempt >= 1
    ensures ShouldRetry(Tabled(c, table), cancelled, t, attempt, draw)
            == ShouldRetry(Exponential(c), cancelled, t, attempt, draw)
  {
    if attempt < c.maxAttempts {
      LookupScaled(c, table, attempt);
    }
  }

  lemma LookupScaled(c: Config, table: seq<int>, attempt: int)
    requires IsTable(KeyOf(c), table) && c.multiplier > 0.0 && 1 <= attempt < c.maxAttempts
    ensures TableDelay(table, attempt) == Capped(c.maxDelay, Scale(c.baseDelay, Pow(c.multiplier, attempt - 1)))
  {
    assert table[attempt - 1] == EntryOf(KeyOf(c), attempt - 1);
  }

  /** Otherwise, without jitter, it is the linear one. */
  lemma AgreesWithLinear(c: Config, table: seq<int>, cancelled: bool, t: FailureType, attempt: int, draw: real)
    requires IsTable(KeyOf(c), table) && c.multiplier <= 0.0 && !c.jitterEnabled && attempt >= 1
    ensures ShouldRetry(Tabled(c, table), cancelled, t, attempt, draw)
            == ShouldRetry(Linear(c), cancelled, t, attempt, draw)
  {
    if attempt < c.maxAttempts {
      assert table[attempt - 1] == EntryOf(KeyOf(c), attempt - 1);
    }
  }

  /** Delays never shrink from one attempt to a later one, and stay within the limit. */
  lemma DelaysGrow(key: Key, i: nat, j: nat)
    requires i <= j && key.baseDelay >= 0
    requires key.multiplier >= 1.0 || key.multiplier <= 0.0
    ensures 0 <= EntryOf(key, i) <= EntryOf(key, j)
    ensures key.maxDelay > 0 ==> EntryOf(key, j) <= key.maxDelay
  {
    if key.multiplier > 0.0 {
      PowGrows(key.multiplier, i, j);
      ScaleOrder(key.baseDelay, Pow(key.multiplier, i), Pow(key.multiplier, j));
    } else {
      LinearOrder(key.baseDelay, i + 1, j + 1);
    }
  }

  lemma LinearOrder(b: int, x: int, y: int)
    requires b >= 0 && 0 <= x <= y
    ensures 0 <= b * x <= b * y
  {
  }

  lemma ScaleOrder(b: int, x: real, y: real)
    requires b >= 0 && 0.0 <= x <= y
    ensures 0 <= Scale(b, x) <= Scale(b, y)
  {
    assert b as real * y == b as real * x + b as real * (y - x);
  }

  lemma {:induction false} PowGrows(m: real, i: nat, j: nat)
    requires m >= 1.0 && i <= j
    ensures 1.0 <= Pow(m, i) <= Pow(m, j)
  {
    if j > 0 {
      if i == j {
        PowGrows(m, i - 1, j - 1);
      } else {
        PowGrows(m, i, j - 1);
      }
      assert Pow(m, j) == Pow(m, j - 1) + (m - 1.0) * Pow(m, j - 1);
    }
  }

  /** With a multiplier between 0 and 1 the delays never grow. */
  lemma {:induction false} DelaysNeverGrow(key: Key, i: nat)
    requires key.baseDelay >= 0 && 0.0 < key.multiplier <= 1.0
    ensures EntryOf(key, i + 1) <= EntryOf(key, i)
  {
    PowPositive(key.multiplier, i);
    assert Pow(key.multiplier, i) == Pow(key.multiplier, i + 1) + (1.0 - key.multiplier) * Pow(key.multiplier, i);
    ScaleOrder(key.baseDelay, Pow(key.multiplier, i + 1), Pow(key.multiplier, i));
  }

  lemma {:induction false} PowPositive(m: real, n: nat)
    requires m > 0.0
    ensures Pow(m, n) > 0.0 && Pow(m, n + 1) > 0.0
  {
    if n > 0 {
      PowPositive(m, n - 1);
    }
  }
}
