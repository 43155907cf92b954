/** The resource cleanup manager's metrics: a truncating running average per type. */
module CleanupMetrics {
  datatype TypeMetrics = TypeMetrics(
    count: int, successCount: int, failureCount: int, averageCleanupTime: int, maxCleanupTime: int)

  const NO_METRICS := TypeMetrics(0, 0, 0, 0, 0)

  /** One finished cleanup; time.Since never yields a negative duration. */
  datatype Cleanup = Cleanup(success: bool, duration: nat)

  function Record(m: TypeMetrics, c: Cleanup): TypeMetrics
    requires m.count >= 0
  {
    var count := m.count + 1;
    TypeMetrics(
      count,
      m.successCount + (if c.success then 1 else 0),
      m.failureCount + (if c.success then 0 else 1),
      (m.averageCleanupTime * (count - 1) + c.duration) / count,
      if c.duration > m.maxCleanupTime then c.duration else m.maxCleanupTime)
  }

  function RecordAll(cs: seq<Cleanup>): (m: TypeMetrics)
    ensures m.count == |cs|
  {
    if cs == [] then NO_METRICS else Record(RecordAll(cs[..|cs| - 1]), cs[|cs| - 1])
  }

  function TotalTime(cs: seq<Cleanup>): nat {
    if cs == [] then 0 else TotalTime(cs[..|cs| - 1]) + cs[|cs| - 1].duration
  }

  function Successes(cs: seq<Cleanup>): nat {
    if cs == [] then 0 else Successes(cs[..|cs| - 1]) + (if cs[|cs| - 1].success then 1 else 0)
  }

  method WithCleanup(was: TypeMetrics, success: bool, duration: nat) returns (m: TypeMetrics)
    requires was.count >= 0
    ensures m == Record(was, Cleanup(success, duration))
  {
    m := was.(count := was.count + 1);
    if success {
      m := m.(successCount := m.successCount + 1);
    } else {
      m := m.(failureCount := m.failureCount + 1);
    }
    var totalTime := m.averageCleanupTime * (m.count - 1) + duration;
    m := m.(averageCleanupTime := totalTime / m.count);
    if duration > m.maxCleanupTime {
      m := m.(maxCleanupTime := duration);
    }
  }

  class ResourceTypeMetrics<ResourceType(==)> {
    var metrics: map<ResourceType, TypeMetrics>
    /** All cleanups recorded so far, by type. */
    ghost var recorded: map<ResourceType, seq<Cleanup>>

    ghost function Recorded(t: ResourceType): seq<Cleanup>
      reads this
    {
      if t in recorded then recorded[t] else []
    }

    ghost predicate Valid()
      reads this
    {
      && metrics.Keys == recorded.Keys
      && (forall t :: t in metrics ==> metrics[t] == RecordAll(recorded[t]))
    }

    constructor ()
      ensures Valid() && metrics == map[]
    {
      metrics, recorded := map[], map[];
    }

    method UpdateTypeMetrics(t: ResourceType, success: bool, duration: nat)
      requires Valid()
      modifies this
      ensures Valid()
      ensures recorded == old(recorded)[t := old(Recorded(t)) + [Cleanup(success, duration)]]
    {
      var m := NO_METRICS;
      if t in metrics {
        m := metrics[t];
      }
      ghost var cs := Recorded(t);
      assert (cs + [Cleanup(success, duration)])[..|cs|] == cs;
      m := WithCleanup(m, success, duration);
      metrics := metrics[t := m];
      recorded := recorded[t := cs + [Cleanup(success, duration)]];
    }
  }

  /** The time lost to truncation after n cleanups is at most n (n - 1) / 2, and the
      average never exceeds the maximum. */
  lemma {:induction false} AverageDrift(cs: seq<Cleanup>)
    ensures var m, n := RecordAll(cs), |cs|;
            && 0 <= 2 * (TotalTime(cs) - n * m.averageCleanupTime) <= n * (n - 1)
            && 0 <= m.averageCleanupTime <= m.maxCleanupTime
            && m.successCount == Successes(cs) && m.successCount + m.failureCount == n
  {
    if cs != [] {
      var before, c, n := cs[..|cs| - 1], cs[|cs| - 1], |cs|;
      AverageDrift(before);
      var m, m' := RecordAll(before), RecordAll(cs);
      MeanBelowMax(m.averageCleanupTime, m'.maxCleanupTime, c.duration, n);
      DriftStep(TotalTime(before), m.averageCleanupTime, c.duration, n);
    }
  }

  /** One truncation loses less than n. */
  lemma DriftStep(total: int, average: int, d: nat, n: int)
    requires n > 0 && 0 <= 2 * (total - (n - 1) * average) <= (n - 1) * (n - 2)
    ensures var a := (average * (n - 1) + d) / n; 0 <= 2 * (total + d - n * a) <= n * (n - 1)
  {
    DivideTruncates(average * (n - 1) + d, n);
    assert average * (n - 1) == (n - 1) * average;
    assert n * (n - 1) == (n - 1) * (n - 2) + 2 * (n - 1);
  }

  /** The maximum is the longest duration recorded, zero if there is none. */
  lemma {:induction false} MaximumIsLongest(cs: seq<Cleanup>)
    ensures forall c :: c in cs ==> c.duration <= RecordAll(cs).maxCleanupTime
    ensures RecordAll(cs).maxCleanupTime == 0 || exists c :: c in cs && c.duration == RecordAll(cs).maxCleanupTime
  {
    if cs != [] {
      var before, c := cs[..|cs| - 1], cs[|cs| - 1];
      MaximumIsLongest(before);
      assert cs == before + [c];
      assert c in cs;
    }
  }

  lemma DivideTruncates(total: int, n: int)
    requires n > 0
    ensures 0 <= total - n * (total / n) <= n - 1
  {
  }

  lemma Scaled(n: nat, x: int, y: int)
    ensures x <= y ==> n * x <= n * y
  {
  }

  lemma QuotientWithin(total: int, n: int, max: int)
    requires n > 0 && 0 <= total <= n * max
    ensures 0 <= total / n <= max
  {
    DivideTruncates(total, n);
    Scaled(n, max + 1, total / n);
    Scaled(n, total / n, -1);
  }

  lemma MeanBelowMax(average: int, max: int, d: nat, n: int)
    requires 0 <= average <= max && d <= max && n > 0
    ensures 0 <= (average * (n - 1) + d) / n <= max
  {
    Scaled(n - 1, average, max);
    Scaled(n - 1, 0, average);
    assert (n - 1) * max + max == n * max;
    assert (n - 1) * average == average * (n - 1);
    QuotientWithin(average * (n - 1) + d, n, max);
  }

  /** The bound is reached: for every n there is a run that loses all of it. */
  lemma {:induction false} DriftIsReached(n: nat) returns (cs: seq<Cleanup>)
    ensures |cs| == n
    ensures 2 * (TotalTime(cs) - n * RecordAll(cs).averageCleanupTime) == n * (n - 1)
  {
    if n == 0 {
      cs := [];
    } else {
      var before := DriftIsReached(n - 1);
      AverageDrift(before);
      var a := RecordAll(before).averageCleanupTime;
      // a duration that leaves the largest remainder
      cs := before + [Cleanup(true, a + n - 1)];
      assert cs[..n - 1] == before;
      LargestRemainder(a, n);
      GrowDrift(TotalTime(before), a, n);
    }
  }

  lemma GrowDrift(total: int, a: int, n: int)
    requires 2 * (total - (n - 1) * a) == (n - 1) * (n - 2)
    ensures 2 * (total + (a + n - 1) - n * a) == n * (n - 1)
  {
    assert n * a == (n - 1) * a + a;
    assert n * (n - 1) == (n - 1) * (n - 2) + 2 * (n - 1);
  }

  lemma LargestRemainder(a: nat, n: nat)
    requires n > 0
    ensures (a * (n - 1) + (a + n - 1)) / n == a
  {
    var total := a * (n - 1) + (a + n - 1);
    assert total == n * a + (n - 1);
    DivideTruncates(total, n);
    Scaled(n, total / n, a - 1);
    Scaled(n, a + 1, total / n);
  }
}
