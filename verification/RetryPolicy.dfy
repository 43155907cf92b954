/** The retry policies: whether to try again after attempt number attempt (counted
    from 1), and after what delay. */
module RetryPolicy {
  datatype FailureType =
    | Unknown | Network | Authentication | DiskSpace | RepositoryAccess | NatsMessaging
    | CircuitBreakerFailure | Timeout | RateLimit

  datatype Config = Config(
    maxAttempts: int, baseDelay: int, maxDelay: int, multiplier: real, jitterEnabled: bool, jitterMaxPercent: int)

  const ZERO_CONFIG := Config(0, 0, 0, 0.0, false, 0)

  datatype Verdict = Stop | Retry(delay: int)

  datatype Policy =
    | Exponential(config: Config)
    | Linear(config: Config)
    | Fixed(config: Config)
    | PerFailureType(configs: map<FailureType, Config>)
    | Tabled(config: Config, table: seq<int>)

  function Pow(m: real, n: nat): real {
    if n == 0 then 1.0 else m * Pow(m, n - 1)
  }

  /** Conversion to a duration truncates toward zero. */
  function Truncate(x: real): int {
    if x >= 0.0 then x.Floor else -((-x).Floor)
  }

  function Capped(maxDelay: int, delay: int): int {
    if maxDelay > 0 && delay > maxDelay then maxDelay else delay
  }

  /** draw is the random number in [0, 1) used if jitter is on. */
  function Jittered(c: Config, delay: int, draw: real): int {
    if c.jitterEnabled
    then delay + Truncate(draw * (delay as real * (c.jitterMaxPercent as real / 100.0)))
    else delay
  }

  function Scale(delay: int, factor: real): int {
    Truncate(delay as real * factor)
  }

  /** A lookup outside the table yields no delay. */
  function TableDelay(table: seq<int>, attempt: int): int {
    if attempt < 1 || attempt > |table| then 0 else table[attempt - 1]
  }

  function ConfigFor(configs: map<FailureType, Config>, t: FailureType): Config {
    if t in configs then configs[t]
    else if Unknown in configs then configs[Unknown]
    else ZERO_CONFIG
  }

  function ShouldRetry(p: Policy, cancelled: bool, t: FailureType, attempt: int, draw: real): Verdict
    requires attempt >= 1
  {
    if cancelled then Stop
    else
      var c := if p.PerFailureType? then ConfigFor(p.configs, t) else p.config;
      if attempt >= c.maxAttempts then Stop
      else
        match p
        case Exponential(_) =>
          Retry(Jittered(c, Capped(c.maxDelay, Scale(c.baseDelay, Pow(c.multiplier, attempt - 1))), draw))
        case Linear(_) => Retry(Capped(c.maxDelay, c.baseDelay * attempt))
        case Fixed(_) => Retry(c.baseDelay)
        case PerFailureType(_) =>
          var delay := if c.multiplier > 0.0 then Scale(c.baseDelay, Pow(c.multiplier, attempt - 1)) else c.baseDelay;
          Retry(Jittered(c, Capped(c.maxDelay, delay), draw))
        case Tabled(_, table) => Retry(Jittered(c, TableDelay(table, attempt), draw))
  }

  /** m is what GetMaxAttempts reports for p. */
  ghost predicate IsMaxAttempts(p: Policy, m: int) {
    if p.PerFailureType? then
      && m >= 0
      && (forall t :: t in p.configs ==> p.configs[t].maxAttempts <= m)
      && (m == 0 || exists t :: t in p.configs && p.configs[t].maxAttempts == m)
    else m == p.config.maxAttempts
  }

  method GetMaxAttempts(p: Policy) returns (m: int)
    ensures IsMaxAttempts(p, m)
  {
    if !p.PerFailureType? {
      return p.config.maxAttempts;
    }
    m := 0;
    var rest := p.configs.Keys;
    while rest != {}
      invariant rest <= p.configs.Keys && m >= 0
      invariant forall t :: t in p.configs.Keys - rest ==> p.configs[t].maxAttempts <= m
      invariant m == 0 || exists t :: t in p.configs && p.configs[t].maxAttempts == m
      decreases |rest|
    {
      var t :| t in rest;
      if p.configs[t].maxAttempts > m {
        m := p.configs[t].maxAttempts;
      }
      rest := rest - {t};
    }
  }

  /** A policy that answers Retry has attempts left by its own count. */
  lemma RetryMeansAttemptsLeft(p: Policy, m: int, cancelled: bool, t: FailureType, attempt: int, draw: real)
    requires IsMaxAttempts(p, m) && attempt >= 1
    requires ShouldRetry(p, cancelled, t, attempt, draw).Retry?
    ensures attempt < m && !cancelled
  {
    if p.PerFailureType? {
      var c := ConfigFor(p.configs, t);
      assert c != ZERO_CONFIG ==> exists u :: u in p.configs && p.configs[u] == c;
    }
  }

  /** The configuration that decides about this failure type allows an attempt after
      number n: for a per-type policy that type's own, else the one for unknown types. */
  predicate AttemptsLeft(p: Policy, t: FailureType, n: int) {
    if !p.PerFailureType? then n < p.config.maxAttempts
    else if t in p.configs then n < p.configs[t].maxAttempts
    else Unknown in p.configs && n < p.configs[Unknown].maxAttempts
  }

  /** Every policy says yes exactly if the context is live and attempts are left. */
  lemma RetriesExactlyIf(p: Policy, cancelled: bool, t: FailureType, n: int, draw: real)
    requires n >= 1
    ensures ShouldRetry(p, cancelled, t, n, draw).Retry? <==> !cancelled && AttemptsLeft(p, t, n)
  {
  }

  // ----- the delays -----

  /** d is x without its fraction. */
  predicate Truncates(d: int, x: real) {
    if x >= 0.0 then d as real <= x < d as real + 1.0 else d as real - 1.0 < x <= d as real
  }

  /** Each term is the one before times the factor. */
  ghost predicate Geometric(xs: seq<real>, first: real, factor: real) {
    && (xs != [] ==> xs[0] == first)
    && forall i :: 0 < i < |xs| ==> xs[i] == xs[i - 1] * factor
  }

  /** d is x truncated, or the limit if that is positive and less. */
  ghost predicate LimitedTo(d: int, x: real, limit: int) {
    exists raw: int :: Truncates(raw, x) && d == if 0 < limit < raw then limit else raw
  }

  /** The jitter adds its share, truncated, of a percentage of the delay. */
  predicate Jitters(c: Config, d: int, total: int, draw: real) {
    if c.jitterEnabled then Truncates(total - d, draw * (d as real * (c.jitterMaxPercent as real / 100.0)))
    else total == d
  }

  /** The exponential policy waits the base delay after the first attempt and multiplies
      from attempt to attempt; what is waited is that, truncated and limited, and the
      jitter. */
  lemma ExponentialDelay(c: Config, t: FailureType, xs: seq<real>, attempt: nat, draw: real)
    requires 1 <= attempt < c.maxAttempts && attempt <= |xs| && Geometric(xs, c.baseDelay as real, c.multiplier)
    ensures exists d :: LimitedTo(d, xs[attempt - 1], c.maxDelay)
                        && Jitters(c, d, ShouldRetry(Exponential(c), false, t, attempt, draw).delay, draw)
  {
    hide Truncate, Pow, Truncates, Geometric, Jitters, Jittered, Scale;
    var x := xs[attempt - 1];
    TermIs(xs, c.baseDelay, c.multiplier, attempt - 1);
    ScaleTruncates(c.baseDelay, Pow(c.multiplier, attempt - 1), x);
    TruncateTruncates(x);
    var d := Capped(c.maxDelay, Truncate(x));
    assert LimitedTo(d, x, c.maxDelay);
    JitterJitters(c, d, draw);
    assert ShouldRetry(Exponential(c), false, t, attempt, draw) == Retry(Jittered(c, d, draw));
  }

  lemma ScaleTruncates(delay: int, factor: real, x: real)
    requires x == delay as real * factor
    ensures Scale(delay, factor) == Truncate(x)
  {
  }

  lemma JitterJitters(c: Config, d: int, draw: real)
    ensures Jitters(c, d, Jittered(c, d, draw), draw)
  {
    var share := draw * (d as real * (c.jitterMaxPercent as real / 100.0));
    TruncateTruncates(share);
    assert c.jitterEnabled ==> Jittered(c, d, draw) - d == Truncate(share);
  }

  lemma {:induction false} TermIs(xs: seq<real>, first: int, factor: real, i: nat)
    requires i < |xs| && Geometric(xs, first as real, factor)
    ensures xs[i] == first as real * Pow(factor, i)
  {
    if i > 0 {
      TermIs(xs, first, factor, i - 1);
    }
  }

  lemma TruncateTruncates(x: real)
    ensures Truncates(Truncate(x), x)
  {
  }

  /** The per-type policy waits like the exponential one of the deciding configuration,
      with a constant delay if there is no positive multiplier. */
  lemma PerTypeDelay(configs: map<FailureType, Config>, t: FailureType, attempt: int, draw: real)
    requires attempt >= 1 && AttemptsLeft(PerFailureType(configs), t, attempt)
    ensures var c := configs[if t in configs then t else Unknown];
            ShouldRetry(PerFailureType(configs), false, t, attempt, draw) ==
            ShouldRetry(Exponential(if c.multiplier > 0.0 then c else c.(multiplier := 1.0)), false, t, attempt, draw)
  {
    hide Pow, Truncate, Scale, Capped, Jittered;
    var c := configs[if t in configs then t else Unknown];
    PowOfOne(attempt - 1);
    ScaleByOne(c.baseDelay);
    JitterUnscaled(c, Capped(c.maxDelay, c.baseDelay), draw);
  }

  lemma JitterUnscaled(c: Config, d: int, draw: real)
    ensures Jittered(c.(multiplier := 1.0), d, draw) == Jittered(c, d, draw)
  {
  }

  lemma ScaleByOne(delay: int)
    ensures Scale(delay, 1.0) == delay
  {
  }

  lemma {:induction false} PowOfOne(n: nat)
    ensures Pow(1.0, n) == 1.0
  {
    if n > 0 {
      PowOfOne(n - 1);
    }
  }

  /** The linear policy adds the base delay from attempt to attempt, up to the limit; the
      fixed one always waits the base delay. */
  lemma LinearAndFixedDelays(c: Config, t: FailureType, attempt: int, draw: real)
    requires 1 <= attempt < c.maxAttempts
    ensures var d := ShouldRetry(Linear(c.(maxDelay := 0)), false, t, attempt, draw).delay;
            && (attempt == 1 ==> d == c.baseDelay)
            && (attempt > 1 ==>
                  d == ShouldRetry(Linear(c.(maxDelay := 0)), false, t, attempt - 1, draw).delay + c.baseDelay)
            && ShouldRetry(Linear(c), false, t, attempt, draw) == Retry(if 0 < c.maxDelay < d then c.maxDelay else d)
    ensures ShouldRetry(Fixed(c), false, t, attempt, draw) == Retry(c.baseDelay)
  {
    assert c.baseDelay * attempt == c.baseDelay * (attempt - 1) + c.baseDelay;
  }

  // ----- the adaptive policy -----

  /** The per-failure-type policy built when adaptive behaviour is switched on. */
  function AdaptivePolicy(c: Config, openTimeout: int): Policy {
    PerFailureType(map[
      Network := c,
      Authentication := c,
      DiskSpace := Config(1, 0, 0, 0.0, false, 0),
      RepositoryAccess := c,
      NatsMessaging := c,
      CircuitBreakerFailure := Config(5, openTimeout, openTimeout, 1.0, false, 0),
      Timeout := c,
      RateLimit := c,
      Unknown := c])
  }

  /** The adaptive policy allows five attempts even if the configuration asks for
      fewer, and gives up at once on a full disk. */
  lemma AdaptiveAttempts(c: Config, openTimeout: int, m: int)
    ensures IsMaxAttempts(AdaptivePolicy(c, openTimeout), m) <==> m == if c.maxAttempts > 5 then c.maxAttempts else 5
    ensures forall cancelled, attempt, draw :: attempt >= 1 ==>
              ShouldRetry(AdaptivePolicy(c, openTimeout), cancelled, DiskSpace, attempt, draw) == Stop
  {
    var configs := AdaptivePolicy(c, openTimeout).configs;
    assert configs[Network] == c && configs[CircuitBreakerFailure].maxAttempts == 5;
    assert configs[DiskSpace].maxAttempts == 1;
    assert forall t :: t in configs ==> configs[t] == c || t == DiskSpace || t == CircuitBreakerFailure;
  }

  /** What it allows by failure type: one attempt on a full disk, five against a breaker,
      and what is configured for all others. */
  lemma AdaptiveAttemptsLeft(c: Config, openTimeout: int, t: FailureType, n: int)
    ensures AttemptsLeft(AdaptivePolicy(c, openTimeout), t, n) <==>
            n < match t case DiskSpace => 1 case CircuitBreakerFailure => 5 case _ => c.maxAttempts
  {
  }

  /** And how long it waits: the breaker's timeout after a rejection, and like the
      exponential policy, or a constant one, after all others. */
  lemma AdaptiveDelays(c: Config, openTimeout: int, t: FailureType, n: int, draw: real)
    requires n >= 1 && AttemptsLeft(AdaptivePolicy(c, openTimeout), t, n)
    ensures ShouldRetry(AdaptivePolicy(c, openTimeout), false, t, n, draw) ==
            if t == CircuitBreakerFailure then Retry(openTimeout)
            else ShouldRetry(Exponential(if c.multiplier > 0.0 then c else c.(multiplier := 1.0)), false, t, n, draw)
  {
    var configs := AdaptivePolicy(c, openTimeout).configs;
    AdaptiveAttemptsLeft(c, openTimeout, t, n);
    PerTypeDelay(configs, t, n, draw);
    PowOfOne(n - 1);
    ScaleByOne(openTimeout);
  }
}
