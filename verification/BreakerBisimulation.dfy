/** The two circuit breakers against each other, over sequential runs of calls. */
module BreakerBisimulation {
  import opened Common
  import L = LockedBreaker
  import A = AtomicBreaker
  import S = SequentialBreaker

  /** One call: the outcome of its function and the clock readings it takes. */
  datatype Call = Call(ok: bool, r: S.Readings)

  // The two breakers' reactions to a call: whether it is let through, and the new state.

  function LockedCall(c: L.Config, b: L.Breaker, k: Call): (bool, L.Breaker) {
    if L.Admits(c, b, k.r.check)
    then (true, L.Record(c, L.Probe(c, b, k.r.check), k.ok, k.r.change))
    else (false, L.Probe(c, b, k.r.check))
  }

  function AtomicCall(c: A.Settings, f: A.Fields, k: Call): (bool, A.Fields) {
    (S.Admits(c, f, k.r.check), S.Call(c, f, k.ok, k.r))
  }

  function LockedRun(c: L.Config, b: L.Breaker, ks: seq<Call>): (seq<bool>, L.Breaker)
    decreases |ks|
  {
    if ks == [] then ([], b)
    else
      var (a, b') := LockedCall(c, b, ks[0]);
      var (as', b'') := LockedRun(c, b', ks[1..]);
      ([a] + as', b'')
  }

  function AtomicRun(c: A.Settings, f: A.Fields, ks: seq<Call>): (seq<bool>, A.Fields)
    decreases |ks|
  {
    if ks == [] then ([], f)
    else
      var (a, f') := AtomicCall(c, f, ks[0]);
      var (as', f'') := AtomicRun(c, f', ks[1..]);
      ([a] + as', f'')
  }

  /** A call arrives exactly when the timeout of an open breaker ends. */
  predicate OnTheInstant(c: L.Config, b: L.Breaker, k: Call) {
    b.state == Open && k.r.check - b.lastFailure == c.openTimeout
  }

  predicate NeverOnTheInstant(c: L.Config, b: L.Breaker, ks: seq<Call>)
    decreases |ks|
  {
    ks == [] || (!OnTheInstant(c, b, ks[0]) && NeverOnTheInstant(c, LockedCall(c, b, ks[0]).1, ks[1..]))
  }

  predicate SameConfig(c: L.Config, s: A.Settings) {
    c.failureThreshold == s.failureThreshold && c.openTimeout == s.recoveryTimeout && c.successThreshold <= 1
  }

  predicate Agree(b: L.Breaker, f: A.Fields) {
    && b.state == f.state
    && b.failureCount == f.consecutiveFailures
    && (b.state == Open ==> b.lastFailure == f.lastStateChange)
    && b.successCount == 0
  }

  lemma CallAgrees(c: L.Config, s: A.Settings, b: L.Breaker, f: A.Fields, k: Call)
    requires SameConfig(c, s) && Agree(b, f)
    ensures LockedCall(c, b, k).0 == AtomicCall(s, f, k).0 <==> !OnTheInstant(c, b, k)
    ensures !OnTheInstant(c, b, k) ==> Agree(LockedCall(c, b, k).1, AtomicCall(s, f, k).1)
  {
  }

  /** From agreeing states the two let the same calls through if and only if no call
      lands on the instant the timeout ends; and then they agree again afterwards. */
  lemma {:induction false} Bisimulation(c: L.Config, s: A.Settings, b: L.Breaker, f: A.Fields, ks: seq<Call>)
    requires SameConfig(c, s) && Agree(b, f)
    ensures LockedRun(c, b, ks).0 == AtomicRun(s, f, ks).0 <==> NeverOnTheInstant(c, b, ks)
    ensures NeverOnTheInstant(c, b, ks) ==> Agree(LockedRun(c, b, ks).1, AtomicRun(s, f, ks).1)
    decreases |ks|
  {
    if ks != [] {
      CallAgrees(c, s, b, f, ks[0]);
      var l, a := LockedRun(c, b, ks).0, AtomicRun(s, f, ks).0;
      assert l[0] == LockedCall(c, b, ks[0]).0 && a[0] == AtomicCall(s, f, ks[0]).0;
      if !OnTheInstant(c, b, ks[0]) {
        Bisimulation(c, s, LockedCall(c, b, ks[0]).1, AtomicCall(s, f, ks[0]).1, ks[1..]);
        assert l[1..] == LockedRun(c, LockedCall(c, b, ks[0]).1, ks[1..]).0;
        assert a[1..] == AtomicRun(s, AtomicCall(s, f, ks[0]).1, ks[1..]).0;
      }
    }
  }

  /** Two fresh breakers, whatever the configuration they share and the run. */
  lemma FreshBreakersAgree(c: L.Config, s: A.Settings, born: int, ks: seq<Call>)
    requires SameConfig(c, s)
    ensures LockedRun(c, L.INITIAL, ks).0 == AtomicRun(s, A.NewFields(born), ks).0
            <==> NeverOnTheInstant(c, L.INITIAL, ks)
    ensures NeverOnTheInstant(c, L.INITIAL, ks) ==>
              LockedRun(c, L.INITIAL, ks).1.state == AtomicRun(s, A.NewFields(born), ks).1.state
  {
    Bisimulation(c, s, L.INITIAL, A.NewFields(born), ks);
  }

  // ----- higher success thresholds -----

  /** The clock never runs backwards along the run. */
  predicate InTime(ks: seq<Call>, from: int)
    decreases |ks|
  {
    ks == [] ||
    (from <= ks[0].r.check <= ks[0].r.probe <= ks[0].r.stamp <= ks[0].r.change && InTime(ks[1..], ks[0].r.change))
  }

  /** A call that takes no time. */
  function Instant(ok: bool, at: int): Call {
    Call(ok, S.Readings(at, at, at, at))
  }

  /** n failing calls at one instant and then one successful call at a later time. */
  function FailuresThenSuccess(n: nat, from: int, time: int): seq<Call> {
    if n == 0 then [Instant(true, time)]
    else [Instant(false, from)] + FailuresThenSuccess(n - 1, from, time)
  }

  /** With n failures still missing to open the closed breakers, that run opens them
      with its last failure, and its success closes only the atomic one. */
  lemma {:induction false} PartWays(c: L.Config, s: A.Settings, b: L.Breaker, f: A.Fields, n: nat,
                                    from: int, time: int)
    requires c.failureThreshold == s.failureThreshold && c.openTimeout == s.recoveryTimeout
    requires c.successThreshold >= 2 && Agree(b, f) && time >= from && time - from > c.openTimeout
    requires if n == 0 then b.state == Open && b.lastFailure == from
             else b.state == Closed && b.failureCount + n == L.AtLeastOne(c.failureThreshold)
    requires b.failureCount >= 0
    ensures var ks := FailuresThenSuccess(n, from, time);
            && InTime(ks, from) && NeverOnTheInstant(c, b, ks)
            && LockedRun(c, b, ks).1.state == HalfOpen && AtomicRun(s, f, ks).1.state == Closed
    decreases n
  {
    var ks := FailuresThenSuccess(n, from, time);
    var b', f' := LockedCall(c, b, ks[0]).1, AtomicCall(s, f, ks[0]).1;
    if n > 0 {
      assert ks[1..] == FailuresThenSuccess(n - 1, from, time);
      PartWays(c, s, b', f', n - 1, from, time);
    } else {
      assert ks[1..] == [];
      assert b'.state == HalfOpen && f'.state == Closed;
    }
  }

  /** New breakers with equal threshold and timeout end in the same state in every run
      in time that never lands on the instant if and only if one success is enough to
      close the locked breaker. */
  lemma SameStatesExactlyIf(c: L.Config, s: A.Settings, born: int)
    requires c.failureThreshold == s.failureThreshold && c.openTimeout == s.recoveryTimeout
    ensures (forall ks :: InTime(ks, born) && NeverOnTheInstant(c, L.INITIAL, ks) ==>
               LockedRun(c, L.INITIAL, ks).1.state == AtomicRun(s, A.NewFields(born), ks).1.state)
            <==> c.successThreshold <= 1
  {
    if c.successThreshold <= 1 {
      forall ks | InTime(ks, born) && NeverOnTheInstant(c, L.INITIAL, ks)
        ensures LockedRun(c, L.INITIAL, ks).1.state == AtomicRun(s, A.NewFields(born), ks).1.state
      {
        FreshBreakersAgree(c, s, born, ks);
      }
    } else {
      var time := born + if c.openTimeout < 0 then 0 else c.openTimeout + 1;
      PartWays(c, s, L.INITIAL, A.NewFields(born), L.AtLeastOne(c.failureThreshold), born, time);
    }
  }

  // ----- and the calls let through -----

  /** Different states that let the same calls through: either both breakers are open
      since the same moment or neither is, or they recover at once anyway. */
  predicate Alike(c: L.Config, b: L.Breaker, f: A.Fields, now: int) {
    && f.state != HalfOpen && b.failureCount >= 0 && f.consecutiveFailures >= 0
    && (b.state == Open ==> b.lastFailure <= now) && (f.state == Open ==> f.lastStateChange <= now)
    && (c.openTimeout > 0 ==>
          && (b.state == Open <==> f.state == Open)
          && (b.state == Open ==> b.lastFailure == f.lastStateChange))
  }

  lemma {:induction false} AlikeAdmitsTheSame(c: L.Config, s: A.Settings, b: L.Breaker, f: A.Fields, ks: seq<Call>,
                                              now: int)
    requires c.failureThreshold == s.failureThreshold && c.openTimeout == s.recoveryTimeout
    requires c.failureThreshold <= 1 || c.openTimeout <= 0
    requires Alike(c, b, f, now) && InTime(ks, now) && NeverOnTheInstant(c, b, ks)
    ensures LockedRun(c, b, ks).0 == AtomicRun(s, f, ks).0
    decreases |ks|
  {
    if ks != [] {
      AlikeAdmitsTheSame(c, s, LockedCall(c, b, ks[0]).1, AtomicCall(s, f, ks[0]).1, ks[1..], ks[0].r.change);
    }
  }

  /** The failures, the success that parts them, and two more failures at once. */
  function Parting(n: nat, from: int, time: int): seq<Call> {
    if n == 0 then [Instant(true, time), Instant(false, time), Instant(false, time)]
    else [Instant(false, from)] + Parting(n - 1, from, time)
  }

  /** If a single failure does not open the closed breaker, the first failure after
      the parting opens the half-open one, which then rejects the second. */
  lemma {:induction false} PartingDiffers(c: L.Config, s: A.Settings, b: L.Breaker, f: A.Fields, n: nat,
                                          from: int, time: int)
    requires c.failureThreshold == s.failureThreshold >= 2 && c.openTimeout == s.recoveryTimeout > 0
    requires c.successThreshold >= 2 && Agree(b, f) && time - from > c.openTimeout
    requires if n == 0 then b.state == Open && b.lastFailure == from
             else b.state == Closed && b.failureCount + n == c.failureThreshold
    requires b.failureCount >= 0
    ensures var ks := Parting(n, from, time);
            && InTime(ks, from) && NeverOnTheInstant(c, b, ks)
            && LockedRun(c, b, ks).0 != AtomicRun(s, f, ks).0
    decreases n
  {
    var ks := Parting(n, from, time);
    var b1, f1 := LockedCall(c, b, ks[0]).1, AtomicCall(s, f, ks[0]).1;
    if n > 0 {
      assert ks[1..] == Parting(n - 1, from, time);
      PartingDiffers(c, s, b1, f1, n - 1, from, time);
      assert LockedRun(c, b, ks).0[1..] == LockedRun(c, b1, ks[1..]).0;
      assert AtomicRun(s, f, ks).0[1..] == AtomicRun(s, f1, ks[1..]).0;
    } else {
      assert b1.state == HalfOpen && f1.state == Closed && f1.consecutiveFailures == 0;
      TwoFailuresDiffer(c, s, b1, f1, ks[1]);
      assert ks[1..] == [ks[1], ks[1]];
      assert LockedRun(c, b, ks).0[1..] == LockedRun(c, b1, ks[1..]).0;
      assert AtomicRun(s, f, ks).0[1..] == AtomicRun(s, f1, ks[1..]).0;
    }
  }

  lemma TwoFailuresDiffer(c: L.Config, s: A.Settings, b: L.Breaker, f: A.Fields, k: Call)
    requires c.failureThreshold == s.failureThreshold >= 2 && c.openTimeout == s.recoveryTimeout > 0
    requires b.state == HalfOpen && f.state == Closed && f.consecutiveFailures == 0 && !k.ok
    requires k.r.check == k.r.probe == k.r.stamp == k.r.change
    ensures NeverOnTheInstant(c, b, [k, k]) && InTime([k, k], k.r.check)
    ensures LockedRun(c, b, [k, k]).0 == [true, false] && AtomicRun(s, f, [k, k]).0 == [true, true]
  {
    var b1, f1 := LockedCall(c, b, k).1, AtomicCall(s, f, k).1;
    assert [k, k][1..] == [k] && [k][1..] == [];
    assert LockedRun(c, b1, [k]).0 == [false] && AtomicRun(s, f1, [k]).0 == [true];
  }

  /** New breakers with equal threshold and timeout let the same calls through, in
      every run in time that never lands on the instant, if and only if one success
      closes the locked breaker, or one failure opens both, or they never stay open. */
  lemma SameAdmissionsExactlyIf(c: L.Config, s: A.Settings, born: int)
    requires c.failureThreshold == s.failureThreshold && c.openTimeout == s.recoveryTimeout
    ensures (forall ks :: InTime(ks, born) && NeverOnTheInstant(c, L.INITIAL, ks) ==>
               LockedRun(c, L.INITIAL, ks).0 == AtomicRun(s, A.NewFields(born), ks).0)
            <==> c.successThreshold <= 1 || c.failureThreshold <= 1 || c.openTimeout <= 0
  {
    if c.successThreshold > 1 && c.failureThreshold > 1 && c.openTimeout > 0 {
      PartingDiffers(c, s, L.INITIAL, A.NewFields(born), c.failureThreshold,
                     born, born + c.openTimeout + 1);
    } else {
      forall ks | InTime(ks, born) && NeverOnTheInstant(c, L.INITIAL, ks)
        ensures LockedRun(c, L.INITIAL, ks).0 == AtomicRun(s, A.NewFields(born), ks).0
      {
        if c.successThreshold <= 1 {
          FreshBreakersAgree(c, s, born, ks);
        } else {
          AlikeAdmitsTheSame(c, s, L.INITIAL, A.NewFields(born), ks, born);
        }
      }
    }
  }
}
