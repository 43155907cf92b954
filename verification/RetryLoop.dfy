/** Retrying an operation through a circuit breaker that nobody else uses. */
module RetryLoop {
  import opened Common
  import opened RetryPolicy
  import L = LockedBreaker

  /** Nanoseconds added to the time remaining until the breaker may recover. */
  const RECOVERY_BUFFER := 100_000_000
  /** Nanoseconds to wait if that time has already passed. */
  const MINIMAL_DELAY := 10_000_000

  /** What the operation reports; readsOpen says that its message happens to be the
      one the breaker itself uses to reject a call. */
  datatype OpError = OpError(kind: FailureType, readsOpen: bool)

  /** What a call through the breaker comes to. */
  datatype Outcome = Success | Rejected | Cancelled | Failed(error: OpError)

  /** One call through the breaker: its outcome, and the clock when it was admitted
      or refused, when it was over, and when the policy was asked about it. */
  datatype Attempt = Attempt(outcome: Outcome, at: int, done: int, asked: int)

  datatype Result = Ok | Error(outcome: Outcome)

  /** The world during one execution, by attempt: the operation's results and
      durations, the time lost between steps, the moment the context is cancelled,
      which ready branch a select takes, and the jitter draws. */
  datatype World = World(
    operation: nat -> Option<OpError>,
    duration: nat -> nat,
    beforeCall: nat -> nat,
    beforePolicy: nat -> nat,
    beforeWait: nat -> nat,
    oversleep: nat -> nat,
    cancelledAt: Option<int>,
    prefersCancel: nat -> bool,
    draw: nat -> real)

  predicate IsCancelled(w: World, now: int) {
    w.cancelledAt.Some? && w.cancelledAt.value <= now
  }

  /** The failure type the classifier gives an outcome's message. */
  function KindOf(o: Outcome): FailureType {
    match o
    case Rejected => CircuitBreakerFailure
    case Failed(e) => e.kind
    case _ => Unknown
  }

  predicate ReadsOpen(o: Outcome) {
    o == Rejected || (o.Failed? && o.error.readsOpen)
  }

  /** The wait before the next attempt: a rejection waits for the breaker. */
  function ActualDelay(o: Outcome, delay: int, openTimeout: int, elapsed: int): int {
    if !ReadsOpen(o) then delay
    else if openTimeout - elapsed > 0 then openTimeout - elapsed + RECOVERY_BUFFER
    else MINIMAL_DELAY
  }

  /** No two neighbours are both rejections. */
  predicate NeverRejectedTwice(trace: seq<Attempt>) {
    forall i :: 0 < i < |trace| ==> !(trace[i - 1].outcome == Rejected && trace[i].outcome == Rejected)
  }

  ghost predicate WithinAttempts(p: Policy, n: int) {
    forall m :: IsMaxAttempts(p, m) ==> n <= if m < 1 then 1 else m
  }

  /** The policy's answer after attempt number n. */
  function VerdictOn(p: Policy, w: World, a: Attempt, n: nat): Verdict
    requires n >= 1
  {
    ShouldRetry(p, IsCancelled(w, a.asked), KindOf(a.outcome), n, w.draw(n))
  }

  /** Attempt number n went through to the operation and reports what that did,
      unless the breaker or the context kept it from running. */
  predicate Reports(w: World, a: Attempt, n: nat) {
    && a.at <= a.done <= a.asked
    && match a.outcome
       case Success => w.operation(n) == None
       case Failed(e) => w.operation(n) == Some(e)
       case Rejected => true
       case Cancelled => IsCancelled(w, a.at)
  }

  /** A failed attempt after which the policy said to go on. */
  predicate GoesOn(p: Policy, w: World, a: Attempt, n: nat)
    requires n >= 1
  {
    a.outcome != Success && VerdictOn(p, w, a, n).Retry?
  }

  /** When the wait after failed attempt number n should end: after the policy's delay,
      or, if the error reads like a rejection, a little after the breaker's timeout,
      counted from its last failure. */
  function Due(p: Policy, w: World, a: Attempt, n: nat, failedAt: int, openTimeout: int): int
    requires n >= 1
  {
    var from := a.asked + w.beforeWait(n);
    var reopens := if failedAt + openTimeout > from then failedAt + openTimeout + RECOVERY_BUFFER
                   else from + MINIMAL_DELAY;
    match a.outcome
    case Failed(e) =>
      if e.readsOpen then reopens
      else
        var v := ShouldRetry(p, false, e.kind, n, w.draw(n));
        if v.Retry? && v.delay > 0 then from + v.delay else from
    case Rejected => reopens
    case _ => from
  }

  /** The next attempt is made when the wait is over, or as much later as the program
      oversleeps and is delayed, and only if the context was not cancelled during the wait. */
  predicate Waits(p: Policy, w: World, a: Attempt, next: Attempt, n: nat, failedAt: int, openTimeout: int)
    requires n >= 1
  {
    var due := Due(p, w, a, n, failedAt, openTimeout);
    due <= next.at <= due + w.oversleep(n) + w.beforeCall(n + 1) && !IsCancelled(w, due - 1)
  }

  /** The trace of attempts is one the loop makes with a breaker in state b: it goes on
      as long as, and only if, an attempt fails and the policy agrees, and it waits in
      between. */
  ghost predicate Lawful(p: Policy, w: World, c: L.Config, b: L.Breaker, trace: seq<Attempt>) {
    && (forall i :: 0 <= i < |trace| ==> Reports(w, trace[i], i + 1))
    && (forall i :: 0 <= i < |trace| - 1 ==>
          && GoesOn(p, w, trace[i], i + 1)
          && Waits(p, w, trace[i], trace[i + 1], i + 1, LastOpening(c, b, trace, i + 1), c.openTimeout))
  }

  /** The breaker's last failure after n attempts. */
  function LastOpening(c: L.Config, b: L.Breaker, trace: seq<Attempt>, n: nat): int
    requires n <= |trace|
  {
    L.Run(c, b, Events(trace[..n])).lastFailure
  }

  /** Why the loop may end with this result, at this time, after its last attempt. */
  ghost predicate Justified(p: Policy, w: World, last: Attempt, n: nat, result: Result, end: int)
    requires n >= 1
  {
    match result
    case Ok => last.outcome == Success
    case Error(o) =>
      && last.outcome != Success && end >= last.asked
      && if VerdictOn(p, w, last, n) == Stop then o == last.outcome else o == Cancelled && IsCancelled(w, end)
  }

  /** What the attempts do to the breaker, as events of its own run. */
  function Events(trace: seq<Attempt>): seq<L.Event> {
    if trace == [] then []
    else Events(trace[..|trace| - 1]) + EventsOf(trace[|trace| - 1])
  }

  function EventsOf(a: Attempt): seq<L.Event> {
    match a.outcome
    case Cancelled => []
    case Rejected => [L.Admission(a.at)]
    case Success => [L.Admission(a.at), L.Result(true, a.done)]
    case Failed(_) => [L.Admission(a.at), L.Result(false, a.done)]
  }

  lemma RunAttempt(c: L.Config, b: L.Breaker, a: Attempt)
    ensures L.Run(c, b, EventsOf(a)) ==
            match a.outcome
            case Cancelled => b
            case Rejected => L.Probe(c, b, a.at)
            case Success => L.Record(c, L.Probe(c, b, a.at), true, a.done)
            case Failed(_) => L.Record(c, L.Probe(c, b, a.at), false, a.done)
  {
    var es := EventsOf(a);
    if |es| == 2 {
      assert es[1..] == [es[1]] && es[1..][1..] == [];
      assert L.Run(c, L.Step(c, b, es[0]), [es[1]]) == L.Step(c, L.Step(c, b, es[0]), es[1]);
    }
  }

  /** The loop's own summary of the attempts so far. */
  ghost predicate Progress(p: Policy, w: World, c: L.Config, b: L.Breaker, trace: seq<Attempt>, now: int) {
    && Lawful(p, w, c, b, trace) && NeverRejectedTwice(trace)
    && (trace != [] ==>
          var n := |trace|;
          ReadyAt(p, w, trace[n - 1], n, LastOpening(c, b, trace, n), c.openTimeout, now))
  }

  predicate ReadyAt(p: Policy, w: World, a: Attempt, n: nat, failedAt: int, openTimeout: int, now: int)
    requires n >= 1
  {
    && GoesOn(p, w, a, n)
    && Due(p, w, a, n, failedAt, openTimeout) <= now <= Due(p, w, a, n, failedAt, openTimeout) + w.oversleep(n)
    && !IsCancelled(w, Due(p, w, a, n, failedAt, openTimeout) - 1)
  }

  lemma NothingYet(p: Policy, w: World, c: L.Config, b: L.Breaker, now: int)
    ensures Progress(p, w, c, b, [], now) && L.Run(c, b, Events([])) == b
  {
  }

  lemma LawfulExtends(p: Policy, w: World, c: L.Config, b: L.Breaker, trace: seq<Attempt>, now: int, a: Attempt)
    requires Progress(p, w, c, b, trace, now)
    requires Reports(w, a, |trace| + 1) && now <= a.at <= now + w.beforeCall(|trace| + 1)
    requires trace != [] && trace[|trace| - 1].outcome == Rejected ==> a.outcome != Rejected
    ensures Lawful(p, w, c, b, trace + [a]) && NeverRejectedTwice(trace + [a])
  {
    hide Due, GoesOn, LastOpening, NeverRejectedTwice, Waits;
    var t := trace + [a];
    RejectionsExtend(trace, a);
    WaitsNow(p, w, c, b, trace, now, a);
    forall i | 0 <= i < |t| - 1
      ensures GoesOn(p, w, t[i], i + 1)
      ensures Waits(p, w, t[i], t[i + 1], i + 1, LastOpening(c, b, t, i + 1), c.openTimeout)
    {
      assert t[i] == trace[i] && t[i + 1] == if i + 1 < |trace| then trace[i + 1] else a;
      SamePrefix(c, b, trace, a, i + 1);
    }
  }

  lemma SamePrefix(c: L.Config, b: L.Breaker, trace: seq<Attempt>, a: Attempt, n: nat)
    requires n <= |trace|
    ensures LastOpening(c, b, trace + [a], n) == LastOpening(c, b, trace, n)
  {
    assert (trace + [a])[..n] == trace[..n];
  }

  lemma RejectionsExtend(trace: seq<Attempt>, a: Attempt)
    requires NeverRejectedTwice(trace)
    requires trace != [] && trace[|trace| - 1].outcome == Rejected ==> a.outcome != Rejected
    ensures NeverRejectedTwice(trace + [a])
  {
  }

  lemma WaitsNow(p: Policy, w: World, c: L.Config, b: L.Breaker, trace: seq<Attempt>, now: int, a: Attempt)
    requires Progress(p, w, c, b, trace, now) && now <= a.at <= now + w.beforeCall(|trace| + 1)
    ensures trace != [] ==>
              var n := |trace|;
              Waits(p, w, trace[n - 1], a, n, LastOpening(c, b, trace, n), c.openTimeout)
  {
    hide Due, LastOpening;
  }

  lemma EventsExtend(c: L.Config, b: L.Breaker, trace: seq<Attempt>, a: Attempt)
    ensures var t := trace + [a];
            && L.Run(c, b, Events(t)) == L.Run(c, L.Run(c, b, Events(trace)), EventsOf(a))
            && LastOpening(c, b, t, |t|) == L.Run(c, b, Events(t)).lastFailure
  {
    var t := trace + [a];
    assert t[..|trace|] == trace && t[..|t|] == t;
    L.RunThen(c, b, Events(trace), EventsOf(a));
  }

  // ----- what a trace says about the policy -----

  /** Attempt number n, of that kind of failure, is followed by another one exactly if
      the context is live and the policy has attempts left for this kind; only the
      cancellation of the wait may end the loop instead. */
  ghost predicate Decided(p: Policy, w: World, a: Attempt, kind: FailureType, n: nat, last: bool,
                          result: Result, end: int) {
    if !IsCancelled(w, a.asked) && AttemptsLeft(p, kind, n)
    then !last || (result == Error(Cancelled) && IsCancelled(w, end))
    else last && result == Error(a.outcome)
  }

  /** A success and a cancellation end the loop; after a failure of the operation its own
      kind decides, after a rejection the kind reserved for the breaker. */
  ghost predicate FollowsPolicy(p: Policy, w: World, trace: seq<Attempt>, result: Result, end: int) {
    forall i :: 0 <= i < |trace| ==> Follows(p, w, trace[i], i + 1, i == |trace| - 1, result, end)
  }

  ghost predicate Follows(p: Policy, w: World, a: Attempt, n: nat, last: bool, result: Result, end: int) {
    match a.outcome
    case Success => last && result == Ok
    case Cancelled => last && result == Error(Cancelled)
    case Rejected => Decided(p, w, a, CircuitBreakerFailure, n, last, result, end)
    case Failed(e) => Decided(p, w, a, e.kind, n, last, result, end)
  }

  lemma LawfulFollows(p: Policy, w: World, c: L.Config, b: L.Breaker, trace: seq<Attempt>, result: Result, end: int)
    requires trace != [] && Lawful(p, w, c, b, trace)
    requires Justified(p, w, trace[|trace| - 1], |trace|, result, end)
    ensures FollowsPolicy(p, w, trace, result, end)
  {
    hide Waits, ShouldRetry, AttemptsLeft;
    forall i | 0 <= i < |trace| ensures Follows(p, w, trace[i], i + 1, i == |trace| - 1, result, end) {
      var a := trace[i];
      assert Reports(w, a, i + 1) && (i < |trace| - 1 ==> GoesOn(p, w, a, i + 1));
      RetriesExactlyIf(p, IsCancelled(w, a.asked), KindOf(a.outcome), i + 1, w.draw(i + 1));
    }
  }

  /** Under the adaptive policy a full disk always ends the loop at once. */
  lemma FullDiskEndsIt(config: Config, openTimeout: int, w: World, trace: seq<Attempt>, result: Result, end: int,
                       i: nat, e: OpError)
    requires FollowsPolicy(AdaptivePolicy(config, openTimeout), w, trace, result, end)
    requires i < |trace| && trace[i].outcome == Failed(e) && e.kind == DiskSpace
    ensures i == |trace| - 1 && result == Error(Failed(e))
  {
    AdaptiveAttemptsLeft(config, openTimeout, DiskSpace, i + 1);
  }

  class RetryWithCircuitBreaker {
    var policy: Policy
    const breaker: L.DefaultCircuitBreaker

    constructor (policy: Policy, breaker: L.DefaultCircuitBreaker)
      ensures this.policy == policy && this.breaker == breaker
    {
      this.policy, this.breaker := policy, breaker;
    }

    /** A nil policy is refused. */
    method UpdatePolicy(p: Option<Policy>) returns (ok: bool)
      modifies this
      ensures ok == p.Some? && policy == if ok then p.value else old(policy)
    {
      if p.None? {
        return false;
      }
      policy := p.value;
      return true;
    }

    /** Runs the operation through the breaker once. */
    method CallBreaker(w: World, n: nat, start: int) returns (a: Attempt)
      modifies breaker
      ensures start <= a.at <= start + w.beforeCall(n) && Reports(w, a, n)
      ensures a.outcome == Cancelled <==> IsCancelled(w, start)
      ensures a.outcome == Rejected <==>
                !IsCancelled(w, start) && !L.Admits(breaker.config, old(breaker.Value()), a.at)
      ensures a.outcome == Rejected ==> breaker.state == Open
      ensures breaker.Value() == L.Run(breaker.config, old(breaker.Value()), EventsOf(a))
    {
      var o, at, done := Cancelled, start, start;
      if !IsCancelled(w, start) {
        at := start + w.beforeCall(n);
        done := at;
        var admitted := breaker.CanExecute(at);
        if admitted {
          done := at + w.duration(n);
          var error := w.operation(n);
          breaker.RecordResult(error.None?, done);
          o := if error.None? then Success else Failed(error.value);
        } else {
          o := Rejected;
        }
      }
      a := Attempt(o, at, done, done + w.beforePolicy(n));
      RunAttempt(breaker.config, old(breaker.Value()), a);
    }

    /** The wait after failed attempt number n, unless the context ends it; now is when
        the wait is over. */
    method Pause(w: World, a: Attempt, n: nat) returns (cancelled: bool, now: int)
      requires n >= 1 && GoesOn(policy, w, a, n) && Reports(w, a, n)
      requires a.outcome == Rejected ==> breaker.state == Open
      ensures now >= a.asked && (cancelled ==> IsCancelled(w, now))
      ensures !cancelled ==> ReadyAt(policy, w, a, n, breaker.lastFailure, breaker.config.openTimeout, now)
      ensures !cancelled && a.outcome == Rejected ==> L.Admits(breaker.config, breaker.Value(), now)
    {
      var from := a.asked + w.beforeWait(n);
      var wait := ActualDelay(a.outcome, VerdictOn(policy, w, a, n).delay,
                              breaker.config.openTimeout, from - breaker.lastFailure);
      var due := if wait < 0 then from else from + wait;
      now := due + w.oversleep(n);
      if IsCancelled(w, due - 1) {
        cancelled := true;
        now := if w.cancelledAt.value < from then from else w.cancelledAt.value;
      } else {
        cancelled := IsCancelled(w, now) && w.prefersCancel(n);
      }
    }

    /** end is the time of the return. */
    method ExecuteWithRetry(w: World, start: int) returns (result: Result, trace: seq<Attempt>, end: int)
      modifies breaker
      // at least one call, and no more than the policy's own count
      ensures |trace| >= 1 && WithinAttempts(policy, |trace|)
      // it goes on, waits and ends for the right reasons; Ok means the last call succeeded
      ensures Lawful(policy, w, breaker.config, old(breaker.Value()), trace)
      ensures Justified(policy, w, trace[|trace| - 1], |trace|, result, end)
      ensures FollowsPolicy(policy, w, trace, result, end)
      ensures result == Ok <==> trace[|trace| - 1].outcome == Success
      // the wait after a rejection always outlasts the timeout
      ensures NeverRejectedTwice(trace)
      // nothing else happens to the breaker
      ensures breaker.Value() == L.Run(breaker.config, old(breaker.Value()), Events(trace))
    {
      hide Lawful, NeverRejectedTwice, IsMaxAttempts, FollowsPolicy, L.Run, Events, LastOpening, Due;
      trace := [];
      ghost var c, b := breaker.config, breaker.Value();
      NothingYet(policy, w, c, b, start);
      var attempt, now := 1, start;
      var maxAttempts := GetMaxAttempts(policy);  // goes to the metrics
      while true
        invariant attempt == |trace| + 1
        invariant attempt > 1 ==> forall k :: IsMaxAttempts(policy, k) ==> attempt <= k
        invariant Progress(policy, w, c, b, trace, now)
        invariant trace != [] && trace[|trace| - 1].outcome == Rejected ==>
                    L.Admits(breaker.config, breaker.Value(), now) && breaker.state == Open
        invariant breaker.Value() == L.Run(c, b, Events(trace))
        decreases maxAttempts - attempt
      {
        var a := CallBreaker(w, attempt, now);
        LawfulExtends(policy, w, c, b, trace, now, a);
        EventsExtend(c, b, trace, a);
        trace := trace + [a];
        if a.outcome == Success {
          LawfulFollows(policy, w, c, b, trace, Ok, a.done);
          return Ok, trace, a.done;
        }
        if VerdictOn(policy, w, a, attempt) == Stop {
          LawfulFollows(policy, w, c, b, trace, Error(a.outcome), a.asked);
          return Error(a.outcome), trace, a.asked;
        }
        forall k | IsMaxAttempts(policy, k) ensures attempt < k {
          RetryMeansAttemptsLeft(policy, k, IsCancelled(w, a.asked), KindOf(a.outcome), attempt, w.draw(attempt));
        }
        var cancelled;
        cancelled, now := Pause(w, a, attempt);
        if cancelled {
          LawfulFollows(policy, w, c, b, trace, Error(Cancelled), now);
          return Error(Cancelled), trace, now;
        }
        attempt := attempt + 1;
      }
    }
  }
}
