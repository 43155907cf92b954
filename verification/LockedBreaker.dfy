/** The mutex-protected circuit breaker.  Every critical section is one step, so
    an interleaving of concurrent calls is a sequence of events: admissions and
    result recordings of different calls may come in any order. */
module LockedBreaker {
  import opened Common

  datatype Config = Config(failureThreshold: int, successThreshold: int, openTimeout: int)

  datatype Breaker = Breaker(state: CircuitState, failureCount: int, successCount: int, lastFailure: int)

  const INITIAL := Breaker(Closed, 0, 0, 0)

  /** Whether the time since the breaker opened exceeds the timeout. */
  predicate Expired(c: Config, b: Breaker, now: int) {
    now - b.lastFailure > c.openTimeout
  }

  /** The check shared by canExecute and GetState. */
  function Probe(c: Config, b: Breaker, now: int): Breaker {
    if b.state == Open && Expired(c, b, now) then b.(state := HalfOpen, successCount := 0) else b
  }

  predicate Admits(c: Config, b: Breaker, now: int) {
    Probe(c, b, now).state != Open
  }

  function TripOpen(b: Breaker, now: int): Breaker {
    b.(state := Open, successCount := 0, lastFailure := now)
  }

  function RecordFailure(c: Config, b: Breaker, now: int): Breaker {
    var b' := b.(failureCount := b.failureCount + 1);
    match b.state
    case Closed =>
      if b'.failureCount >= c.failureThreshold then TripOpen(b', now) else b'.(lastFailure := now)
    case HalfOpen => TripOpen(b', now)
    case Open => b'
  }

  function RecordSuccess(c: Config, b: Breaker): Breaker {
    match b.state
    case Closed => b.(failureCount := 0, successCount := 0)
    case HalfOpen =>
      if b.successCount + 1 >= c.successThreshold
      then b.(state := Closed, failureCount := 0, successCount := 0)
      else b.(successCount := b.successCount + 1)
    case Open => b
  }

  function Record(c: Config, b: Breaker, ok: bool, now: int): Breaker {
    if ok then RecordSuccess(c, b) else RecordFailure(c, b, now)
  }

  function Reset(b: Breaker): Breaker {
    b.(state := Closed, failureCount := 0, successCount := 0)
  }

  /** The breaker object; now is the clock reading of the critical section. */
  class DefaultCircuitBreaker {
    const config: Config
    var state: CircuitState
    var failureCount: int
    var successCount: int
    var lastFailure: int

    function Value(): Breaker
      reads this
    {
      Breaker(state, failureCount, successCount, lastFailure)
    }

    constructor (config: Config)
      ensures this.config == config && Value() == INITIAL
    {
      this.config := config;
      state, failureCount, successCount, lastFailure := Closed, 0, 0, 0;
    }

    method CanExecute(now: int) returns (admitted: bool)
      modifies this
      ensures Value() == Probe(config, old(Value()), now)
      ensures admitted == Admits(config, old(Value()), now)
    {
      match state {
        case Closed =>
          admitted := true;
        case Open =>
          if now - lastFailure > config.openTimeout {
            state := HalfOpen;
            successCount := 0;
            admitted := true;
          } else {
            admitted := false;
          }
        case HalfOpen =>
          admitted := true;
      }
    }

    method RecordResult(ok: bool, now: int)
      modifies this
      ensures Value() == Record(config, old(Value()), ok, now)
    {
      if ok {
        RecordSuccessLocked();
      } else {
        RecordFailureLocked(now);
      }
    }

    method RecordFailureLocked(now: int)
      modifies this
      ensures Value() == RecordFailure(config, old(Value()), now)
    {
      failureCount := failureCount + 1;
      match state {
        case Closed =>
          lastFailure := now;
          if failureCount >= config.failureThreshold {
            TransitionToOpen(now);
          }
        case HalfOpen =>
          lastFailure := now;
          TransitionToOpen(now);
        case Open =>
      }
    }

    method RecordSuccessLocked()
      modifies this
      ensures Value() == RecordSuccess(config, old(Value()))
    {
      match state {
        case Closed =>
          failureCount := 0;
          successCount := 0;
        case HalfOpen =>
          successCount := successCount + 1;
          if successCount >= config.successThreshold {
            TransitionToClosed();
          }
        case Open =>
      }
    }

    method TransitionToOpen(now: int)
      modifies this
      ensures Value() == TripOpen(old(Value()), now)
    {
      state := Open;
      successCount := 0;
      lastFailure := now;
    }

    method TransitionToClosed()
      modifies this
      ensures Value() == Reset(old(Value()))
    {
      state := Closed;
      failureCount := 0;
      successCount := 0;
    }

    method GetState(now: int) returns (s: CircuitState)
      modifies this
      ensures Value() == Probe(config, old(Value()), now) && s == Value().state
    {
      if state == Open && now - lastFailure > config.openTimeout {
        state := HalfOpen;
        successCount := 0;
      }
      s := state;
    }

    method ManualReset()
      modifies this
      ensures Value() == Reset(old(Value()))
    {
      TransitionToClosed();
    }
  }

  // ----- runs over any interleaving -----

  datatype Event =
    | Admission(time: int)
    | Result(ok: bool, time: int)
    | Inspection(time: int)
    | ManualReset(time: int)

  function Step(c: Config, b: Breaker, e: Event): Breaker {
    match e
    case Admission(t) => Probe(c, b, t)
    case Result(ok, t) => Record(c, b, ok, t)
    case Inspection(t) => Probe(c, b, t)
    case ManualReset(_) => Reset(b)
  }

  function Run(c: Config, b: Breaker, es: seq<Event>): Breaker
    decreases |es|
  {
    if es == [] then b else Run(c, Step(c, b, es[0]), es[1..])
  }

  /** The times at which the run opens the breaker. */
  function Openings(c: Config, b: Breaker, es: seq<Event>): seq<int>
    decreases |es|
  {
    if es == [] then []
    else
      var b' := Step(c, b, es[0]);
      (if b.state != Open && b'.state == Open then [es[0].time] else []) + Openings(c, b', es[1..])
  }

  /** The times at which the run lets a call through. */
  function Admitted(c: Config, b: Breaker, es: seq<Event>): seq<int>
    decreases |es|
  {
    if es == [] then []
    else
      (if es[0].Admission? && Admits(c, b, es[0].time) then [es[0].time] else [])
      + Admitted(c, Step(c, b, es[0]), es[1..])
  }

  /** The clock never runs backwards. */
  ghost predicate Monotone(es: seq<Event>, from: int) {
    && (forall i :: 0 <= i < |es| ==> es[i].time >= from)
    && (forall i, j :: 0 <= i < j < |es| ==> es[i].time <= es[j].time)
  }

  ghost predicate ResetFree(es: seq<Event>) {
    forall i :: 0 <= i < |es| ==> !es[i].ManualReset?
  }

  /** A threshold below one acts like one: the first result already reaches it. */
  function AtLeastOne(threshold: int): int {
    if threshold < 1 then 1 else threshold
  }

  /** What holds between critical sections, whatever the interleaving. */
  predicate Invariant(c: Config, b: Breaker) {
    && b.failureCount >= 0
    && match b.state
       case Closed => b.failureCount < AtLeastOne(c.failureThreshold) && b.successCount == 0
       case HalfOpen => 0 <= b.successCount < AtLeastOne(c.successThreshold)
       case Open => b.successCount == 0
  }

  lemma {:induction false} InvariantOverRuns(c: Config, b: Breaker, es: seq<Event>)
    requires Invariant(c, b)
    ensures Invariant(c, Run(c, b, es))
    decreases |es|
  {
    if es != [] {
      InvariantOverRuns(c, Step(c, b, es[0]), es[1..]);
    }
  }

  lemma Tail(es: seq<Event>, from: int)
    requires es != [] && Monotone(es, from)
    ensures Monotone(es[1..], es[0].time)
  {
  }

  /** While open, nothing is admitted until more than the timeout has passed. */
  lemma {:induction false} NoAdmissionBeforeTimeout(c: Config, b: Breaker, es: seq<Event>, from: int)
    requires b.state == Open && Monotone(es, from) && ResetFree(es)
    ensures forall t :: t in Admitted(c, b, es) ==> t > b.lastFailure + c.openTimeout
    decreases |es|
  {
    if es != [] {
      var b' := Step(c, b, es[0]);
      Tail(es, from);
      if b'.state == Open {
        NoAdmissionBeforeTimeout(c, b', es[1..], es[0].time);
      } else {
        AdmittedNotBefore(c, b', es[1..], es[0].time);
      }
    }
  }

  /** In any Reset-free run, whatever happens before: once an event opens the
      breaker, the next call it lets through comes more than a timeout later. */
  lemma ClosedDoorAfterOpening(c: Config, before: seq<Event>, e: Event, after: seq<Event>)
    requires Run(c, INITIAL, before).state != Open
    requires Step(c, Run(c, INITIAL, before), e).state == Open
    requires Monotone(after, e.time) && ResetFree(after)
    ensures forall t :: t in Admitted(c, Step(c, Run(c, INITIAL, before), e), after) ==> t > e.time + c.openTimeout
  {
    NoAdmissionBeforeTimeout(c, Step(c, Run(c, INITIAL, before), e), after, e.time);
  }

  lemma {:induction false} AdmittedNotBefore(c: Config, b: Breaker, es: seq<Event>, from: int)
    requires Monotone(es, from)
    ensures forall t :: t in Admitted(c, b, es) ==> t >= from
    decreases |es|
  {
    if es != [] {
      Tail(es, from);
      AdmittedNotBefore(c, Step(c, b, es[0]), es[1..], es[0].time);
    }
  }

  ghost predicate Spaced(ts: seq<int>, gap: int) {
    forall i :: 0 < i < |ts| ==> ts[i] > ts[i - 1] + gap
  }

  /** Consecutive openings are more than a timeout apart; the first one comes no
      earlier than the state the run starts in allows. */
  lemma {:induction false} OpeningsSpaced(c: Config, b: Breaker, es: seq<Event>, from: int)
    requires Monotone(es, from) && ResetFree(es)
    ensures Spaced(Openings(c, b, es), c.openTimeout)
    ensures Openings(c, b, es) != [] ==> Openings(c, b, es)[0] >= from
    ensures b.state == Open && Openings(c, b, es) != [] ==>
              Openings(c, b, es)[0] > b.lastFailure + c.openTimeout
    decreases |es|
  {
    if es != [] {
      Tail(es, from);
      OpeningsSpaced(c, Step(c, b, es[0]), es[1..], es[0].time);
    }
  }

  /** The k-th opening of a Reset-free run comes more than k - 1 timeouts after the first. */
  lemma OpeningsBackOff(c: Config, es: seq<Event>, from: int, k: nat)
    requires Monotone(es, from) && ResetFree(es)
    requires 2 <= k <= |Openings(c, INITIAL, es)|
    ensures var ts := Openings(c, INITIAL, es); ts[k - 1] > ts[0] + (k - 1) * c.openTimeout
  {
    OpeningsSpaced(c, INITIAL, es, from);
    SpacedAll(Openings(c, INITIAL, es), c.openTimeout, k - 1);
  }

  lemma {:induction false} SpacedAll(ts: seq<int>, gap: int, i: nat)
    requires Spaced(ts, gap) && 0 < i < |ts|
    ensures ts[i] > ts[0] + i * gap
  {
    if i > 1 {
      SpacedAll(ts, gap, i - 1);
      assert (i - 1) * gap + gap == i * gap;
    }
  }

  lemma {:induction false} RunThen(c: Config, b: Breaker, es: seq<Event>, es': seq<Event>)
    ensures Run(c, b, es + es') == Run(c, Run(c, b, es), es')
    decreases |es|
  {
    if es == [] {
      assert es + es' == es';
    } else {
      RunThen(c, Step(c, b, es[0]), es[1..], es');
      assert (es + es')[1..] == es[1..] + es';
    }
  }

  /** A run without resets that starts open and ends otherwise has outlasted the timeout. */
  lemma {:induction false} LeavingTakesTheTimeout(c: Config, b: Breaker, es: seq<Event>, from: int)
    requires b.state == Open && Monotone(es, from) && ResetFree(es)
    requires Run(c, b, es).state != Open
    ensures es != [] && es[|es| - 1].time > b.lastFailure + c.openTimeout
    decreases |es|
  {
    var b' := Step(c, b, es[0]);
    Tail(es, from);
    if b'.state == Open {
      LeavingTakesTheTimeout(c, b', es[1..], es[0].time);
    }
  }

  /** Event number i opens the breaker. */
  predicate OpensAt(c: Config, es: seq<Event>, i: nat) {
    i < |es| && Run(c, INITIAL, es[..i]).state != Open && Run(c, INITIAL, es[..i + 1]).state == Open
  }

  lemma OpeningStamps(c: Config, es: seq<Event>, i: nat)
    requires OpensAt(c, es, i)
    ensures Run(c, INITIAL, es[..i + 1]).lastFailure == es[i].time
  {
    assert es[..i + 1] == es[..i] + [es[i]];
    RunThen(c, INITIAL, es[..i], [es[i]]);
  }

  /** In any run, resets included: two openings are more than a timeout apart unless a
      reset lies between them. */
  lemma OpeningsApartUnlessReset(c: Config, es: seq<Event>, from: int, i: nat, j: nat)
    requires Monotone(es, from) && i < j && OpensAt(c, es, i) && OpensAt(c, es, j)
    ensures es[j].time > es[i].time + c.openTimeout || exists k :: i < k < j && es[k].ManualReset?
  {
    if forall k :: i < k < j ==> !es[k].ManualReset? {
      var between := es[i + 1..j];
      assert es[..j] == es[..i + 1] + between;
      RunThen(c, INITIAL, es[..i + 1], between);
      OpeningStamps(c, es, i);
      LeavingTakesTheTimeout(c, Run(c, INITIAL, es[..i + 1]), between, from);
      assert between[|between| - 1] == es[j - 1];
    }
  }

  /** n failures at one instant. */
  function Failures(n: nat, at: int): seq<Event> {
    if n == 0 then [] else [Result(false, at)] + Failures(n - 1, at)
  }

  lemma {:induction false} OpeningsThen(c: Config, b: Breaker, es: seq<Event>, es': seq<Event>)
    ensures Openings(c, b, es + es') == Openings(c, b, es) + Openings(c, Run(c, b, es), es')
    decreases |es|
  {
    if es == [] {
      assert es + es' == es';
    } else {
      OpeningsThen(c, Step(c, b, es[0]), es[1..], es');
      assert (es + es')[1..] == es[1..] + es';
    }
  }

  /** They open a closed breaker that lacks n of them, once. */
  lemma {:induction false} FailuresOpen(c: Config, b: Breaker, n: nat, at: int)
    requires b.state == Closed && n > 0 && b.failureCount >= 0
    requires b.failureCount + n == AtLeastOne(c.failureThreshold)
    ensures Openings(c, b, Failures(n, at)) == [at]
    ensures forall e :: e in Failures(n, at) ==> e.time == at
    ensures Run(c, b, Failures(n, at)).state == Open
    decreases n
  {
    var es := Failures(n, at);
    assert es[1..] == Failures(n - 1, at);
    if n > 1 {
      FailuresOpen(c, Step(c, b, es[0]), n - 1, at);
    }
  }

  lemma OpenedNot(c: Config, b: Breaker, es: seq<Event>)
    requires es != [] && es[0].ManualReset?
    ensures Openings(c, b, es) == Openings(c, Step(c, b, es[0]), es[1..])
  {
  }

  lemma AllAtOnce(es: seq<Event>, at: int)
    requires forall e :: e in es ==> e.time == at
    ensures Monotone(es, at)
  {
  }

  /** A Reset between two series of failures removes the spacing: with every
      configuration both openings can happen at the same instant. */
  lemma ResetBreaksSpacing(c: Config, at: int)
    ensures var failures := Failures(AtLeastOne(c.failureThreshold), at);
            var es := failures + [ManualReset(at)] + failures;
            Monotone(es, at) && Openings(c, INITIAL, es) == [at, at]
  {
    hide Openings, Monotone, Failures;
    var failures := Failures(AtLeastOne(c.failureThreshold), at);
    var b := Run(c, INITIAL, failures);
    var reset := Step(c, b, ManualReset(at));
    var n := AtLeastOne(c.failureThreshold);
    FailuresOpen(c, INITIAL, n, at);
    FailuresOpen(c, reset, n, at);
    var rest := [ManualReset(at)] + failures;
    assert failures + [ManualReset(at)] + failures == failures + rest && rest[1..] == failures;
    OpeningsThen(c, INITIAL, failures, rest);
    OpenedNot(c, b, rest);
    AllAtOnce(failures + rest, at);
  }
}
