/** The atomic circuit breaker used by one caller at a time: the specification of
    each call as a function, the object that meets it, and the proof that a thread
    of the step machine running alone does exactly what the function says. */
module SequentialBreaker {
  import opened Common
  import opened AtomicBreaker

  /** The clock readings of one call, in the order they are taken: the recovery
      check, entering half-open, stamping the result, and the transition it causes. */
  datatype Readings = Readings(check: int, probe: int, stamp: int, change: int)

  predicate Recovers(c: Settings, f: Fields, now: int) {
    now - f.lastStateChange >= c.recoveryTimeout
  }

  predicate Admits(c: Settings, f: Fields, now: int) {
    f.state == Open ==> Recovers(c, f, now)
  }

  function GoOpen(f: Fields, now: int): Fields {
    if f.state == Open then f
    else f.(state := Open, lastStateChange := now, stateTransitions := f.stateTransitions + 1)
  }

  function GoHalfOpen(f: Fields, now: int): Fields {
    if f.state == Open then
      f.(state := HalfOpen, timeInOpen := f.timeInOpen + (now - f.lastStateChange),
         lastStateChange := now, stateTransitions := f.stateTransitions + 1)
    else f
  }

  function GoClosed(f: Fields, now: int): Fields {
    if f.state == HalfOpen then
      f.(state := Closed, timeInHalfOpen := f.timeInHalfOpen + (now - f.lastStateChange),
         lastStateChange := now, stateTransitions := f.stateTransitions + 1)
    else f
  }

  function OnFailure(c: Settings, f: Fields, stamp: int, change: int): Fields {
    var g := f.(failedCalls := f.failedCalls + 1, consecutiveFailures := f.consecutiveFailures + 1,
                consecutiveSuccesses := 0, lastFailureTime := stamp);
    if (g.state == Closed && g.consecutiveFailures >= c.failureThreshold) || g.state == HalfOpen
    then GoOpen(g, change) else g
  }

  function OnSuccess(f: Fields, stamp: int, change: int): Fields {
    var g := f.(successfulCalls := f.successfulCalls + 1, consecutiveSuccesses := f.consecutiveSuccesses + 1,
                consecutiveFailures := 0, lastSuccessTime := stamp);
    if g.state == HalfOpen then GoClosed(g, change) else g
  }

  function Call(c: Settings, f: Fields, ok: bool, r: Readings): Fields {
    var f1 := f.(totalCalls := f.totalCalls + 1);
    if !Admits(c, f, r.check) then f1.(rejectedCalls := f1.rejectedCalls + 1)
    else
      var f2 := GoHalfOpen(f1, r.probe);
      if ok then OnSuccess(f2, r.stamp, r.change) else OnFailure(c, f2, r.stamp, r.change)
  }

  function Forced(f: Fields, to: CircuitState, now: int): Fields {
    if f.state == to then f
    else f.(state := to, lastStateChange := now, stateTransitions := f.stateTransitions + 1)
  }

  /** The object as one caller sees it. */
  class ReliableCircuitBreaker {
    const settings: Settings
    var state: CircuitState
    var consecutiveFailures: int
    var consecutiveSuccesses: int
    var lastFailureTime: int
    var lastSuccessTime: int
    var totalCalls: int
    var successfulCalls: int
    var failedCalls: int
    var rejectedCalls: int
    var stateTransitions: int
    var timeInOpen: int
    var timeInHalfOpen: int
    var lastStateChange: int

    function Value(): Fields
      reads this
    {
      Fields(state, consecutiveFailures, consecutiveSuccesses, lastFailureTime, lastSuccessTime,
             totalCalls, successfulCalls, failedCalls, rejectedCalls, stateTransitions,
             timeInOpen, timeInHalfOpen, lastStateChange)
    }

    constructor (settings: Settings, now: int)
      ensures this.settings == settings && Value() == NewFields(now)
    {
      this.settings := settings;
      state := Closed;
      consecutiveFailures, consecutiveSuccesses, lastFailureTime, lastSuccessTime := 0, 0, 0, 0;
      totalCalls, successfulCalls, failedCalls, rejectedCalls := 0, 0, 0, 0;
      stateTransitions, timeInOpen, timeInHalfOpen, lastStateChange := 0, 0, 0, now;
    }

    /** ok is the outcome of the protected function, if it gets called. */
    method Execute(ok: bool, r: Readings) returns (called: bool)
      modifies this
      ensures Value() == Call(settings, old(Value()), ok, r)
      ensures called == Admits(settings, old(Value()), r.check)
    {
      totalCalls := totalCalls + 1;
      if state == Open {
        if r.check - lastStateChange >= settings.recoveryTimeout {
          TransitionToHalfOpen(r.probe);
        } else {
          rejectedCalls := rejectedCalls + 1;
          return false;
        }
      }
      if ok {
        RecordSuccess(r.stamp, r.change);
      } else {
        RecordFailure(r.stamp, r.change);
      }
      return true;
    }

    method RecordFailure(stamp: int, change: int)
      modifies this
      ensures Value() == OnFailure(settings, old(Value()), stamp, change)
    {
      failedCalls := failedCalls + 1;
      consecutiveFailures := consecutiveFailures + 1;
      consecutiveSuccesses := 0;
      lastFailureTime := stamp;
      if state == Closed && consecutiveFailures >= settings.failureThreshold {
        TransitionToOpen(change);
      } else if state == HalfOpen {
        TransitionToOpen(change);
      }
    }

    method RecordSuccess(stamp: int, change: int)
      modifies this
      ensures Value() == OnSuccess(old(Value()), stamp, change)
    {
      successfulCalls := successfulCalls + 1;
      consecutiveSuccesses := consecutiveSuccesses + 1;
      consecutiveFailures := 0;
      lastSuccessTime := stamp;
      if state == HalfOpen {
        TransitionToClosed(change);
      }
    }

    method TransitionToOpen(now: int)
      modifies this
      ensures Value() == GoOpen(old(Value()), now)
    {
      if state == Closed || state == HalfOpen {
        state := Open;
        lastStateChange := now;
        stateTransitions := stateTransitions + 1;
      }
    }

    method TransitionToHalfOpen(now: int)
      modifies this
      ensures Value() == GoHalfOpen(old(Value()), now)
    {
      if state == Open {
        state := HalfOpen;
        timeInOpen := timeInOpen + (now - lastStateChange);
        lastStateChange := now;
        stateTransitions := stateTransitions + 1;
      }
    }

    method TransitionToClosed(now: int)
      modifies this
      ensures Value() == GoClosed(old(Value()), now)
    {
      if state == HalfOpen {
        state := Closed;
        timeInHalfOpen := timeInHalfOpen + (now - lastStateChange);
        lastStateChange := now;
        stateTransitions := stateTransitions + 1;
      }
    }

    method ForceState(to: CircuitState, now: int)
      modifies this
      ensures Value() == Forced(old(Value()), to, now)
    {
      var was := state;
      state := to;
      if was != to {
        lastStateChange := now;
        stateTransitions := stateTransitions + 1;
      }
    }

    method Reset(now: int)
      modifies this
      ensures Value() == NewFields(now)
    {
      state := Closed;
      consecutiveFailures, consecutiveSuccesses, lastFailureTime, lastSuccessTime := 0, 0, 0, 0;
      totalCalls, successfulCalls, failedCalls, rejectedCalls := 0, 0, 0, 0;
      stateTransitions, timeInOpen, timeInHalfOpen := 0, 0, 0;
      lastStateChange := now;
    }
  }

  // ----- one thread of the step machine, running alone -----

  ghost predicate Reaches(c: Settings, s0: State, s: State) {
    exists acts :: Executes(c, s0, acts, s)
  }

  lemma {:induction false} ExecutesAppend(c: Settings, s0: State, acts: seq<Action>, s: State, a: Action)
    requires Executes(c, s0, acts, s) && Enabled(s, a)
    ensures Executes(c, s0, acts + [a], Step(c, s, a))
    decreases |acts|
  {
    if acts == [] {
      assert [a][1..] == [];
    } else {
      ExecutesAppend(c, Step(c, s0, acts[0]), acts[1..], s, a);
      assert (acts + [a])[1..] == acts[1..] + [a];
    }
  }

  lemma ReachesStep(c: Settings, s0: State, s: State, a: Action)
    requires Reaches(c, s0, s) && Enabled(s, a)
    ensures Reaches(c, s0, Step(c, s, a))
  {
    var acts :| Executes(c, s0, acts, s);
    ExecutesAppend(c, s0, acts, s, a);
  }

  /** From s0 the steps of thread t alone lead to shared state sh, with t at pc. */
  ghost predicate Solo(c: Settings, s0: State, t: nat, sh: Shared, pc: Pc) {
    t in s0.threads && Reaches(c, s0, State(sh, s0.threads[t := pc]))
  }

  lemma SoloStep(c: Settings, s0: State, t: nat, sh: Shared, pc: Pc, ch: Choice)
    requires Solo(c, s0, t, sh, pc) && (pc.Lock? ==> sh.mutex == None)
    ensures var (sh', pc') := PcStep(c, sh, t, pc, ch); Solo(c, s0, t, sh', pc')
  {
    var s := State(sh, s0.threads[t := pc]);
    ReachesStep(c, s0, s, Act(t, ch));
    var (sh', pc') := PcStep(c, sh, t, pc, ch);
    assert s.threads[t := pc'] == s0.threads[t := pc'];
  }

  lemma SoloTick(c: Settings, s0: State, t: nat, sh: Shared, pc: Pc, d: nat)
    requires Solo(c, s0, t, sh, pc)
    ensures Solo(c, s0, t, sh.(now := sh.now + d), pc)
  {
    ReachesStep(c, s0, State(sh, s0.threads[t := pc]), Tick(d));
  }

  /** A whole critical section, with its clock reading d later. */
  lemma SoloSection(c: Settings, s0: State, t: nat, sh: Shared, g: Goal, d: nat) returns (sh': Shared)
    requires Solo(c, s0, t, sh, Lock(g)) && sh.mutex == None && !IsForce(g)
    requires g == ToOpen || sh.f.state == Expected(g)
    requires g == ToOpen ==> sh.f.state != Open
    ensures Solo(c, s0, t, sh', After(g)) && sh'.mutex == None && sh'.now == sh.now + d
    ensures sh'.f == match g
                     case ToOpen => GoOpen(sh.f, sh.now + d)
                     case ToHalfOpen(_) => GoHalfOpen(sh.f, sh.now + d)
                     case _ => GoClosed(sh.f, sh.now + d)
    ensures sh'.history == Move(sh, g).history && sh'.stamped == sh.stamped + 1
  {
    hide Solo;
    var ch := Choice(Execute, true);
    SoloStep(c, s0, t, sh, Lock(g), ch);
    var sh1 := sh.(mutex := Some(t));
    SoloStep(c, s0, t, sh1, Swap(g), ch);
    if sh.f.state != Expected(g) {
      SoloStep(c, s0, t, sh1, SwapHalfOpen, ch);
    }
    var sh2 := Move(sh1, g);
    SoloTick(c, s0, t, sh2, ReadClock(g), d);
    var sh3 := sh2.(now := sh2.now + d);
    SoloStep(c, s0, t, sh3, ReadClock(g), ch);
    sh' := SoloStamp(c, s0, t, sh3, g);
  }

  /** The end of a critical section, from after the clock reading on. */
  lemma SoloStamp(c: Settings, s0: State, t: nat, sh: Shared, g: Goal) returns (sh': Shared)
    requires !IsForce(g)
    requires Solo(c, s0, t, sh, PcStep(c, sh, t, ReadClock(g), Choice(Execute, true)).1)
    ensures Solo(c, s0, t, sh', After(g)) && sh'.mutex == None && sh'.now == sh.now
    ensures var spent := sh.now - sh.f.lastStateChange;
            sh'.f == sh.f.(lastStateChange := sh.now, stateTransitions := sh.f.stateTransitions + 1,
                           timeInOpen := sh.f.timeInOpen + (if g.ToHalfOpen? then spent else 0),
                           timeInHalfOpen := sh.f.timeInHalfOpen + (if g.ToClosed? then spent else 0))
    ensures sh'.history == sh.history && sh'.stamped == sh.stamped + 1
  {
    hide Solo;
    var ch := Choice(Execute, true);
    var sh1 := SoloTime(c, s0, t, sh, g);
    SoloStep(c, s0, t, sh1, StoreChange(g, sh.now), ch);
    var sh2 := sh1.(f := sh1.f.(lastStateChange := sh.now), stamped := sh1.stamped + 1);
    SoloStep(c, s0, t, sh2, AddTransition(g), ch);
    var sh3 := sh2.(f := sh2.f.(stateTransitions := sh2.f.stateTransitions + 1));
    SoloStep(c, s0, t, sh3, Unlock(g), ch);
    sh' := sh3.(mutex := None);
  }

  /** The part of a critical section that adds up the time spent, if it has one. */
  lemma SoloTime(c: Settings, s0: State, t: nat, sh: Shared, g: Goal) returns (sh': Shared)
    requires !IsForce(g)
    requires Solo(c, s0, t, sh, PcStep(c, sh, t, ReadClock(g), Choice(Execute, true)).1)
    ensures Solo(c, s0, t, sh', StoreChange(g, sh.now))
    ensures var spent := sh.now - sh.f.lastStateChange;
            sh' == sh.(f := sh.f.(timeInOpen := sh.f.timeInOpen + (if g.ToHalfOpen? then spent else 0),
                                  timeInHalfOpen := sh.f.timeInHalfOpen + (if g.ToClosed? then spent else 0)))
  {
    hide Solo;
    var ch := Choice(Execute, true);
    sh' := sh;
    if g != ToOpen {
      SoloStep(c, s0, t, sh, LoadLast(g, sh.now), ch);
      SoloStep(c, s0, t, sh, AddTime(g, sh.now, sh.f.lastStateChange), ch);
      sh' := PcStep(c, sh, t, AddTime(g, sh.now, sh.f.lastStateChange), ch).0;
    }
  }

  lemma SoloFailure(c: Settings, s0: State, t: nat, sh: Shared, d: nat, e: nat) returns (sh': Shared)
    requires Solo(c, s0, t, sh, AddFailed) && sh.mutex == None
    ensures Solo(c, s0, t, sh', Idle) && sh'.mutex == None
    ensures sh'.f == OnFailure(c, sh.f, sh.now + d, sh.now + d + e) && sh.now + d <= sh'.now <= sh.now + d + e
  {
    hide Solo;
    var ch := Choice(Execute, true);
    SoloStep(c, s0, t, sh, AddFailed, ch);
    var sh1 := sh.(f := sh.f.(failedCalls := sh.f.failedCalls + 1));
    SoloStep(c, s0, t, sh1, AddFailures, ch);
    var sh2 := sh1.(f := sh1.f.(consecutiveFailures := sh1.f.consecutiveFailures + 1));
    SoloStep(c, s0, t, sh2, ZeroSuccesses, ch);
    var sh3 := sh2.(f := sh2.f.(consecutiveSuccesses := 0));
    SoloTick(c, s0, t, sh3, StampFailure, d);
    var sh4 := sh3.(now := sh3.now + d);
    SoloStep(c, s0, t, sh4, StampFailure, ch);
    var sh5 := sh4.(f := sh4.f.(lastFailureTime := sh4.now));
    SoloStep(c, s0, t, sh5, LoadStateF, ch);
    SoloStep(c, s0, t, sh5, LoadFailures(sh5.f.state), ch);
    if (sh5.f.state == Closed && sh5.f.consecutiveFailures >= c.failureThreshold) || sh5.f.state == HalfOpen {
      sh' := SoloSection(c, s0, t, sh5, ToOpen, e);
    } else {
      sh' := sh5;
    }
  }

  lemma SoloSuccess(c: Settings, s0: State, t: nat, sh: Shared, d: nat, e: nat) returns (sh': Shared)
    requires Solo(c, s0, t, sh, AddSuccessful) && sh.mutex == None
    ensures Solo(c, s0, t, sh', Idle) && sh'.mutex == None
    ensures sh'.f == OnSuccess(sh.f, sh.now + d, sh.now + d + e) && sh.now + d <= sh'.now <= sh.now + d + e
  {
    hide Solo;
    var ch := Choice(Execute, true);
    SoloStep(c, s0, t, sh, AddSuccessful, ch);
    var sh1 := sh.(f := sh.f.(successfulCalls := sh.f.successfulCalls + 1));
    SoloStep(c, s0, t, sh1, AddSuccesses, ch);
    var sh2 := sh1.(f := sh1.f.(consecutiveSuccesses := sh1.f.consecutiveSuccesses + 1));
    SoloStep(c, s0, t, sh2, ZeroFailures, ch);
    var sh3 := sh2.(f := sh2.f.(consecutiveFailures := 0));
    SoloTick(c, s0, t, sh3, StampSuccess, d);
    var sh4 := sh3.(now := sh3.now + d);
    SoloStep(c, s0, t, sh4, StampSuccess, ch);
    var sh5 := sh4.(f := sh4.f.(lastSuccessTime := sh4.now));
    SoloStep(c, s0, t, sh5, LoadStateS, ch);
    if sh5.f.state == HalfOpen {
      sh' := SoloSection(c, s0, t, sh5, ToClosed, e);
    } else {
      sh' := sh5;
    }
  }

  /** A call that meets no interference does what the function says, whatever the
      state it starts in and however long its parts take. */
  lemma SoloCall(c: Settings, s0: State, t: nat, ok: bool, wait: nat, probe: nat, d: nat, e: nat)
    returns (r: Readings, sh': Shared)
    requires t in s0.threads && s0.threads[t] == Idle && s0.sh.mutex == None
    ensures s0.sh.now <= r.check <= r.probe <= r.stamp <= r.change
    ensures r.check == s0.sh.now + (if s0.sh.f.state == Open then wait else 0)
    ensures r.probe <= r.check + probe && r.stamp == r.probe + d && r.change == r.stamp + e
    ensures Reaches(c, s0, State(sh', s0.threads)) && r.check <= sh'.now <= r.change
    ensures sh'.f == Call(c, s0.sh.f, ok, r) && sh'.mutex == None
  {
    var ch, sh := Choice(Execute, ok), s0.sh;
    assert Executes(c, s0, [], s0);
    assert s0.threads[t := Idle] == s0.threads;
    SoloStep(c, s0, t, sh, Idle, ch);
    var sh1 := sh.(f := sh.f.(totalCalls := sh.f.totalCalls + 1));
    SoloStep(c, s0, t, sh1, LoadState, ch);
    r := Readings(sh.now, sh.now, sh.now + d, sh.now + d + e);
    var sh2 := sh1;
    if sh.f.state == Open {
      SoloStep(c, s0, t, sh1, LoadChange, ch);
      var load := Load(sh.f.lastStateChange, sh.stamped);
      SoloTick(c, s0, t, sh1, CompareClock(load), wait);
      sh1 := sh1.(now := sh1.now + wait);
      SoloStep(c, s0, t, sh1, CompareClock(load), ch);
      var now := sh.now + wait;
      r := Readings(now, now + probe, now + probe + d, now + probe + d + e);
      if !Recovers(c, sh.f, now) {
        SoloStep(c, s0, t, sh1, AddRejected, ch);
        sh' := sh1.(f := sh1.f.(rejectedCalls := sh1.f.rejectedCalls + 1));
        return;
      }
      sh2 := SoloSection(c, s0, t, sh1, ToHalfOpen(load), probe);
    }
    SoloStep(c, s0, t, sh2, CallFunction, ch);
    if ok {
      sh' := SoloSuccess(c, s0, t, sh2, d, e);
    } else {
      sh' := SoloFailure(c, s0, t, sh2, d, e);
    }
  }
}
