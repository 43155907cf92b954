/** Promises of the atomic breaker that interleaving breaks, each with runs that break
    it.  One caller at a time never sees any of them. */
module AtomicBreakerRaces {
  import opened Common
  import opened AtomicBreaker
  import opened AtomicBreakerRecovery
  import opened AtomicBreakerSafety
  import opened SequentialBreaker

  lemma {:induction false} ExecutesThen(c: Settings, s0: State, acts: seq<Action>, s: State, acts': seq<Action>,
                                        s': State)
    requires Executes(c, s0, acts, s) && Executes(c, s, acts', s')
    ensures Executes(c, s0, acts + acts', s')
    decreases |acts|
  {
    if acts == [] {
      assert acts + acts' == acts';
    } else {
      ExecutesThen(c, Step(c, s0, acts[0]), acts[1..], s, acts', s');
      assert (acts + acts')[1..] == acts[1..] + acts';
    }
  }

  lemma ReachesThen(c: Settings, s0: State, s: State, s': State)
    requires Reaches(c, s0, s) && Reaches(c, s, s')
    ensures Reaches(c, s0, s')
  {
    var acts :| Executes(c, s0, acts, s);
    var acts' :| Executes(c, s, acts', s');
    ExecutesThen(c, s0, acts, s, acts', s');
  }

  lemma SoloStart(c: Settings, s0: State, t: nat)
    requires t in s0.threads
    ensures Solo(c, s0, t, s0.sh, s0.threads[t])
  {
    assert Executes(c, s0, [], s0);
    assert s0.threads[t := s0.threads[t]] == s0.threads;
  }

  /** Thread t, alone, makes a call that finds the breaker closed and fails, and
      stops right after its swap to open, before it stores lastStateChange. */
  lemma TripHalfway(c: Settings, s0: State, t: nat) returns (sh: Shared)
    requires t in s0.threads && s0.threads[t] == Idle && s0.sh.mutex == None
    requires s0.sh.f.state == Closed && s0.sh.f.consecutiveFailures + 1 >= c.failureThreshold
    ensures Solo(c, s0, t, sh, ReadClock(ToOpen))
    ensures sh.f.state == Open && sh.f.lastStateChange == s0.sh.f.lastStateChange && sh.now == s0.sh.now
    ensures sh.f.timeInOpen == s0.sh.f.timeInOpen && sh.f.timeInHalfOpen == s0.sh.f.timeInHalfOpen
    ensures sh.f.stateTransitions == s0.sh.f.stateTransitions
  {
    hide Reaches, Executes;
    var ch := Choice(Execute, false);
    SoloStart(c, s0, t);
    sh := s0.sh;
    var pc := Idle;
    SoloStep(c, s0, t, sh, pc, ch);
    sh, pc := PcStep(c, sh, t, pc, ch).0, LoadState;
    SoloStep(c, s0, t, sh, pc, ch);
    SoloStep(c, s0, t, sh, CallFunction, ch);
    SoloStep(c, s0, t, sh, AddFailed, ch);
    sh := PcStep(c, sh, t, AddFailed, ch).0;
    SoloStep(c, s0, t, sh, AddFailures, ch);
    sh := PcStep(c, sh, t, AddFailures, ch).0;
    SoloStep(c, s0, t, sh, ZeroSuccesses, ch);
    sh := PcStep(c, sh, t, ZeroSuccesses, ch).0;
    SoloStep(c, s0, t, sh, StampFailure, ch);
    sh := PcStep(c, sh, t, StampFailure, ch).0;
    SoloStep(c, s0, t, sh, LoadStateF, ch);
    SoloStep(c, s0, t, sh, LoadFailures(Closed), ch);
    SoloStep(c, s0, t, sh, Lock(ToOpen), ch);
    sh := PcStep(c, sh, t, Lock(ToOpen), ch).0;
    SoloStep(c, s0, t, sh, Swap(ToOpen), ch);
    sh := PcStep(c, sh, t, Swap(ToOpen), ch).0;
  }

  /** Thread t, alone, finds the breaker open, sees a change long past and goes
      for the half-open section. */
  lemma SeeStaleChange(c: Settings, s0: State, t: nat) returns (sh: Shared, load: Load)
    requires t in s0.threads && s0.threads[t] == Idle && s0.sh.f.state == Open
    requires s0.sh.now - s0.sh.f.lastStateChange >= c.recoveryTimeout
    ensures load == Load(s0.sh.f.lastStateChange, s0.sh.stamped)
    ensures Solo(c, s0, t, sh, Lock(ToHalfOpen(load)))
    ensures sh == s0.sh.(f := s0.sh.f.(totalCalls := s0.sh.f.totalCalls + 1))
  {
    var ch := Choice(Execute, false);
    load := Load(s0.sh.f.lastStateChange, s0.sh.stamped);
    SoloStart(c, s0, t);
    SoloStep(c, s0, t, s0.sh, Idle, ch);
    sh := PcStep(c, s0.sh, t, Idle, ch).0;
    SoloStep(c, s0, t, sh, LoadState, ch);
    SoloStep(c, s0, t, sh, LoadChange, ch);
    SoloStep(c, s0, t, sh, CompareClock(load), ch);
  }

  // ----- the recovery timeout -----

  lemma ReachedInvariants(c: Settings, born: int, ids: set<nat>, s: State)
    requires Reaches(c, Initial(born, ids), s)
    ensures Invariant(s) && Recovery(c, s) && s.sh.born == born
  {
    var acts :| Executes(c, Initial(born, ids), acts, s);
    InitialInvariant(born, ids);
    InvariantOverRuns(c, Initial(born, ids), acts, s);
    RecoveryOverRuns(c, Initial(born, ids), acts, s);
  }

  /** Thread t, alone, makes failing calls until one more would open the breaker. */
  lemma {:induction false} FailUntilNearlyOpen(c: Settings, s: State, t: nat) returns (s': State)
    requires t in s.threads && s.threads[t] == Idle && s.sh.mutex == None && s.sh.f.state == Closed
    ensures Reaches(c, s, s') && s'.threads == s.threads && s'.sh.mutex == None
    ensures s'.sh.f.state == Closed && s'.sh.f.consecutiveFailures + 1 >= c.failureThreshold
    ensures s'.sh.f.timeInOpen == s.sh.f.timeInOpen && s'.sh.f.timeInHalfOpen == s.sh.f.timeInHalfOpen
    decreases c.failureThreshold - s.sh.f.consecutiveFailures
  {
    if s.sh.f.consecutiveFailures + 1 >= c.failureThreshold {
      s' := s;
      assert Executes(c, s, [], s);
    } else {
      var r, sh := SoloCall(c, s, t, false, 0, 0, 0, 0);
      var s1 := State(sh, s.threads);
      s' := FailUntilNearlyOpen(c, s1, t);
      ReachesThen(c, s, s1, s');
    }
  }

  /** A breaker about to be opened by the next failure, a timeout after its last change. */
  ghost predicate AboutToOpen(c: Settings, born: int, ids: set<nat>, s: State) {
    && Reaches(c, Initial(born, ids), s) && s.threads == Initial(born, ids).threads && s.sh.mutex == None
    && s.sh.f.state == Closed && s.sh.f.consecutiveFailures + 1 >= c.failureThreshold
    && s.sh.now - s.sh.f.lastStateChange >= c.recoveryTimeout
  }

  lemma BringAboutToOpen(c: Settings, born: int, ids: set<nat>, t: nat) returns (s: State)
    requires t in ids && c.recoveryTimeout > 0
    ensures AboutToOpen(c, born, ids, s)
  {
    var s0 := Initial(born, ids);
    var s1 := FailUntilNearlyOpen(c, s0, t);
    ReachedInvariants(c, born, ids, s1);
    ReachesStep(c, s0, s1, Tick(c.recoveryTimeout));
    s := Step(c, s1, Tick(c.recoveryTimeout));
  }

  lemma MovedNotStamped(c: Settings, s: State, t: nat)
    requires Invariant(s) && Recovery(c, s) && t in s.threads && s.threads[t].ReadClock?
    ensures |s.sh.history| == s.sh.stamped + 1
  {
  }

  /** With any positive timeout and any two threads: a second call loads lastStateChange
      between the swap to open and the store that belongs to it, and recovers at once. */
  lemma EarlyFromTheWindow(c: Settings, born: int, ids: set<nat>, t: nat, u: nat) returns (s: State)
    requires c.recoveryTimeout > 0 && t in ids && u in ids && t != u
    ensures Reaches(c, Initial(born, ids), s)
    ensures var h := s.sh.history; h != [] && Early(c, h, |h| - 1) && h[|h| - 1].load.value.stamped == |h| - 2
  {
    hide PcStep, Reaches, Executes, Accounted, PathData, TimeData, StampData, HistoryKept, LoadKept, Exclusive;
    var s0 := Initial(born, ids);
    var s1 := BringAboutToOpen(c, born, ids, t);
    var sh2 := TripHalfway(c, s1, t);
    var s2 := State(sh2, s1.threads[t := ReadClock(ToOpen)]);
    ReachesThen(c, s0, s1, s2);
    ReachedInvariants(c, born, ids, s2);
    MovedNotStamped(c, s2, t);
    var sh3, load := SeeStaleChange(c, s2, u);
    var s3 := State(sh3, s2.threads[u := Lock(ToHalfOpen(load))]);
    ReachesThen(c, s0, s2, s3);
    s := FinishBoth(c, s3, t, u, load);
    ReachesThen(c, s0, s3, s);
  }

  /** Thread t completes its opening, then thread u its half-open section. */
  lemma FinishBoth(c: Settings, s3: State, t: nat, u: nat, load: Load) returns (s: State)
    requires t in s3.threads && s3.threads[t] == ReadClock(ToOpen) && s3.sh.f.state == Open
    requires u in s3.threads && s3.threads[u] == Lock(ToHalfOpen(load))
    ensures Reaches(c, s3, s)
    ensures s.sh.history == s3.sh.history + [Edge(Open, HalfOpen, false, s3.sh.now, s3.sh.now, Some(load))]
  {
    SoloStart(c, s3, t);
    SoloStep(c, s3, t, s3.sh, ReadClock(ToOpen), Choice(Execute, false));
    var sh4 := SoloStamp(c, s3, t, s3.sh, ToOpen);
    var s4 := State(sh4, s3.threads[t := Idle]);
    SoloStart(c, s4, u);
    var sh5 := SoloSection(c, s4, u, sh4, ToHalfOpen(load), 0);
    s := State(sh5, s4.threads[u := CallFunction]);
    ReachesThen(c, s3, s4, s);
  }

  /** With any positive timeout, and no load in that window: a call finds the timeout
      over and stops before its section, another one recovers, fails and opens the
      breaker again, and the first one ends this new opening at once. */
  lemma EarlyFromAnOldLoad(c: Settings, born: int) returns (s: State)
    requires c.recoveryTimeout > 0
    ensures Reaches(c, Initial(born, {0, 1, 2}), s)
    ensures var h := s.sh.history; |h| >= 3 && Early(c, h, |h| - 1) && h[|h| - 1].load.value.stamped == |h| - 3
  {
    var ids: set<nat> := {0, 1, 2};
    var s0 := Initial(born, ids);
    var s1 := BringAboutToOpen(c, born, ids, 0);
    var r2, sh2 := SoloCall(c, s1, 0, false, 0, 0, 0, 0);
    var s2 := State(sh2, s1.threads);
    ReachesThen(c, s0, s1, s2);
    ReachedInvariants(c, born, ids, s2);
    ReachesStep(c, s0, s2, Tick(c.recoveryTimeout));
    var s3 := Step(c, s2, Tick(c.recoveryTimeout));
    var sh4, load := SeeStaleChange(c, s3, 1);
    var s4 := State(sh4, s3.threads[1 := Lock(ToHalfOpen(load))]);
    ReachesThen(c, s0, s3, s4);
    s := ReopenAndRecover(c, s4, load);
    ReachesThen(c, s0, s4, s);
    ReachedInvariants(c, born, ids, s4);
    ReachedInvariants(c, born, ids, s);
  }

  /** Thread 2 recovers the breaker and opens it again, then thread 1 recovers it. */
  lemma ReopenAndRecover(c: Settings, s4: State, load: Load) returns (s: State)
    requires s4.threads == map[0 := Idle, 1 := Lock(ToHalfOpen(load)), 2 := Idle] && s4.sh.mutex == None
    requires s4.sh.f.state == Open && Recovers(c, s4.sh.f, s4.sh.now)
    ensures Reaches(c, s4, s) && s.sh.f.stateTransitions == s4.sh.f.stateTransitions + 3 && s.sh.mutex == None
    ensures var h := s.sh.history;
            h != [] && h[|h| - 1].load == Some(load) && h[|h| - 1].at == h[|h| - 1].last
  {
    var r5, sh5 := SoloCall(c, s4, 2, false, 0, 0, 0, 0);
    var s5 := State(sh5, s4.threads);
    SoloStart(c, s5, 1);
    assert sh5.f.lastStateChange == r5.change && sh5.now == r5.change;
    var sh6 := SoloSection(c, s5, 1, sh5, ToHalfOpen(load), 0);
    s := State(sh6, s5.threads[1 := CallFunction]);
    ReachesThen(c, s4, s5, s);
  }

  /** A thread without others: between its load and its swap nothing is stamped. */
  ghost predicate Lone(sh: Shared, pc: Pc) {
    && |sh.history| == sh.stamped + (if Unstamped(pc) then 1 else 0)
    && (pc.LoadOld? || pc.StoreState? ==> IsForce(pc.goal))
    && (pc.StoreState? ==> pc.was == sh.f.state)
    && (pc.CompareClock? ==> pc.load.stamped == sh.stamped)
    && ((pc.Lock? || pc.Swap?) && pc.goal.ToHalfOpen? ==> pc.goal.load.stamped == sh.stamped)
    && forall i: nat :: !Stale(sh.history, i)
  }

  lemma LoneStep(c: Settings, sh: Shared, t: nat, pc: Pc, ch: Choice)
    requires Lone(sh, pc)
    ensures var (sh', pc') := PcStep(c, sh, t, pc, ch); Lone(sh', pc')
  {
    var h, h' := sh.history, PcStep(c, sh, t, pc, ch).0.history;
    forall i: nat ensures !Stale(h', i) {
      if i < |h| {
        assert !Stale(h, i) && h'[i] == h[i];
      }
    }
  }

  lemma {:induction false} LoneRun(c: Settings, s: State, t: nat, acts: seq<Action>, s': State)
    requires s.threads.Keys == {t} && Lone(s.sh, s.threads[t]) && Executes(c, s, acts, s')
    ensures s'.threads.Keys == {t} && Lone(s'.sh, s'.threads[t])
    decreases |acts|
  {
    hide PcStep, Lone;
    if acts != [] {
      if acts[0].Act? {
        LoneStep(c, s.sh, t, s.threads[t], acts[0].ch);
      } else {
        LoneTick(c, s.sh, s.threads[t], acts[0].d);
      }
      LoneRun(c, Step(c, s, acts[0]), t, acts[1..], s');
    }
  }

  lemma LoneTick(c: Settings, sh: Shared, pc: Pc, d: nat)
    requires Lone(sh, pc)
    ensures Lone(sh.(now := sh.now + d), pc)
  {
  }

  lemma {:induction false} NobodyRun(c: Settings, s: State, acts: seq<Action>, s': State)
    requires s.threads == map[] && Executes(c, s, acts, s')
    ensures s'.sh.history == s.sh.history
    decreases |acts|
  {
    if acts != [] {
      NobodyRun(c, Step(c, s, acts[0]), acts[1..], s');
    }
  }

  lemma NeverStaleAlone(c: Settings, born: int, ids: set<nat>, s: State, i: nat)
    requires Reaches(c, Initial(born, ids), s) && |ids| <= 1
    ensures !Stale(s.sh.history, i)
  {
    var acts :| Executes(c, Initial(born, ids), acts, s);
    if ids == {} {
      NobodyRun(c, Initial(born, ids), acts, s);
    } else {
      var t :| t in ids;
      assert |ids - {t}| == |ids| - 1;
      assert ids == {t};
      LoneRun(c, Initial(born, ids), t, acts, s);
    }
  }

  /** Whatever threads there are, early moves are possible exactly if the timeout is
      positive and there are two of them. */
  lemma EarlyExactlyIf(c: Settings, born: int, ids: set<nat>)
    ensures (exists s, i: nat :: Reaches(c, Initial(born, ids), s) && Early(c, s.sh.history, i))
            <==> c.recoveryTimeout > 0 && |ids| >= 2
  {
    if c.recoveryTimeout > 0 && |ids| >= 2 {
      var t :| t in ids;
      assert |ids - {t}| == |ids| - 1;
      var u :| u in ids - {t};
      var s := EarlyFromTheWindow(c, born, ids, t, u);
      assert Early(c, s.sh.history, |s.sh.history| - 1);
    } else {
      forall s, i: nat | Reaches(c, Initial(born, ids), s) && i < |s.sh.history|
        ensures !Early(c, s.sh.history, i)
      {
        ReachedInvariants(c, born, ids, s);
        assert RecoveryKept(c, s.sh.history, i);
        if c.recoveryTimeout > 0 {
          NeverStaleAlone(c, born, ids, s, i);
        }
      }
    }
  }

  // ----- the recorded times -----

  /** Thread t, alone, goes from the half-open section's lock to after its addition
      of the time spent open. */
  lemma AddOpenTime(c: Settings, s0: State, t: nat, sh: Shared, g: Goal) returns (sh': Shared)
    requires Solo(c, s0, t, sh, Lock(g)) && g.ToHalfOpen? && sh.mutex == None && sh.f.state == Open
    ensures Solo(c, s0, t, sh', StoreChange(g, sh.now))
    ensures sh'.f == sh.f.(state := HalfOpen, timeInOpen := sh.f.timeInOpen + (sh.now - sh.f.lastStateChange))
  {
    var ch := Choice(Execute, true);
    SoloStep(c, s0, t, sh, Lock(g), ch);
    var sh1 := PcStep(c, sh, t, Lock(g), ch).0;
    SoloStep(c, s0, t, sh1, Swap(g), ch);
    var sh2 := PcStep(c, sh1, t, Swap(g), ch).0;
    SoloStep(c, s0, t, sh2, ReadClock(g), ch);
    sh' := SoloTime(c, s0, t, sh2, g);
  }

  /** With every configuration: between adding a time and storing the change it ends
      at, the recorded times can exceed lastStateChange minus the creation time. */
  lemma RecordedTimesCanRunAhead(c: Settings, born: int) returns (s: State)
    ensures Reaches(c, Initial(born, {0}), s)
    ensures s.sh.f.timeInOpen + s.sh.f.timeInHalfOpen > s.sh.f.lastStateChange - born
  {
    var s0 := Initial(born, {0});
    var s1 := FailUntilNearlyOpen(c, s0, 0);
    var r2, sh2 := SoloCall(c, s1, 0, false, 0, 0, 0, 0);
    var s2 := State(sh2, s1.threads);
    ReachesThen(c, s0, s1, s2);
    ReachedInvariants(c, born, {0}, s2);
    var d := (if c.recoveryTimeout > 0 then c.recoveryTimeout else 0) + (sh2.f.lastStateChange - born) + 1;
    ReachesStep(c, s0, s2, Tick(d));
    var s3 := Step(c, s2, Tick(d));
    var sh4, load := SeeStaleChange(c, s3, 0);
    var sh5 := AddOpenTime(c, s3, 0, sh4, ToHalfOpen(load));
    s := State(sh5, s3.threads[0 := StoreChange(ToHalfOpen(load), sh4.now)]);
    ReachesThen(c, s0, s3, s);
  }
}
