/** What every interleaving of the atomic circuit breaker keeps. */
module AtomicBreakerSafety {
  import opened Common
  import opened AtomicBreaker

  /** Calls counted in totalCalls but not yet in any outcome counter. */
  predicate InFlight(pc: Pc) {
    match pc
    case LoadState | LoadChange | CompareClock(_) | AddRejected | CallFunction | AddFailed | AddSuccessful => true
    case Lock(g) => g.ToHalfOpen?
    case Swap(g) => g.ToHalfOpen?
    case ReadClock(g) => g.ToHalfOpen?
    case LoadLast(g, _) => g.ToHalfOpen?
    case AddTime(g, _, _) => g.ToHalfOpen?
    case StoreChange(g, _) => g.ToHalfOpen?
    case AddTransition(g) => g.ToHalfOpen?
    case Unlock(g) => g.ToHalfOpen?
    case _ => false
  }

  ghost predicate Accounted(s: State) {
    var f := s.sh.f;
    f.totalCalls == f.successfulCalls + f.failedCalls + f.rejectedCalls + Count(s.threads, InFlight)
  }

  /** Force sections load and store; the others swap, and two of them add up time. */
  predicate WellFormed(pc: Pc) {
    match pc
    case Swap(g) => !IsForce(g)
    case LoadOld(g) => IsForce(g)
    case StoreState(g, _) => IsForce(g)
    case LoadLast(g, _) => g.ToHalfOpen? || g.ToClosed?
    case AddTime(g, _, _) => g.ToHalfOpen? || g.ToClosed?
    case _ => true
  }

  predicate InCritical(pc: Pc) {
    pc.Swap? || pc.SwapHalfOpen? || pc.LoadOld? || pc.StoreState? || pc.ReadClock? || pc.LoadLast?
    || pc.AddTime? || pc.StoreChange? || pc.AddTransition? || pc.Unlock?
  }

  /** The mutex is held exactly by the one thread inside a critical section. */
  ghost predicate Exclusive(s: State) {
    && (s.sh.mutex.Some? ==> s.sh.mutex.value in s.threads)
    && (forall t :: t in s.threads ==>
          WellFormed(s.threads[t]) && (InCritical(s.threads[t]) <==> s.sh.mutex == Some(t)))
  }

  /** The program counter of the mutex holder, Idle if there is none. */
  ghost function Holder(s: State): Pc {
    if s.sh.mutex.Some? && s.sh.mutex.value in s.threads then s.threads[s.sh.mutex.value] else Idle
  }

  // ----- the state path -----

  /** The moves the breaker may make on its own, and those a Force call may make. */
  predicate Allowed(e: Edge) {
    if e.forced then e.from != e.to && e.to != HalfOpen
    else
      || (e.from == Closed && e.to == Open)
      || (e.from == Open && e.to == HalfOpen)
      || (e.from == HalfOpen && e.to == Open)
      || (e.from == HalfOpen && e.to == Closed)
  }

  /** es leads from one state to another by allowed moves. */
  predicate Path(from: CircuitState, es: seq<Edge>, to: CircuitState) {
    if es == [] then from == to
    else
      var e := es[|es| - 1];
      e.to == to && Allowed(e) && Path(from, es[..|es| - 1], e.from)
  }

  lemma PathExtends(from: CircuitState, es: seq<Edge>, to: CircuitState, e: Edge)
    requires Path(from, es, to) && e.from == to && Allowed(e)
    ensures Path(from, es + [e], e.to)
  {
    assert (es + [e])[..|es|] == es;
  }

  /** A change that has happened but is not yet counted. */
  predicate Uncounted(pc: Pc) {
    pc.ReadClock? || pc.LoadLast? || pc.AddTime? || pc.StoreChange? || pc.AddTransition?
  }

  /** The instant up to which the recorded times account: lastStateChange, or the
      reading the holder is about to store there. */
  function AccountedUpTo(sh: Shared, holder: Pc): int {
    if holder.StoreChange? then holder.at else sh.f.lastStateChange
  }

  predicate PathData(sh: Shared, holder: Pc) {
    && Path(Closed, sh.history, sh.f.state)
    && |sh.history| == sh.f.stateTransitions + (if Uncounted(holder) then 1 else 0)
    && (holder.StoreState? ==> holder.was == sh.f.state)
  }

  predicate TimeData(sh: Shared, holder: Pc) {
    var f := sh.f;
    && sh.born <= f.lastStateChange <= AccountedUpTo(sh, holder) <= sh.now
    && (holder.LoadLast? ==> f.lastStateChange <= holder.at <= sh.now)
    && (holder.AddTime? ==> holder.last == f.lastStateChange <= holder.at <= sh.now)
    && f.timeInOpen + f.timeInHalfOpen <= AccountedUpTo(sh, holder) - sh.born
  }

  ghost predicate Invariant(s: State) {
    Exclusive(s) && Accounted(s) && PathData(s.sh, Holder(s)) && TimeData(s.sh, Holder(s))
  }

  lemma InitialInvariant(now: int, ids: set<nat>)
    ensures Invariant(Initial(now, ids))
  {
    var s := Initial(now, ids);
    assert Where(s.threads, InFlight) == {};
  }

  /** The holder's program counter after an operation of a thread. */
  function HolderAfter(pc: Pc, pc': Pc, holder: Pc): Pc {
    if InCritical(pc') then pc' else if InCritical(pc) then Idle else holder
  }

  /** Operations outside the critical sections leave the state, the changes and the
      recorded times alone. */
  lemma OutsideSections(c: Settings, sh: Shared, t: nat, pc: Pc, ch: Choice)
    requires !InCritical(pc)
    ensures var (sh', pc') := PcStep(c, sh, t, pc, ch);
            && sh'.history == sh.history && sh'.stamped == sh.stamped && sh'.now == sh.now && sh'.born == sh.born
            && sh'.f.state == sh.f.state && sh'.f.stateTransitions == sh.f.stateTransitions
            && sh'.f.lastStateChange == sh.f.lastStateChange
            && sh'.f.timeInOpen == sh.f.timeInOpen && sh'.f.timeInHalfOpen == sh.f.timeInHalfOpen
            && (InCritical(pc') ==> (pc'.Swap? || pc'.LoadOld?) && pc.Lock?)
  {
  }

  lemma SectionKeepsPath(c: Settings, sh: Shared, t: nat, pc: Pc, ch: Choice)
    requires PathData(sh, pc) && WellFormed(pc) && InCritical(pc)
    ensures var (sh', pc') := PcStep(c, sh, t, pc, ch); PathData(sh', HolderAfter(pc, pc', pc))
  {
    var (sh', pc') := PcStep(c, sh, t, pc, ch);
    if sh'.history != sh.history {
      PathExtends(Closed, sh.history, sh.f.state, sh'.history[|sh.history|]);
    }
  }

  lemma StepKeepsPath(c: Settings, sh: Shared, t: nat, pc: Pc, ch: Choice, holder: Pc)
    requires PathData(sh, holder) && WellFormed(pc)
    requires InCritical(pc) ==> holder == pc && sh.mutex == Some(t)
    requires pc.Lock? ==> sh.mutex == None
    requires sh.mutex == None ==> holder == Idle
    ensures var (sh', pc') := PcStep(c, sh, t, pc, ch); PathData(sh', HolderAfter(pc, pc', holder))
  {
    hide PcStep;
    if InCritical(pc) {
      SectionKeepsPath(c, sh, t, pc, ch);
    } else {
      OutsideSections(c, sh, t, pc, ch);
    }
  }

  lemma SectionKeepsTime(c: Settings, sh: Shared, t: nat, pc: Pc, ch: Choice)
    requires TimeData(sh, pc) && InCritical(pc)
    ensures var (sh', pc') := PcStep(c, sh, t, pc, ch); TimeData(sh', HolderAfter(pc, pc', pc))
  {
  }

  lemma StepKeepsTime(c: Settings, sh: Shared, t: nat, pc: Pc, ch: Choice, holder: Pc)
    requires TimeData(sh, holder)
    requires InCritical(pc) ==> holder == pc && sh.mutex == Some(t)
    requires pc.Lock? ==> sh.mutex == None
    requires sh.mutex == None ==> holder == Idle
    ensures var (sh', pc') := PcStep(c, sh, t, pc, ch); TimeData(sh', HolderAfter(pc, pc', holder))
  {
    hide PcStep;
    if InCritical(pc) {
      SectionKeepsTime(c, sh, t, pc, ch);
    } else {
      OutsideSections(c, sh, t, pc, ch);
    }
  }

  /** A thread takes the mutex when it enters a critical section, gives it back when
      it leaves, and leaves it alone otherwise. */
  lemma PcStepMutex(c: Settings, sh: Shared, t: nat, pc: Pc, ch: Choice)
    requires WellFormed(pc)
    ensures var (sh', pc') := PcStep(c, sh, t, pc, ch);
            && WellFormed(pc')
            && (InCritical(pc') && !InCritical(pc) ==> pc.Lock? && sh'.mutex == Some(t))
            && (!InCritical(pc') && InCritical(pc) ==> sh'.mutex == None)
            && (InCritical(pc') == InCritical(pc) ==> sh'.mutex == sh.mutex)
  {
    if !InCritical(pc) {
      OutsideMutex(c, sh, t, pc, ch);
    }
  }

  lemma OutsideMutex(c: Settings, sh: Shared, t: nat, pc: Pc, ch: Choice)
    requires !InCritical(pc)
    ensures var (sh', pc') := PcStep(c, sh, t, pc, ch);
            WellFormed(pc') && (InCritical(pc') <==> pc.Lock?) && sh'.mutex == if pc.Lock? then Some(t) else sh.mutex
  {
  }

  lemma StepKeepsExclusive(c: Settings, s: State, a: Action)
    requires Exclusive(s) && Enabled(s, a)
    ensures Exclusive(Step(c, s, a))
  {
    hide PcStep;
    if a.Act? {
      PcStepMutex(c, s.sh, a.t, s.threads[a.t], a.ch);
    }
  }

  /** An operation moves a call from in flight to an outcome, or neither. */
  lemma PcStepAccount(c: Settings, sh: Shared, t: nat, pc: Pc, ch: Choice)
    requires WellFormed(pc)
    ensures var (sh', pc') := PcStep(c, sh, t, pc, ch);
            Outstanding(sh'.f) - Outstanding(sh.f) == (if InFlight(pc') then 1 else 0) - (if InFlight(pc) then 1 else 0)
  {
  }

  function Outstanding(f: Fields): int {
    f.totalCalls - (f.successfulCalls + f.failedCalls + f.rejectedCalls)
  }

  lemma StepKeepsAccount(c: Settings, s: State, a: Action)
    requires Exclusive(s) && Accounted(s) && Enabled(s, a)
    ensures Accounted(Step(c, s, a))
  {
    if a.Act? {
      PcStepAccount(c, s.sh, a.t, s.threads[a.t], a.ch);
      CountUpdate(s.threads, a.t, PcStep(c, s.sh, a.t, s.threads[a.t], a.ch).1, InFlight);
    }
  }

  /** How an operation changes the mutex holder's program counter. */
  lemma HolderStep(c: Settings, s: State, a: Action)
    requires Exclusive(s) && a.Act? && Enabled(s, a)
    ensures var pc' := PcStep(c, s.sh, a.t, s.threads[a.t], a.ch).1;
            Holder(Step(c, s, a)) == HolderAfter(s.threads[a.t], pc', Holder(s))
  {
    hide PcStep;
    PcStepMutex(c, s.sh, a.t, s.threads[a.t], a.ch);
  }

  lemma TickKeepsInvariant(c: Settings, s: State, a: Action)
    requires Invariant(s) && a.Tick?
    ensures Invariant(Step(c, s, a)) && Step(c, s, a).sh.born == s.sh.born
  {
  }

  lemma StepKeepsInvariant(c: Settings, s: State, a: Action)
    requires Invariant(s) && Enabled(s, a)
    ensures Invariant(Step(c, s, a)) && Step(c, s, a).sh.born == s.sh.born
  {
    hide PcStep, Accounted, PathData, TimeData;
    if a.Act? {
      StepKeepsExclusive(c, s, a);
      StepKeepsAccount(c, s, a);
      StepKeepsPath(c, s.sh, a.t, s.threads[a.t], a.ch, Holder(s));
      StepKeepsTime(c, s.sh, a.t, s.threads[a.t], a.ch, Holder(s));
      HolderStep(c, s, a);
      BornStays(c, s.sh, a.t, s.threads[a.t], a.ch);
    } else {
      TickKeepsInvariant(c, s, a);
    }
  }

  lemma BornStays(c: Settings, sh: Shared, t: nat, pc: Pc, ch: Choice)
    ensures PcStep(c, sh, t, pc, ch).0.born == sh.born
  {
  }

  lemma {:induction false} InvariantOverRuns(c: Settings, s: State, acts: seq<Action>, s': State)
    requires Invariant(s) && Executes(c, s, acts, s')
    ensures Invariant(s') && s'.sh.born == s.sh.born
    decreases |acts|
  {
    if acts != [] {
      StepKeepsInvariant(c, s, acts[0]);
      InvariantOverRuns(c, Step(c, s, acts[0]), acts[1..], s');
    }
  }

  /** Whatever the interleaving: each counted call is in exactly one outcome
      counter or still in flight; the state went along allowed moves only, each
      counted once as soon as its section has got that far; and the recorded times
      fit into the breaker's life, up to lastStateChange unless a section has just
      added a time and not yet stored the change it belongs to. */
  lemma EveryInterleaving(c: Settings, born: int, ids: set<nat>, acts: seq<Action>, s: State)
    requires Executes(c, Initial(born, ids), acts, s)
    ensures var f := s.sh.f;
            && f.totalCalls == f.successfulCalls + f.failedCalls + f.rejectedCalls + Count(s.threads, InFlight)
            && Path(Closed, s.sh.history, f.state)
            && f.stateTransitions <= |s.sh.history| <= f.stateTransitions + 1
            && (s.sh.mutex == None ==> |s.sh.history| == f.stateTransitions)
            && f.timeInOpen + f.timeInHalfOpen <= s.sh.now - born
            && ((forall t :: t in s.threads ==> !s.threads[t].StoreChange?) ==>
                  f.timeInOpen + f.timeInHalfOpen <= f.lastStateChange - born)
  {
    InitialInvariant(born, ids);
    InvariantOverRuns(c, Initial(born, ids), acts, s);
  }

  // ----- without Force calls -----

  /** As long as some call is under way, some call can go on. */
  lemma NoDeadlock(s: State, t: nat) returns (u: nat)
    requires Invariant(s) && t in s.threads && !s.threads[t].Idle?
    ensures u in s.threads && !s.threads[u].Idle? && forall ch :: Enabled(s, Act(u, ch))
  {
    u := if s.sh.mutex.Some? then s.sh.mutex.value else t;
  }

  predicate ForceFreeAction(a: Action) {
    a.Act? ==> a.ch.start == Execute
  }

  /** A thread on its way to opening the breaker, or about to decide so because it
      saw the half-open state. */
  predicate Opening(pc: Pc) {
    match pc
    case LoadFailures(loaded) => loaded == HalfOpen
    case Lock(g) => g == ToOpen
    case Swap(g) => g == ToOpen
    case SwapHalfOpen => true
    case _ => false
  }

  predicate Forcing(pc: Pc) {
    match pc
    case Lock(g) => IsForce(g)
    case LoadOld(_) => true
    case StoreState(_, _) => true
    case _ => false
  }

  predicate Owes(pc: Pc) {
    pc.AddFailures?
  }

  /** Every failure is counted before it can contribute to an opening. */
  predicate UnforcedData(c: Settings, sh: Shared, owed: int) {
    var f := sh.f;
    && (forall i :: 0 <= i < |sh.history| ==> !sh.history[i].forced)
    && f.consecutiveFailures >= 0
    && f.consecutiveFailures + owed <= f.failedCalls
    && (f.state != Closed || sh.history != [] ==> f.failedCalls >= c.failureThreshold)
  }

  predicate UnforcedPc(c: Settings, f: Fields, pc: Pc) {
    !Forcing(pc) && (Opening(pc) ==> f.failedCalls >= c.failureThreshold)
  }

  ghost predicate Unforced(c: Settings, s: State) {
    && UnforcedData(c, s.sh, Count(s.threads, Owes))
    && (forall t :: t in s.threads ==> UnforcedPc(c, s.sh.f, s.threads[t]))
  }

  lemma PcStepUnforced(c: Settings, sh: Shared, t: nat, pc: Pc, ch: Choice, owed: nat)
    requires UnforcedData(c, sh, owed) && UnforcedPc(c, sh.f, pc) && WellFormed(pc) && ch.start == Execute
    ensures var (sh', pc') := PcStep(c, sh, t, pc, ch);
            && UnforcedData(c, sh', owed - (if Owes(pc) then 1 else 0) + (if Owes(pc') then 1 else 0))
            && UnforcedPc(c, sh'.f, pc') && sh'.f.failedCalls >= sh.f.failedCalls
  {
  }

  lemma StepKeepsUnforced(c: Settings, s: State, a: Action)
    requires Unforced(c, s) && Exclusive(s) && Enabled(s, a) && ForceFreeAction(a)
    ensures Unforced(c, Step(c, s, a))
  {
    if a.Act? {
      PcStepUnforced(c, s.sh, a.t, s.threads[a.t], a.ch, Count(s.threads, Owes));
      CountUpdate(s.threads, a.t, PcStep(c, s.sh, a.t, s.threads[a.t], a.ch).1, Owes);
    }
  }

  lemma {:induction false} UnforcedOverRuns(c: Settings, s: State, acts: seq<Action>, s': State)
    requires Unforced(c, s) && Invariant(s) && Executes(c, s, acts, s')
    requires forall i :: 0 <= i < |acts| ==> ForceFreeAction(acts[i])
    ensures Unforced(c, s')
    decreases |acts|
  {
    if acts != [] {
      StepKeepsUnforced(c, s, acts[0]);
      StepKeepsInvariant(c, s, acts[0]);
      UnforcedOverRuns(c, Step(c, s, acts[0]), acts[1..], s');
    }
  }

  /** Without Force calls the breaker moves only closed to open, open to half-open,
      half-open to open and half-open to closed, and it does not move at all before
      failureThreshold calls have failed. */
  lemma WithoutForceCalls(c: Settings, born: int, ids: set<nat>, acts: seq<Action>, s: State)
    requires Executes(c, Initial(born, ids), acts, s)
    requires forall i :: 0 <= i < |acts| ==> ForceFreeAction(acts[i])
    ensures Path(Closed, s.sh.history, s.sh.f.state)
    ensures forall i :: 0 <= i < |s.sh.history| ==> !s.sh.history[i].forced
    ensures s.sh.history != [] ==> s.sh.f.failedCalls >= c.failureThreshold
  {
    var s0 := Initial(born, ids);
    InitialInvariant(born, ids);
    assert Where(s0.threads, Owes) == {};
    InvariantOverRuns(c, s0, acts, s);
    UnforcedOverRuns(c, s0, acts, s);
  }
}
