/** The circuit breaker built on atomics.  One step is one atomic operation (a
    load, a store, an add, a compare-and-swap, a clock reading, taking or
    releasing the mutex), so a sequence of steps of different threads is an
    interleaving of concurrent calls. */
module AtomicBreaker {
  import opened Common

  datatype Settings = Settings(failureThreshold: int, recoveryTimeout: int)

  /** The atomic fields of the object. */
  datatype Fields = Fields(
    state: CircuitState,
    consecutiveFailures: int,
    consecutiveSuccesses: int,
    lastFailureTime: int,
    lastSuccessTime: int,
    totalCalls: int,
    successfulCalls: int,
    failedCalls: int,
    rejectedCalls: int,
    stateTransitions: int,
    timeInOpen: int,
    timeInHalfOpen: int,
    lastStateChange: int)

  function NewFields(now: int): Fields {
    Fields(Closed, 0, 0, 0, 0, 0, 0, 0, 0, 0, 0, 0, now)
  }

  /** A load of lastStateChange: the value, and how many changes had been stamped. */
  datatype Load = Load(seen: int, stamped: nat)

  /** A state change that happened: whether a Force call made it, the clock and
      lastStateChange at that moment, and for a recovery the load it relies on. */
  datatype Edge = Edge(from: CircuitState, to: CircuitState, forced: bool, at: int, last: int, load: Option<Load>)

  /** The object, its mutex and the clock; then the run so far: the changes, and how
      many of them have had their time stored in lastStateChange. */
  datatype Shared = Shared(f: Fields, mutex: Option<nat>, now: int, born: int, history: seq<Edge>, stamped: nat)

  /** The critical sections; a recovery remembers the load it relies on. */
  datatype Goal = ToOpen | ToHalfOpen(load: Load) | ToClosed | ForceOpen | ForceClose

  /** Where a thread stands: the name says what it does next. */
  datatype Pc =
    | Idle
    // Execute
    | LoadState
    | LoadChange
    | CompareClock(load: Load)
    | AddRejected
    | CallFunction
    // onFailure
    | AddFailed | AddFailures | ZeroSuccesses | StampFailure | LoadStateF | LoadFailures(loaded: CircuitState)
    // onSuccess
    | AddSuccessful | AddSuccesses | ZeroFailures | StampSuccess | LoadStateS
    // critical sections
    | Lock(goal: Goal)
    | Swap(goal: Goal)
    | SwapHalfOpen
    | LoadOld(goal: Goal)
    | StoreState(goal: Goal, was: CircuitState)
    | ReadClock(goal: Goal)
    | LoadLast(goal: Goal, at: int)
    | AddTime(goal: Goal, at: int, last: int)
    | StoreChange(goal: Goal, at: int)
    | AddTransition(goal: Goal)
    | Unlock(goal: Goal)

  datatype Start = Execute | CallForceOpen | CallForceClose

  /** What the program leaves open: which call an idle thread makes, and
      whether the protected function succeeds. */
  datatype Choice = Choice(start: Start, ok: bool)

  function Target(g: Goal): CircuitState {
    match g
    case ToOpen => Open
    case ForceOpen => Open
    case ToHalfOpen(_) => HalfOpen
    case ToClosed => Closed
    case ForceClose => Closed
  }

  predicate IsForce(g: Goal) {
    g.ForceOpen? || g.ForceClose?
  }

  /** The state the first compare-and-swap of a section expects. */
  function Expected(g: Goal): CircuitState {
    match g
    case ToHalfOpen(_) => Open
    case ToClosed => HalfOpen
    case _ => Closed
  }

  /** Where a thread goes on after its critical section. */
  function After(g: Goal): Pc {
    if g.ToHalfOpen? then CallFunction else Idle
  }

  function Move(sh: Shared, g: Goal): Shared {
    var load := if g.ToHalfOpen? then Some(g.load) else None;
    sh.(f := sh.f.(state := Target(g)),
        history := sh.history + [Edge(sh.f.state, Target(g), IsForce(g), sh.now, sh.f.lastStateChange, load)])
  }

  /** The next atomic operation of thread t. */
  function PcStep(c: Settings, sh: Shared, t: nat, pc: Pc, ch: Choice): (Shared, Pc) {
    var f := sh.f;
    match pc
    case Idle =>
      (match ch.start
       case Execute => (sh.(f := f.(totalCalls := f.totalCalls + 1)), LoadState)
       case CallForceOpen => (sh, Lock(ForceOpen))
       case CallForceClose => (sh, Lock(ForceClose)))
    case LoadState => (sh, if f.state == Open then LoadChange else CallFunction)
    case LoadChange => (sh, CompareClock(Load(f.lastStateChange, sh.stamped)))
    case CompareClock(load) =>
      (sh, if sh.now - load.seen >= c.recoveryTimeout then Lock(ToHalfOpen(load)) else AddRejected)
    case AddRejected => (sh.(f := f.(rejectedCalls := f.rejectedCalls + 1)), Idle)
    case CallFunction => (sh, if ch.ok then AddSuccessful else AddFailed)
    case AddFailed => (sh.(f := f.(failedCalls := f.failedCalls + 1)), AddFailures)
    case AddFailures => (sh.(f := f.(consecutiveFailures := f.consecutiveFailures + 1)), ZeroSuccesses)
    case ZeroSuccesses => (sh.(f := f.(consecutiveSuccesses := 0)), StampFailure)
    case StampFailure => (sh.(f := f.(lastFailureTime := sh.now)), LoadStateF)
    case LoadStateF => (sh, LoadFailures(f.state))
    case LoadFailures(loaded) =>
      (sh, if loaded == Closed && f.consecutiveFailures >= c.failureThreshold then Lock(ToOpen)
           else if loaded == HalfOpen then Lock(ToOpen) else Idle)
    case AddSuccessful => (sh.(f := f.(successfulCalls := f.successfulCalls + 1)), AddSuccesses)
    case AddSuccesses => (sh.(f := f.(consecutiveSuccesses := f.consecutiveSuccesses + 1)), ZeroFailures)
    case ZeroFailures => (sh.(f := f.(consecutiveFailures := 0)), StampSuccess)
    case StampSuccess => (sh.(f := f.(lastSuccessTime := sh.now)), LoadStateS)
    case LoadStateS => (sh, if f.state == HalfOpen then Lock(ToClosed) else Idle)
    case Lock(g) => (sh.(mutex := Some(t)), if IsForce(g) then LoadOld(g) else Swap(g))
    case Swap(g) =>
      if f.state == Expected(g) then (Move(sh, g), ReadClock(g))
      else (sh, if g == ToOpen then SwapHalfOpen else Unlock(g))
    case SwapHalfOpen =>
      if f.state == HalfOpen then (Move(sh, ToOpen), ReadClock(ToOpen)) else (sh, Unlock(ToOpen))
    case LoadOld(g) => (sh, StoreState(g, f.state))
    case StoreState(g, was) =>
      (if f.state == Target(g) then sh else Move(sh, g),
       if was == Target(g) then Unlock(g) else ReadClock(g))
    case ReadClock(g) =>
      (sh, if g.ToHalfOpen? || g.ToClosed? then LoadLast(g, sh.now) else StoreChange(g, sh.now))
    case LoadLast(g, at) => (sh, AddTime(g, at, f.lastStateChange))
    case AddTime(g, at, last) =>
      (sh.(f := if g.ToHalfOpen? then f.(timeInOpen := f.timeInOpen + (at - last))
                else f.(timeInHalfOpen := f.timeInHalfOpen + (at - last))),
       StoreChange(g, at))
    case StoreChange(g, at) =>
      (sh.(f := f.(lastStateChange := at), stamped := sh.stamped + 1), AddTransition(g))
    case AddTransition(g) => (sh.(f := f.(stateTransitions := f.stateTransitions + 1)), Unlock(g))
    case Unlock(g) => (sh.(mutex := None), After(g))
  }

  datatype State = State(sh: Shared, threads: map<nat, Pc>)

  /** Either the clock advances or a thread performs its next operation. */
  datatype Action = Tick(d: nat) | Act(t: nat, ch: Choice)

  /** Only taking a held mutex blocks. */
  predicate Enabled(s: State, a: Action) {
    a.Act? ==> a.t in s.threads && (s.threads[a.t].Lock? ==> s.sh.mutex == None)
  }

  function Step(c: Settings, s: State, a: Action): State
    requires Enabled(s, a)
  {
    match a
    case Tick(d) => s.(sh := s.sh.(now := s.sh.now + d))
    case Act(t, ch) =>
      var (sh', pc') := PcStep(c, s.sh, t, s.threads[t], ch);
      State(sh', s.threads[t := pc'])
  }

  /** A breaker created at time now, and any finite number of threads about to use it. */
  function Initial(now: int, ids: set<nat>): State {
    State(Shared(NewFields(now), None, now, now, [], 0), map t | t in ids :: Idle)
  }

  ghost predicate Executes(c: Settings, s: State, acts: seq<Action>, s': State)
    decreases |acts|
  {
    if acts == [] then s == s'
    else Enabled(s, acts[0]) && Executes(c, Step(c, s, acts[0]), acts[1..], s')
  }
}
