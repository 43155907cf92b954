/** Whole calls of the atomic circuit breaker that no other call interferes with:
    whatever its thread does and however long it takes, such a call leaves exactly
    what the sequential specification says. */
module UndisturbedCalls {
  import opened Common
  import opened AtomicBreaker
  import opened AtomicBreakerSafety
  import opened SequentialBreaker

  // ----- runs in which only thread t moves -----

  /** From s thread t alone moves, and comes back to Idle for the first time in s'. */
  ghost predicate AloneUntilIdle(c: Settings, s: State, t: nat, acts: seq<Action>, s': State)
    decreases |acts|
  {
    && t in s.threads
    && if acts == [] then s == s' && s.threads[t] == Idle
       else
         && Enabled(s, acts[0]) && (acts[0].Act? ==> acts[0].t == t) && s.threads[t] != Idle
         && AloneUntilIdle(c, Step(c, s, acts[0]), t, acts[1..], s')
  }

  /** What the protected function returned in the run, if it was called. */
  function FunctionOutcome(c: Settings, s: State, t: nat, acts: seq<Action>): Option<bool>
    decreases |acts|
  {
    if acts == [] || !Enabled(s, acts[0]) || t !in s.threads then None
    else if acts[0].Act? && s.threads[t] == CallFunction then Some(acts[0].ch.ok)
    else FunctionOutcome(c, Step(c, s, acts[0]), t, acts[1..])
  }

  /** The clock in the states of the run. */
  function Times(c: Settings, s: State, acts: seq<Action>): set<int>
    decreases |acts|
  {
    {s.sh.now} + if acts == [] || !Enabled(s, acts[0]) then {} else Times(c, Step(c, s, acts[0]), acts[1..])
  }

  /** The clock and all readings a thread holds are among the given times. */
  predicate Read(times: set<int>, now: int, pc: Pc, r: Readings) {
    && {now, r.check, r.probe, r.stamp, r.change} <= times
    && (pc.LoadLast? || pc.AddTime? || pc.StoreChange? ==> pc.at in times)
  }

  // ----- how far a call is -----

  function Begun(f: Fields): Fields {
    f.(totalCalls := f.totalCalls + 1)
  }

  function Probed(f: Fields, r: Readings): Fields {
    GoHalfOpen(Begun(f), r.probe)
  }

  function Failed(f: Fields, stamp: int): Fields {
    f.(failedCalls := f.failedCalls + 1, consecutiveFailures := f.consecutiveFailures + 1,
       consecutiveSuccesses := 0, lastFailureTime := stamp)
  }

  function Succeeded(f: Fields, stamp: int): Fields {
    f.(successfulCalls := f.successfulCalls + 1, consecutiveSuccesses := f.consecutiveSuccesses + 1,
       consecutiveFailures := 0, lastSuccessTime := stamp)
  }

  function Spent(f: Fields, g: Goal, at: int): Fields {
    if g.ToHalfOpen? then f.(timeInOpen := f.timeInOpen + (at - f.lastStateChange))
    else if g.ToClosed? then f.(timeInHalfOpen := f.timeInHalfOpen + (at - f.lastStateChange))
    else f
  }

  /** The fields in a critical section that was entered with f and makes its move. */
  function InSection(f: Fields, pc: Pc, at: int): Fields {
    match pc
    case ReadClock(g) => f.(state := Target(g))
    case LoadLast(g, _) => f.(state := Target(g))
    case AddTime(g, _, _) => f.(state := Target(g))
    case StoreChange(g, now) => Spent(f, g, now).(state := Target(g))
    case AddTransition(g) => Spent(f, g, at).(state := Target(g), lastStateChange := at)
    case Unlock(g) =>
      Spent(f, g, at).(state := Target(g), lastStateChange := at, stateTransitions := f.stateTransitions + 1)
    case _ => f
  }

  /** The facts a thread in a critical section can rely on: it holds the mutex, it
      is about to move or has moved, and its readings are those of the section. */
  predicate SectionFacts(f: Fields, pc: Pc, g: Goal, since: int, at: int, now: int) {
    && since <= now
    && match pc
       case Lock(_) => true
       case Swap(_) => true
       case SwapHalfOpen => g == ToOpen && f.state == HalfOpen
       case LoadOld(_) => true
       case StoreState(_, was) => was == f.state
       case ReadClock(_) => f.state != Target(g)
       case LoadLast(_, now') => f.state != Target(g) && since <= now' <= now && !g.ToOpen? && !IsForce(g)
       case AddTime(_, now', last) =>
         f.state != Target(g) && since <= now' <= now && last == f.lastStateChange && !g.ToOpen? && !IsForce(g)
       case StoreChange(_, now') => f.state != Target(g) && since <= now' <= now
       case AddTransition(_) => f.state != Target(g) && since <= at <= now
       case Unlock(_) => since <= at <= now
       case _ => false
  }

  /** The goal of the section a program counter is in. */
  function GoalOf(pc: Pc): Option<Goal> {
    match pc
    case Lock(g) => Some(g)
    case Swap(g) => Some(g)
    case SwapHalfOpen => Some(ToOpen)
    case LoadOld(g) => Some(g)
    case StoreState(g, _) => Some(g)
    case ReadClock(g) => Some(g)
    case LoadLast(g, _) => Some(g)
    case AddTime(g, _, _) => Some(g)
    case StoreChange(g, _) => Some(g)
    case AddTransition(g) => Some(g)
    case Unlock(g) => Some(g)
    case _ => None
  }

  /** What a section leaves; a Force section that finds its target leaves everything. */
  function Moved(f: Fields, g: Goal, at: int): Fields {
    if f.state == Target(g) then f else InSection(f, Unlock(g), at)
  }

  /** The section is one its thread enters in a state it can move from. */
  predicate Proper(f: Fields, g: Goal) {
    match g
    case ToOpen => f.state != Open
    case ToHalfOpen(_) => f.state == Open
    case ToClosed => f.state == HalfOpen
    case _ => true
  }

  predicate InGoal(sh: Shared, t: nat, f: Fields, pc: Pc, g: Goal, since: int, at: int) {
    && GoalOf(pc) == Some(g) && WellFormed(pc)
    && sh.mutex == (if pc.Lock? then None else Some(t))
    && SectionFacts(f, pc, g, since, at, sh.now)
    && sh.f == if pc.Unlock? then Moved(f, g, at) else InSection(f, pc, at)
  }

  /** The readings a step inside a section may add. */
  predicate NewReading(pc: Pc, pc': Pc, at: int, at': int, now: int) {
    && (at' == at || at' == now || (pc.StoreChange? && at' == pc.at))
    && (pc'.LoadLast? || pc'.AddTime? || pc'.StoreChange? ==>
          pc'.at == now || ((pc.LoadLast? || pc.AddTime?) && pc'.at == pc.at))
  }

  /** A thread that has not moved yet is one of these. */
  predicate Entering(pc: Pc) {
    pc.Lock? || pc.Swap? || pc.SwapHalfOpen? || pc.LoadOld? || pc.StoreState?
  }

  lemma EnteringStep(c: Settings, sh: Shared, t: nat, f: Fields, pc: Pc, g: Goal, since: int, at: int, ch: Choice)
    returns (at': int)
    requires InGoal(sh, t, f, pc, g, since, at) && Proper(f, g) && Entering(pc)
    ensures var (sh', pc') := PcStep(c, sh, t, pc, ch);
            InGoal(sh', t, f, pc', g, since, at') && NewReading(pc, pc', at, at', sh.now)
  {
    at' := if pc.Swap? || pc.StoreState? then sh.now else at;
  }

  lemma LeavingStep(c: Settings, sh: Shared, t: nat, f: Fields, pc: Pc, g: Goal, since: int, at: int, ch: Choice)
    returns (at': int)
    requires InGoal(sh, t, f, pc, g, since, at) && Proper(f, g) && !Entering(pc) && !pc.Unlock?
    ensures var (sh', pc') := PcStep(c, sh, t, pc, ch);
            InGoal(sh', t, f, pc', g, since, at') && NewReading(pc, pc', at, at', sh.now)
  {
    at' := if pc.StoreChange? then pc.at else at;
  }

  /** A step inside a section: it stays in it, or leaves the fields as Moved says. */
  lemma SectionStep(c: Settings, sh: Shared, t: nat, f: Fields, pc: Pc, g: Goal, since: int, at: int, ch: Choice)
    returns (at': int)
    requires InGoal(sh, t, f, pc, g, since, at) && Proper(f, g)
    ensures var (sh', pc') := PcStep(c, sh, t, pc, ch);
            if pc.Unlock? then
              && pc' == After(g) && sh'.mutex == None && sh'.f == Moved(f, g, at) && sh'.now == sh.now
              && since <= at <= sh.now
            else InGoal(sh', t, f, pc', g, since, at') && NewReading(pc, pc', at, at', sh.now)
  {
    if pc.Unlock? {
      at' := at;
    } else if Entering(pc) {
      at' := EnteringStep(c, sh, t, f, pc, g, since, at, ch);
    } else {
      at' := LeavingStep(c, sh, t, f, pc, g, since, at, ch);
    }
  }

  /** The whole sections are the transitions of the sequential specification. */
  lemma MovedIs(f: Fields, g: Goal, at: int)
    requires Proper(f, g)
    ensures Moved(f, g, at) == match g
                               case ToOpen => GoOpen(f, at)
                               case ToHalfOpen(_) => GoHalfOpen(f, at)
                               case ToClosed => GoClosed(f, at)
                               case _ => Forced(f, Target(g), at)
  {
  }

  /** What a call leaves, by the sequential specification. */
  function Left(c: Settings, start: Start, f: Fields, ok: bool, r: Readings): Fields {
    match start
    case Execute => Call(c, f, ok, r)
    case CallForceOpen => Forced(f, Open, r.change)
    case CallForceClose => Forced(f, Closed, r.change)
  }

  predicate InOrder(from: int, r: Readings, now: int) {
    from <= r.check <= r.probe <= r.stamp <= r.change <= now
  }

  /** The call is over and has left what it should. */
  predicate Over(c: Settings, start: Start, f0: Fields, from: int, sh: Shared, ok: bool, r: Readings) {
    sh.mutex == None && InOrder(from, r, sh.now) && sh.f == Left(c, start, f0, ok, r)
  }

  /** A thread that has begun an Execute call and not yet called the function. */
  predicate BeforeFunction(c: Settings, f0: Fields, from: int, sh: Shared, t: nat, pc: Pc, r: Readings) {
    && from <= sh.now
    && match GoalOf(pc)
       case Some(g) =>
         && f0.state == Open && g.ToHalfOpen? && Admits(c, f0, r.check) && from <= r.check
         && InGoal(sh, t, Begun(f0), pc, g, r.check, r.probe)
       case None =>
         && sh.mutex == None
         && match pc
            case LoadState => sh.f == Begun(f0)
            case LoadChange => sh.f == Begun(f0) && f0.state == Open
            case CompareClock(load) => sh.f == Begun(f0) && f0.state == Open && load.seen == f0.lastStateChange
            case AddRejected => sh.f == Begun(f0) && !Admits(c, f0, r.check) && from <= r.check <= sh.now
            case CallFunction =>
              sh.f == Probed(f0, r) && Admits(c, f0, r.check) && from <= r.check <= r.probe <= sh.now
            case _ => false
  }

  /** A thread whose function has failed; h are the fields when it was called. */
  predicate AfterFailure(c: Settings, h: Fields, sh: Shared, t: nat, pc: Pc, r: Readings) {
    && r.probe <= sh.now
    && match GoalOf(pc)
       case Some(g) =>
         && g == ToOpen && r.probe <= r.stamp
         && (h.state == HalfOpen || (h.state == Closed && h.consecutiveFailures + 1 >= c.failureThreshold))
         && InGoal(sh, t, Failed(h, r.stamp), pc, g, r.stamp, r.change)
       case None =>
         && sh.mutex == None
         && match pc
            case AddFailed => sh.f == h
            case AddFailures => sh.f == h.(failedCalls := h.failedCalls + 1)
            case ZeroSuccesses =>
              sh.f == h.(failedCalls := h.failedCalls + 1, consecutiveFailures := h.consecutiveFailures + 1)
            case StampFailure =>
              sh.f == h.(failedCalls := h.failedCalls + 1, consecutiveFailures := h.consecutiveFailures + 1,
                         consecutiveSuccesses := 0)
            case LoadStateF => sh.f == Failed(h, r.stamp) && r.probe <= r.stamp <= sh.now
            case LoadFailures(loaded) => sh.f == Failed(h, r.stamp) && loaded == h.state && r.probe <= r.stamp <= sh.now
            case _ => false
  }

  predicate AfterSuccess(h: Fields, sh: Shared, t: nat, pc: Pc, r: Readings) {
    && r.probe <= sh.now
    && match GoalOf(pc)
       case Some(g) =>
         && g == ToClosed && r.probe <= r.stamp && h.state == HalfOpen
         && InGoal(sh, t, Succeeded(h, r.stamp), pc, g, r.stamp, r.change)
       case None =>
         && sh.mutex == None
         && match pc
            case AddSuccessful => sh.f == h
            case AddSuccesses => sh.f == h.(successfulCalls := h.successfulCalls + 1)
            case ZeroFailures =>
              sh.f == h.(successfulCalls := h.successfulCalls + 1, consecutiveSuccesses := h.consecutiveSuccesses + 1)
            case StampSuccess =>
              sh.f == h.(successfulCalls := h.successfulCalls + 1, consecutiveSuccesses := h.consecutiveSuccesses + 1,
                         consecutiveFailures := 0)
            case LoadStateS => sh.f == Succeeded(h, r.stamp) && r.probe <= r.stamp <= sh.now
            case _ => false
  }

  datatype Phase = Before | Failing | Succeeding | Forcing

  /** How far the undisturbed call of thread t is. */
  predicate Underway(c: Settings, start: Start, f0: Fields, from: int, sh: Shared, t: nat, pc: Pc, r: Readings,
                     phase: Phase) {
    match phase
    case Before => start == Execute && BeforeFunction(c, f0, from, sh, t, pc, r)
    case Failing =>
      && start == Execute && Admits(c, f0, r.check) && from <= r.check <= r.probe
      && AfterFailure(c, Probed(f0, r), sh, t, pc, r)
    case Succeeding =>
      && start == Execute && Admits(c, f0, r.check) && from <= r.check <= r.probe
      && AfterSuccess(Probed(f0, r), sh, t, pc, r)
    case Forcing =>
      && start != Execute
      && var g := if start == CallForceOpen then ForceOpen else ForceClose;
         InGoal(sh, t, f0, pc, g, from, r.change)
  }

  lemma StepBefore(c: Settings, f0: Fields, from: int, sh: Shared, t: nat, pc: Pc, r: Readings, ch: Choice,
                   times: set<int>)
    returns (r': Readings)
    requires BeforeFunction(c, f0, from, sh, t, pc, r) && Read(times, sh.now, pc, r)
    ensures Read(times, sh.now, PcStep(c, sh, t, pc, ch).1, r')
    ensures var (sh', pc') := PcStep(c, sh, t, pc, ch);
            if pc.AddRejected? then pc' == Idle && Over(c, Execute, f0, from, sh', ch.ok, r')
            else if pc.CallFunction? then
              Underway(c, Execute, f0, from, sh', t, pc', r', if ch.ok then Succeeding else Failing)
            else BeforeFunction(c, f0, from, sh', t, pc', r')
    ensures pc.AddRejected? ==> !Admits(c, f0, r'.check)
  {
    hide Moved;
    r' := r;
    if GoalOf(pc).Some? {
      var g := GoalOf(pc).value;
      MovedIs(Begun(f0), g, r.probe);
      var at := SectionStep(c, sh, t, Begun(f0), pc, g, r.check, r.probe, ch);
      r' := if pc.Unlock? then r else r.(probe := at);
    } else if pc.CompareClock? {
      r' := Readings(sh.now, sh.now, sh.now, sh.now);
    } else if pc.AddRejected? {
      r' := Readings(r.check, r.check, r.check, r.check);
    } else if pc.LoadState? {
      r' := Readings(sh.now, sh.now, sh.now, sh.now);
    }
  }

  lemma StepFailingSection(c: Settings, f0: Fields, from: int, sh: Shared, t: nat, pc: Pc, r: Readings, ch: Choice,
                           times: set<int>)
    returns (r': Readings)
    requires Underway(c, Execute, f0, from, sh, t, pc, r, Failing) && Read(times, sh.now, pc, r) && GoalOf(pc).Some?
    ensures Read(times, sh.now, PcStep(c, sh, t, pc, ch).1, r') && r'.check == r.check
    ensures var (sh', pc') := PcStep(c, sh, t, pc, ch);
            if pc.Unlock? then pc' == Idle && Over(c, Execute, f0, from, sh', false, r')
            else Underway(c, Execute, f0, from, sh', t, pc', r', Failing)
  {
    hide PcStep, Moved, InSection;
    var f := Failed(Probed(f0, r), r.stamp);
    MovedIs(f, ToOpen, r.change);
    var at := SectionStep(c, sh, t, f, pc, ToOpen, r.stamp, r.change, ch);
    r' := if pc.Unlock? then r else r.(change := at);
  }

  lemma StepFailingPlain(c: Settings, f0: Fields, from: int, sh: Shared, t: nat, pc: Pc, r: Readings, ch: Choice,
                         times: set<int>)
    returns (r': Readings)
    requires Underway(c, Execute, f0, from, sh, t, pc, r, Failing) && Read(times, sh.now, pc, r) && GoalOf(pc).None?
    ensures Read(times, sh.now, PcStep(c, sh, t, pc, ch).1, r') && r'.check == r.check
    ensures var (sh', pc') := PcStep(c, sh, t, pc, ch);
            if pc' == Idle then Over(c, Execute, f0, from, sh', false, r')
            else Underway(c, Execute, f0, from, sh', t, pc', r', Failing)
  {
    r' := if pc.StampFailure? then r.(stamp := sh.now, change := sh.now)
          else if pc.LoadFailures? then r.(change := sh.now) else r;
  }

  lemma StepFailing(c: Settings, f0: Fields, from: int, sh: Shared, t: nat, pc: Pc, r: Readings, ch: Choice,
                    times: set<int>)
    returns (r': Readings)
    requires Underway(c, Execute, f0, from, sh, t, pc, r, Failing) && Read(times, sh.now, pc, r)
    ensures Read(times, sh.now, PcStep(c, sh, t, pc, ch).1, r') && r'.check == r.check
    ensures var (sh', pc') := PcStep(c, sh, t, pc, ch);
            if pc' == Idle then Over(c, Execute, f0, from, sh', false, r')
            else Underway(c, Execute, f0, from, sh', t, pc', r', Failing)
  {
    hide PcStep, Over, InGoal;
    if GoalOf(pc).Some? {
      r' := StepFailingSection(c, f0, from, sh, t, pc, r, ch, times);
    } else {
      r' := StepFailingPlain(c, f0, from, sh, t, pc, r, ch, times);
    }
  }

  lemma StepSucceedingSection(c: Settings, f0: Fields, from: int, sh: Shared, t: nat, pc: Pc, r: Readings, ch: Choice,
                              times: set<int>)
    returns (r': Readings)
    requires Underway(c, Execute, f0, from, sh, t, pc, r, Succeeding) && Read(times, sh.now, pc, r) && GoalOf(pc).Some?
    ensures Read(times, sh.now, PcStep(c, sh, t, pc, ch).1, r') && r'.check == r.check
    ensures var (sh', pc') := PcStep(c, sh, t, pc, ch);
            if pc.Unlock? then pc' == Idle && Over(c, Execute, f0, from, sh', true, r')
            else Underway(c, Execute, f0, from, sh', t, pc', r', Succeeding)
  {
    hide PcStep, Moved, InSection;
    var f := Succeeded(Probed(f0, r), r.stamp);
    MovedIs(f, ToClosed, r.change);
    var at := SectionStep(c, sh, t, f, pc, ToClosed, r.stamp, r.change, ch);
    r' := if pc.Unlock? then r else r.(change := at);
  }

  lemma StepSucceedingPlain(c: Settings, f0: Fields, from: int, sh: Shared, t: nat, pc: Pc, r: Readings, ch: Choice,
                            times: set<int>)
    returns (r': Readings)
    requires Underway(c, Execute, f0, from, sh, t, pc, r, Succeeding) && Read(times, sh.now, pc, r) && GoalOf(pc).None?
    ensures Read(times, sh.now, PcStep(c, sh, t, pc, ch).1, r') && r'.check == r.check
    ensures var (sh', pc') := PcStep(c, sh, t, pc, ch);
            if pc' == Idle then Over(c, Execute, f0, from, sh', true, r')
            else Underway(c, Execute, f0, from, sh', t, pc', r', Succeeding)
  {
    r' := if pc.StampSuccess? then r.(stamp := sh.now, change := sh.now)
          else if pc.LoadStateS? then r.(change := sh.now) else r;
  }

  lemma StepSucceeding(c: Settings, f0: Fields, from: int, sh: Shared, t: nat, pc: Pc, r: Readings, ch: Choice,
                       times: set<int>)
    returns (r': Readings)
    requires Underway(c, Execute, f0, from, sh, t, pc, r, Succeeding) && Read(times, sh.now, pc, r)
    ensures Read(times, sh.now, PcStep(c, sh, t, pc, ch).1, r') && r'.check == r.check
    ensures var (sh', pc') := PcStep(c, sh, t, pc, ch);
            if pc' == Idle then Over(c, Execute, f0, from, sh', true, r')
            else Underway(c, Execute, f0, from, sh', t, pc', r', Succeeding)
  {
    hide PcStep, Over, InGoal;
    if GoalOf(pc).Some? {
      r' := StepSucceedingSection(c, f0, from, sh, t, pc, r, ch, times);
    } else {
      r' := StepSucceedingPlain(c, f0, from, sh, t, pc, r, ch, times);
    }
  }

  lemma StepForcing(c: Settings, start: Start, f0: Fields, from: int, sh: Shared, t: nat, pc: Pc, r: Readings,
                    ch: Choice, times: set<int>)
    returns (r': Readings)
    requires Underway(c, start, f0, from, sh, t, pc, r, Forcing) && Read(times, sh.now, pc, r) && from in times
    ensures Read(times, sh.now, PcStep(c, sh, t, pc, ch).1, r')
    ensures var (sh', pc') := PcStep(c, sh, t, pc, ch);
            if pc' == Idle then Over(c, start, f0, from, sh', ch.ok, r')
            else Underway(c, start, f0, from, sh', t, pc', r', Forcing)
  {
    hide Moved, InSection;
    MovedIs(f0, GoalOf(pc).value, r.change);
    var at := SectionStep(c, sh, t, f0, pc, GoalOf(pc).value, from, r.change, ch);
    r' := if pc.Unlock? then Readings(from, from, from, r.change) else r.(change := at);
  }

  lemma TickUnderway(c: Settings, start: Start, f0: Fields, from: int, sh: Shared, t: nat, pc: Pc, r: Readings,
                     phase: Phase, d: nat)
    requires Underway(c, start, f0, from, sh, t, pc, r, phase)
    ensures Underway(c, start, f0, from, sh.(now := sh.now + d), t, pc, r, phase)
  {
  }

  /** Any one operation of a call under way: it goes on, or it is over. */
  lemma StepUnderway(c: Settings, start: Start, f0: Fields, from: int, sh: Shared, t: nat, pc: Pc, r: Readings,
                     phase: Phase, ch: Choice, times: set<int>)
    returns (r': Readings, phase': Phase)
    requires Underway(c, start, f0, from, sh, t, pc, r, phase) && Read(times, sh.now, pc, r) && from in times
    ensures Read(times, sh.now, PcStep(c, sh, t, pc, ch).1, r')
    ensures var (sh', pc') := PcStep(c, sh, t, pc, ch);
            if pc' == Idle then Over(c, start, f0, from, sh', OkAfter(phase, ch), r') && pc != CallFunction
            else
              && Underway(c, start, f0, from, sh', t, pc', r', phase')
              && phase' == if pc != CallFunction then phase else if ch.ok then Succeeding else Failing
    ensures pc == CallFunction ==> phase == Before
    ensures PcStep(c, sh, t, pc, ch).1 == Idle && phase == Before ==> !Admits(c, f0, r'.check)
    ensures phase == Failing || phase == Succeeding ==> Admits(c, f0, r'.check)
  {
    hide Over, Moved, InSection, SectionFacts, Call, Probed, Failed, Succeeded;
    phase' := phase;
    match phase {
      case Before =>
        r' := StepBefore(c, f0, from, sh, t, pc, r, ch, times);
        if pc.CallFunction? {
          phase' := if ch.ok then Succeeding else Failing;
        }
      case Failing => r' := StepFailing(c, f0, from, sh, t, pc, r, ch, times);
      case Succeeding => r' := StepSucceeding(c, f0, from, sh, t, pc, r, ch, times);
      case Forcing => r' := StepForcing(c, start, f0, from, sh, t, pc, r, ch, times);
    }
  }

  /** The outcome of the protected function in this phase; without one it does not matter. */
  function OkAfter(phase: Phase, ch: Choice): bool {
    if phase == Failing then false else if phase == Succeeding then true else ch.ok
  }

  lemma {:induction false} RunUnderway(c: Settings, start: Start, f0: Fields, from: int, s: State, t: nat,
                                       acts: seq<Action>, s': State, r: Readings, phase: Phase, times: set<int>)
    returns (r': Readings, ok: bool)
    requires AloneUntilIdle(c, s, t, acts, s') && s.threads[t] != Idle
    requires Underway(c, start, f0, from, s.sh, t, s.threads[t], r, phase)
    requires Read(times, s.sh.now, s.threads[t], r) && from in times && Times(c, s, acts) <= times
    ensures {r'.check, r'.probe, r'.stamp, r'.change} <= times
    ensures Over(c, start, f0, from, s'.sh, ok, r') && s'.threads == s.threads[t := Idle]
    ensures phase == Failing || phase == Succeeding ==> ok == (phase == Succeeding) && Admits(c, f0, r'.check)
    ensures phase == Before ==>
              FunctionOutcome(c, s, t, acts) == if Admits(c, f0, r'.check) then Some(ok) else None
    decreases |acts|
  {
    hide PcStep, Underway, Over, Admits;
    var a, s1 := acts[0], Step(c, s, acts[0]);
    if a.Tick? {
      TickUnderway(c, start, f0, from, s.sh, t, s.threads[t], r, phase, a.d);
      r', ok := RunUnderway(c, start, f0, from, s1, t, acts[1..], s', r, phase, times);
    } else {
      var r1, phase1 := StepUnderway(c, start, f0, from, s.sh, t, s.threads[t], r, phase, a.ch, times);
      if s1.threads[t] == Idle {
        r', ok := r1, OkAfter(phase, a.ch);
        assert acts[1..] == [];
      } else {
        r', ok := RunUnderway(c, start, f0, from, s1, t, acts[1..], s', r1, phase1, times);
      }
    }
  }

  /** Every undisturbed call, of any kind and from any state in which nobody is in a
      critical section: it leaves what the sequential specification says for clock
      readings taken in order during the call, calls the function exactly if the
      specification admits it, and touches no other thread. */
  lemma UndisturbedCall(c: Settings, s: State, t: nat, ch: Choice, acts: seq<Action>, s': State)
    returns (r: Readings, ok: bool)
    requires t in s.threads && s.threads[t] == Idle && s.sh.mutex == None
    requires AloneUntilIdle(c, Step(c, s, Act(t, ch)), t, acts, s')
    ensures s.sh.now <= r.check <= r.probe <= r.stamp <= r.change <= s'.sh.now
    ensures {r.check, r.probe, r.stamp, r.change} <= Times(c, Step(c, s, Act(t, ch)), acts)
    ensures s'.sh.f == Left(c, ch.start, s.sh.f, ok, r)
    ensures s'.sh.mutex == None && s'.threads == s.threads
    ensures ch.start == Execute ==>
              FunctionOutcome(c, Step(c, s, Act(t, ch)), t, acts) ==
              if Admits(c, s.sh.f, r.check) then Some(ok) else None
  {
    var now := s.sh.now;
    var phase := if ch.start == Execute then Before else Forcing;
    var s1 := Step(c, s, Act(t, ch));
    var start, times := Readings(now, now, now, now), Times(c, s1, acts);
    r, ok := RunUnderway(c, ch.start, s.sh.f, now, s1, t, acts, s', start, phase, times);
    assert s.threads[t := Idle] == s.threads;
  }
}
