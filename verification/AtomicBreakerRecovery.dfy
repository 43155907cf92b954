/** When the atomic circuit breaker keeps its recovery timeout.  A call compares the
    clock with a value of lastStateChange it loaded before, and swaps the state later,
    so the swap relies on a load that may be out of date. */
module AtomicBreakerRecovery {
  import opened Common
  import opened AtomicBreaker
  import opened AtomicBreakerSafety

  /** The holder has changed the state and not yet stored the time of the change. */
  predicate Unstamped(pc: Pc) {
    pc.ReadClock? || pc.LoadLast? || pc.AddTime? || pc.StoreChange?
  }

  /** All changes but one that is just being made have had their times stored, and
      lastStateChange is no earlier than the last of them. */
  predicate StampData(sh: Shared, holder: Pc) {
    var h := sh.history;
    && |h| == sh.stamped + (if Unstamped(holder) then 1 else 0)
    && (sh.stamped > 0 ==> h[sh.stamped - 1].at <= sh.f.lastStateChange)
    && (holder.ReadClock? ==> h[|h| - 1].at <= sh.now)
    && (holder.LoadLast? || holder.AddTime? || holder.StoreChange? ==> h[|h| - 1].at <= holder.at)
  }

  /** A load saw what was stored then, which still stands if no change was stamped since. */
  predicate LoadData(sh: Shared, load: Load) {
    && load.stamped <= sh.stamped
    && (load.stamped == sh.stamped ==> load.seen == sh.f.lastStateChange)
  }

  /** A thread on its way to the half-open state found the timeout over by its load. */
  predicate LoadKept(c: Settings, sh: Shared, pc: Pc) {
    match pc
    case CompareClock(load) => LoadData(sh, load)
    case Lock(g) => g.ToHalfOpen? ==> LoadData(sh, g.load) && sh.now - g.load.seen >= c.recoveryTimeout
    case Swap(g) => g.ToHalfOpen? ==> LoadData(sh, g.load) && sh.now - g.load.seen >= c.recoveryTimeout
    case _ => true
  }

  /** Change number i, if a recovery, relied on a load by which the timeout was over;
      and either that load was out of date or it saw lastStateChange as it was at the
      change, which is no earlier than the opening that the change ends. */
  predicate RecoveryKept(c: Settings, h: seq<Edge>, i: nat)
    requires i < |h|
  {
    var e := h[i];
    && (e.load.Some? <==> e.to == HalfOpen && !e.forced)
    && e.last <= e.at && (i > 0 ==> h[i - 1].at <= e.last)
    && (e.load.Some? ==>
          && e.at - e.load.value.seen >= c.recoveryTimeout
          && e.load.value.stamped <= i
          && (e.load.value.stamped == i ==> e.load.value.seen == e.last))
  }

  predicate HistoryKept(c: Settings, h: seq<Edge>) {
    forall i :: 0 <= i < |h| ==> RecoveryKept(c, h, i)
  }

  ghost predicate Recovery(c: Settings, s: State) {
    && StampData(s.sh, Holder(s))
    && HistoryKept(c, s.sh.history)
    && (forall t :: t in s.threads ==> LoadKept(c, s.sh, s.threads[t]))
  }

  lemma SectionKeepsStamps(c: Settings, sh: Shared, t: nat, pc: Pc, ch: Choice)
    requires StampData(sh, pc) && WellFormed(pc) && InCritical(pc)
    requires pc.StoreState? ==> pc.was == sh.f.state
    ensures var (sh', pc') := PcStep(c, sh, t, pc, ch); StampData(sh', HolderAfter(pc, pc', pc))
  {
  }

  /** One operation keeps the stamps. */
  lemma StepKeepsStamps(c: Settings, sh: Shared, t: nat, pc: Pc, ch: Choice, holder: Pc)
    requires StampData(sh, holder) && WellFormed(pc)
    requires holder.StoreState? ==> holder.was == sh.f.state
    requires InCritical(pc) ==> holder == pc && sh.mutex == Some(t)
    requires pc.Lock? ==> sh.mutex == None
    requires sh.mutex == None ==> holder == Idle
    ensures var (sh', pc') := PcStep(c, sh, t, pc, ch); StampData(sh', HolderAfter(pc, pc', holder))
  {
    hide PcStep;
    if InCritical(pc) {
      SectionKeepsStamps(c, sh, t, pc, ch);
    } else {
      OutsideSections(c, sh, t, pc, ch);
    }
  }

  /** It appends to the history, and what it appends relies on its own thread's load. */
  lemma StepKeepsHistory(c: Settings, sh: Shared, t: nat, pc: Pc, ch: Choice, holder: Pc)
    requires StampData(sh, holder) && HistoryKept(c, sh.history) && LoadKept(c, sh, pc) && WellFormed(pc)
    requires InCritical(pc) ==> holder == pc
    requires sh.f.lastStateChange <= sh.now
    ensures HistoryKept(c, PcStep(c, sh, t, pc, ch).0.history)
  {
    var h, h' := sh.history, PcStep(c, sh, t, pc, ch).0.history;
    if h' != h {
      forall i | 0 <= i < |h'| ensures RecoveryKept(c, h', i) {
        if i < |h| {
          assert RecoveryKept(c, h, i);
          assert h'[i] == h[i] && (i > 0 ==> h'[i - 1] == h[i - 1]);
        }
      }
    }
  }

  /** It keeps the loads, those of other threads included. */
  lemma StepKeepsLoads(c: Settings, sh: Shared, t: nat, pc: Pc, ch: Choice, other: Pc)
    requires LoadKept(c, sh, pc) && LoadKept(c, sh, other) && WellFormed(pc)
    ensures var (sh', pc') := PcStep(c, sh, t, pc, ch); LoadKept(c, sh', pc') && LoadKept(c, sh', other)
  {
  }

  lemma StepKeepsRecovery(c: Settings, s: State, a: Action)
    requires Invariant(s) && Recovery(c, s) && Enabled(s, a)
    ensures Recovery(c, Step(c, s, a))
  {
    hide PcStep, StampData, HistoryKept, LoadKept, Accounted;
    if a.Act? {
      var pc := s.threads[a.t];
      StepKeepsStamps(c, s.sh, a.t, pc, a.ch, Holder(s));
      StepKeepsHistory(c, s.sh, a.t, pc, a.ch, Holder(s));
      forall t | t in s.threads {
        StepKeepsLoads(c, s.sh, a.t, pc, a.ch, s.threads[t]);
      }
      HolderStep(c, s, a);
    } else {
      TickKeepsRecovery(c, s, a);
    }
  }

  lemma TickKeepsRecovery(c: Settings, s: State, a: Action)
    requires Recovery(c, s) && a.Tick?
    ensures Recovery(c, Step(c, s, a))
  {
  }

  lemma {:induction false} RecoveryOverRuns(c: Settings, s: State, acts: seq<Action>, s': State)
    requires Invariant(s) && Recovery(c, s) && Executes(c, s, acts, s')
    ensures Recovery(c, s')
    decreases |acts|
  {
    if acts != [] {
      StepKeepsRecovery(c, s, acts[0]);
      StepKeepsInvariant(c, s, acts[0]);
      RecoveryOverRuns(c, Step(c, s, acts[0]), acts[1..], s');
    }
  }

  /** Change number i ends the open state less than the timeout after the time stored
      for the opening. */
  predicate Early(c: Settings, h: seq<Edge>, i: nat) {
    i < |h| && h[i].load.Some? && h[i].at - h[i].last < c.recoveryTimeout
  }

  /** Change number i relies on a load made before the time of the opening was stored. */
  predicate Stale(h: seq<Edge>, i: nat) {
    i < |h| && h[i].load.Some? && h[i].load.value.stamped < i
  }

  /** In every interleaving, every move the breaker makes from open to half-open comes
      at least a timeout after the lastStateChange its call loaded.  So if that load
      was made after the opening had stored its time, the whole timeout has passed
      since then, and since the opening itself; an early move is always a stale one. */
  lemma RecoveryTimeout(c: Settings, born: int, ids: set<nat>, acts: seq<Action>, s: State, i: nat)
    requires Executes(c, Initial(born, ids), acts, s)
    requires i < |s.sh.history| && s.sh.history[i].to == HalfOpen && !s.sh.history[i].forced
    ensures var h := s.sh.history;
            && i > 0 && h[i - 1].to == h[i].from == Open && h[i].load.Some?
            && h[i].at - h[i].load.value.seen >= c.recoveryTimeout
            && (!Stale(h, i) ==>
                  && h[i].load.value.seen == h[i].last
                  && h[i].at - h[i].last >= c.recoveryTimeout
                  && h[i].at - h[i - 1].at >= c.recoveryTimeout)
            && (Early(c, h, i) ==> Stale(h, i))
  {
    InitialInvariant(born, ids);
    InvariantOverRuns(c, Initial(born, ids), acts, s);
    RecoveryOverRuns(c, Initial(born, ids), acts, s);
    PathStep(Closed, s.sh.history, s.sh.f.state, i);
    assert RecoveryKept(c, s.sh.history, i);
  }

  lemma {:induction false} PathStep(from: CircuitState, h: seq<Edge>, to: CircuitState, i: nat)
    requires Path(from, h, to) && i < |h|
    ensures Allowed(h[i]) && h[i].from == if i == 0 then from else h[i - 1].to
    decreases |h|
  {
    var before := h[..|h| - 1];
    if i < |before| {
      PathStep(from, before, h[|h| - 1].from, i);
    } else if before != [] {
      PathEnds(from, before, h[i].from);
    }
  }

  lemma PathEnds(from: CircuitState, h: seq<Edge>, to: CircuitState)
    requires Path(from, h, to) && h != []
    ensures h[|h| - 1].to == to
  {
  }
}
