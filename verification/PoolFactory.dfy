/** Memoized creation of the database pool: double-checked locking over a
    read-write lock, with resets by UpdateDatabaseConfig and Close. */
module PoolFactory {
  import opened Common

  /** Pools are numbered in the order of their creation. */
  type Pool = nat

  datatype Pc =
    | Idle
    // GetDatabasePool
    | ReadLock | FirstCheck | ReadUnlock(seen: Option<Answer>)
    | WriteLock | SecondCheck | CountAttempt | Create | Store(made: Pool) | CountCreation
    | Unlock(result: Option<Answer>)
    // UpdateDatabaseConfig and Close
    | ResetLock | ClosePool | ClearPool | ResetUnlock

  /** What a call of GetDatabasePool has read: the pool, and how many resets had happened
      by then. */
  datatype Answer = Answer(pool: Pool, epoch: nat)

  datatype State = State(
    pool: Option<Pool>,
    creationCount: int,
    creationAttempts: int,
    readers: set<nat>,
    writer: Option<nat>,
    threads: map<nat, Pc>,
    // the run so far
    created: nat,
    closed: seq<Pool>,
    epoch: nat,
    // the pools read, those returned, and the calls that returned an error
    answers: seq<Answer>,
    returned: seq<Answer>,
    failures: nat)

  function Initial(ids: set<nat>): State {
    State(None, 0, 0, {}, None, map t | t in ids :: Idle, 0, [], 0, [], [], 0)
  }

  /** What the program leaves open: the call an idle thread makes, and whether
      creating a pool succeeds. */
  datatype Choice = Choice(get: bool, succeeds: bool)

  predicate Enabled(s: State, t: nat) {
    t in s.threads
    && match s.threads[t]
       case ReadLock => s.writer == None
       case WriteLock | ResetLock => s.writer == None && s.readers == {}
       case _ => true
  }

  function Step(s: State, t: nat, ch: Choice): State
    requires Enabled(s, t)
  {
    var (s', pc') := PcStep(s, t, s.threads[t], ch);
    s'.(threads := s.threads[t := pc'])
  }

  function Read(s: State): Option<Answer> {
    if s.pool.Some? then Some(Answer(s.pool.value, s.epoch)) else None
  }

  function Logged(s: State): State {
    if s.pool.Some? then s.(answers := s.answers + [Answer(s.pool.value, s.epoch)]) else s
  }

  function Returned(s: State, a: Option<Answer>): State {
    if a.Some? then s.(returned := s.returned + [a.value]) else s
  }

  /** The next operation of thread t. */
  function PcStep(s: State, t: nat, pc: Pc, ch: Choice): (State, Pc) {
    match pc
    case Idle => (s, if ch.get then ReadLock else ResetLock)
    case ReadLock => (s.(readers := s.readers + {t}), FirstCheck)
    case FirstCheck => (Logged(s), ReadUnlock(Read(s)))
    case ReadUnlock(seen) =>
      (Returned(s.(readers := s.readers - {t}), seen), if seen.Some? then Idle else WriteLock)
    case WriteLock => (s.(writer := Some(t)), SecondCheck)
    case SecondCheck => (Logged(s), if s.pool.Some? then Unlock(Read(s)) else CountAttempt)
    case CountAttempt => (s.(creationAttempts := s.creationAttempts + 1), Create)
    case Create => if ch.succeeds then (s.(created := s.created + 1), Store(s.created)) else (s, Unlock(None))
    case Store(made) => (s.(pool := Some(made)), CountCreation)
    case CountCreation => (Logged(s.(creationCount := s.creationCount + 1)), Unlock(Read(s)))
    case Unlock(result) =>
      (Returned(s.(writer := None, failures := s.failures + if result.None? then 1 else 0), result), Idle)
    case ResetLock => (s.(writer := Some(t)), ClosePool)
    case ClosePool => (if s.pool.Some? then s.(closed := s.closed + [s.pool.value]) else s, ClearPool)
    case ClearPool => (s.(pool := None, epoch := s.epoch + 1), ResetUnlock)
    case ResetUnlock => (s.(writer := None), Idle)
  }

  ghost predicate Executes(s: State, steps: seq<(nat, Choice)>, s': State)
    decreases |steps|
  {
    if steps == [] then s == s'
    else Enabled(s, steps[0].0) && Executes(Step(s, steps[0].0, steps[0].1), steps[1..], s')
  }

  // ----- what every interleaving keeps -----

  predicate Reading(pc: Pc) {
    pc.FirstCheck? || pc.ReadUnlock?
  }

  predicate Writing(pc: Pc) {
    pc.SecondCheck? || pc.CountAttempt? || pc.Create? || pc.Store? || pc.CountCreation? || pc.Unlock?
    || pc.ClosePool? || pc.ClearPool? || pc.ResetUnlock?
  }

  ghost predicate Locked(s: State) {
    && (s.writer.Some? ==> s.writer.value in s.threads && s.readers == {})
    && (forall t :: t in s.readers ==> t in s.threads)
    && (forall t :: t in s.threads ==>
          && (Writing(s.threads[t]) <==> s.writer == Some(t))
          && (Reading(s.threads[t]) <==> t in s.readers))
  }

  ghost function Writer(s: State): Pc {
    if s.writer.Some? && s.writer.value in s.threads then s.threads[s.writer.value] else Idle
  }

  /** The pools made so far, oldest first. */
  function PoolsUpTo(n: nat): seq<Pool> {
    seq(n, i => i)
  }

  /** A pool that is alive: stored, made but not stored yet, or closed but not cleared yet. */
  predicate Books(s: State, w: Pc) {
    && s.closed == PoolsUpTo(|s.closed|)
    && (w.Store? ==> s.pool == None && w.made == |s.closed| && s.created == |s.closed| + 1)
    && (w.CountAttempt? || w.Create? ==> s.pool == None)
    && (w.CountCreation? ==> s.pool.Some?)
    && (s.pool.Some? && !w.ClearPool? ==> s.pool.value == |s.closed| && s.created == |s.closed| + 1)
    && (s.pool.Some? && w.ClearPool? ==> s.created == |s.closed| == s.pool.value + 1)
    && (s.pool == None && !w.Store? ==> s.created == |s.closed|)
    && s.creationCount == s.created - (if w.Store? || w.CountCreation? then 1 else 0)
    && s.creationAttempts == s.created + s.failures + (if w.Create? || w == Unlock(None) then 1 else 0)
  }

  /** Answers of the same epoch name the same pool; those of the current epoch the stored one. */
  ghost predicate Memoized(s: State) {
    && (forall a :: a in s.answers ==> a.epoch <= s.epoch)
    && (forall a :: a in s.answers && a.epoch == s.epoch ==> s.pool == Some(a.pool))
    && (forall a, b :: a in s.answers && b in s.answers && a.epoch == b.epoch ==> a.pool == b.pool)
  }

  /** Only pools that were read are returned. */
  ghost predicate ReturnsRead(s: State) {
    && (forall a :: a in s.returned ==> a in s.answers)
    && (forall t :: t in s.threads && Pending(s.threads[t]).Some? ==> Pending(s.threads[t]).value in s.answers)
  }

  /** What a call is about to return. */
  function Pending(pc: Pc): Option<Answer> {
    match pc
    case ReadUnlock(seen) => seen
    case Unlock(result) => result
    case _ => None
  }

  ghost predicate Invariant(s: State) {
    Locked(s) && Books(s, Writer(s)) && Memoized(s) && ReturnsRead(s)
  }

  lemma StepKeepsLocks(s: State, t: nat, ch: Choice)
    requires Locked(s) && Enabled(s, t)
    ensures Locked(Step(s, t, ch))
  {
  }

  lemma StepKeepsBooks(s: State, t: nat, pc: Pc, ch: Choice, w: Pc)
    requires Books(s, w)
    requires Writing(pc) ==> w == pc
    requires pc.WriteLock? || pc.ResetLock? ==> w == Idle
    ensures var (s', pc') := PcStep(s, t, pc, ch);
            Books(s', if Writing(pc') then pc' else if Writing(pc) then Idle else w)
  {
  }

  lemma StepKeepsMemo(s: State, t: nat, pc: Pc, ch: Choice, w: Pc)
    requires Memoized(s) && Books(s, w)
    requires Writing(pc) ==> w == pc
    ensures Memoized(PcStep(s, t, pc, ch).0)
  {
    var s' := PcStep(s, t, pc, ch).0;
    if |s'.answers| > |s.answers| {
      assert forall a :: a in s'.answers ==> a in s.answers || (a.epoch == s.epoch && s'.pool == Some(a.pool));
    }
  }

  lemma StepLogs(s: State, t: nat, pc: Pc, ch: Choice)
    ensures var (s', pc') := PcStep(s, t, pc, ch);
            && s.answers <= s'.answers
            && (forall a :: a in s'.returned ==> a in s.returned || Pending(pc) == Some(a))
            && (Pending(pc').Some? ==> Pending(pc').value in s'.answers)
  {
  }

  lemma StepKeepsReturns(s: State, t: nat, ch: Choice)
    requires ReturnsRead(s) && Enabled(s, t)
    ensures ReturnsRead(Step(s, t, ch))
  {
    hide PcStep;
    StepLogs(s, t, s.threads[t], ch);
    assert forall a :: a in s.answers ==> a in Step(s, t, ch).answers;
  }

  lemma StepKeepsInvariant(s: State, t: nat, ch: Choice)
    requires Invariant(s) && Enabled(s, t)
    ensures Invariant(Step(s, t, ch))
  {
    StepKeepsLocks(s, t, ch);
    StepKeepsBooks(s, t, s.threads[t], ch, Writer(s));
    StepKeepsMemo(s, t, s.threads[t], ch, Writer(s));
    StepKeepsReturns(s, t, ch);
  }

  lemma {:induction false} InvariantOverRuns(s: State, steps: seq<(nat, Choice)>, s': State)
    requires Invariant(s) && Executes(s, steps, s')
    ensures Invariant(s')
    decreases |steps|
  {
    if steps != [] {
      StepKeepsInvariant(s, steps[0].0, steps[0].1);
      InvariantOverRuns(Step(s, steps[0].0, steps[0].1), steps[1..], s');
    }
  }

  // ----- the fast path -----

  /** Calls that find no pool under the read lock. */
  function Misses(s: State, steps: seq<(nat, Choice)>): nat
    decreases |steps|
  {
    if steps == [] || !Enabled(s, steps[0].0) then 0
    else
      (if s.threads[steps[0].0].FirstCheck? && s.pool == None then 1 else 0)
      + Misses(Step(s, steps[0].0, steps[0].1), steps[1..])
  }

  /** Calls that take the write lock. */
  function WriteLocks(s: State, steps: seq<(nat, Choice)>): nat
    decreases |steps|
  {
    if steps == [] || !Enabled(s, steps[0].0) then 0
    else
      (if s.threads[steps[0].0].WriteLock? then 1 else 0)
      + WriteLocks(Step(s, steps[0].0, steps[0].1), steps[1..])
  }

  predicate OnTheWay(pc: Pc) {
    pc.WriteLock? || pc == ReadUnlock(None)
  }

  lemma {:induction false} MissesLock(s: State, steps: seq<(nat, Choice)>, s': State)
    requires Executes(s, steps, s')
    ensures Count(s.threads, OnTheWay) + Misses(s, steps) == WriteLocks(s, steps) + Count(s'.threads, OnTheWay)
    decreases |steps|
  {
    if steps != [] {
      var (t, ch) := steps[0];
      MissesLock(Step(s, t, ch), steps[1..], s');
      CountUpdate(s.threads, t, Step(s, t, ch).threads[t], OnTheWay);
    }
  }

  // ----- every interleaving -----

  /** As long as some call is under way, some call can go on. */
  lemma NoDeadlock(s: State, t: nat) returns (u: nat)
    requires Invariant(s) && t in s.threads && !s.threads[t].Idle?
    ensures Enabled(s, u) && !s.threads[u].Idle?
  {
    if s.writer.Some? {
      u := s.writer.value;
    } else if r :| r in s.readers {
      u := r;
    } else {
      u := t;
    }
  }

  /** In every interleaving: outside the write-locked sections every pool made has
      been closed, once and in order, except the stored one, which is the newest; even
      inside them at most one pool is open; every attempt makes a pool or is an error
      that is returned, and nothing else is; the write lock is taken by those calls
      only that found no pool before; and two pools returned that were read with no
      reset in between are the same. */
  lemma EveryInterleaving(ids: set<nat>, steps: seq<(nat, Choice)>, s: State)
    requires Executes(Initial(ids), steps, s)
    ensures s.writer == None ==>
              && s.closed == PoolsUpTo(|s.closed|)
              && s.created - |s.closed| == (if s.pool.Some? then 1 else 0)
              && (s.pool.Some? ==> s.pool.value == s.created - 1)
              && s.creationCount == s.created
    ensures 0 <= s.created - |s.closed| <= 1
    ensures s.creationCount <= s.created
    ensures s.writer == None ==> s.creationAttempts == s.created + s.failures
    ensures 0 <= s.creationAttempts - s.created - s.failures <= 1
    ensures Misses(Initial(ids), steps) == WriteLocks(Initial(ids), steps) + Count(s.threads, OnTheWay)
    ensures forall a, b :: a in s.returned && b in s.returned && a.epoch == b.epoch ==> a.pool == b.pool
  {
    InvariantOverRuns(Initial(ids), steps, s);
    MissesLock(Initial(ids), steps, s);
    assert Where(Initial(ids).threads, OnTheWay) == {};
  }
}
