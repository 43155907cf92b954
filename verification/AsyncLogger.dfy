/** The asynchronous error logger: producers that never block, one worker, and a
    shutdown that drains.  A step is one channel operation, one atomic operation or
    one call of the underlying logger, by any of the threads. */
module AsyncLogger {
  import opened Common

  /** Whether a classified error can be made of an error; asking a nil error for its
      text panics. */
  datatype Content = Classifiable | Unclassifiable | NilError

  datatype Request = Request(id: int, content: Content)

  datatype Pc =
    | Idle
    // LogAndClassifyError and LogError
    | CheckRunning(request: Request)
    | Send(request: Request)
    | AddDropped
    // ShutdownWithContext; base is how many errors had been accepted when it began
    | SwapRunning(base: nat)
    | CloseStop(base: nat)
    | AwaitWorker(base: nat)
    | ReturnedNil(base: nat)
    | ReturnedAlreadyDown(base: nat)
    | ReturnedTimeout(base: nat)

  datatype WorkerPc =
    | Select(draining: bool)
    | Handle(request: Request, draining: bool)
    | AddProcessed(draining: bool)
    | Done
    // a panic whose deferred calls, wg.Done among them, have run
    | Unwound(request: Request)

  datatype State = State(
    capacity: nat,
    queue: seq<Request>,
    isRunning: bool,
    stopped: bool,
    processedCount: int,
    droppedCount: int,
    worker: WorkerPc,
    threads: map<nat, Pc>,
    crashed: bool,
    // the run so far
    accepted: seq<Request>,
    handled: seq<Request>,
    refusals: nat)

  /** A started service; the bufferSize of an unbuffered channel is 0. */
  function Initial(capacity: nat, ids: set<nat>): State {
    State(capacity, [], true, false, 0, 0, Select(false), map t | t in ids :: Idle, false, [], [], 0)
  }

  datatype Action =
    | StartLogAndClassify(t: nat, request: Request)
    | StartLogError(t: nat, request: Request)
    | StartShutdown(t: nat)
    | Continue(t: nat)
    | HandOver(t: nat)      // a send meets the waiting worker directly
    | Expire(t: nat)        // the context of a waiting shutdown is done
    | Work(sawStop: bool)   // the worker moves; sawStop picks among ready branches

  /** A program that has ended does nothing any more. */
  predicate Enabled(s: State, a: Action) {
    !s.crashed && CanMove(s, a)
  }

  predicate CanMove(s: State, a: Action) {
    match a
    case StartLogAndClassify(t, _) => t in s.threads && s.threads[t].Idle?
    case StartLogError(t, _) => t in s.threads && s.threads[t].Idle?
    case StartShutdown(t) => t in s.threads && s.threads[t].Idle?
    case Continue(t) =>
      t in s.threads
      && (match s.threads[t]
          case CheckRunning(_) | Send(_) | AddDropped | SwapRunning(_) | CloseStop(_) => true
          case AwaitWorker(_) => s.worker.Done? || s.worker.Unwound?
          case _ => false)
    case HandOver(t) => t in s.threads && s.threads[t].Send? && s.queue == [] && s.worker == Select(false)
    case Expire(t) => t in s.threads && s.threads[t].AwaitWorker?
    case Work(sawStop) =>
      match s.worker
      case Select(false) => if sawStop then s.stopped else s.queue != []
      case Select(true) => true
      case Handle(_, _) | AddProcessed(_) | Unwound(_) => true
      case Done => false
  }

  function Step(s: State, a: Action): State
    requires Enabled(s, a)
  {
    match a
    case StartLogAndClassify(t, q) => s.(threads := s.threads[t := CheckRunning(q)])
    case StartLogError(t, q) => s.(threads := s.threads[t := Send(q)])
    case StartShutdown(t) => s.(threads := s.threads[t := SwapRunning(|s.accepted|)])
    case Continue(t) => ThreadStep(s, t)
    case HandOver(t) =>
      var q := s.threads[t].request;
      s.(threads := s.threads[t := Idle], accepted := s.accepted + [q], worker := Handle(q, false))
    case Expire(t) => s.(threads := s.threads[t := ReturnedTimeout(s.threads[t].base)])
    case Work(sawStop) => WorkerStep(s, sawStop)
  }

  function ThreadStep(s: State, t: nat): State
    requires Enabled(s, Continue(t))
  {
    match s.threads[t]
    case CheckRunning(q) => s.(threads := s.threads[t := if s.isRunning then Send(q) else Idle])
    case Send(q) =>
      if |s.queue| < s.capacity
      then s.(threads := s.threads[t := Idle], queue := s.queue + [q], accepted := s.accepted + [q])
      else s.(threads := s.threads[t := AddDropped], refusals := s.refusals + 1)
    case AddDropped => s.(threads := s.threads[t := Idle], droppedCount := s.droppedCount + 1)
    case SwapRunning(base) =>
      if s.isRunning then s.(threads := s.threads[t := CloseStop(base)], isRunning := false)
      else s.(threads := s.threads[t := ReturnedAlreadyDown(base)])
    case CloseStop(base) => s.(threads := s.threads[t := AwaitWorker(base)], stopped := true)
    case AwaitWorker(base) => s.(threads := s.threads[t := ReturnedNil(base)])
    case _ => s
  }

  function WorkerStep(s: State, sawStop: bool): State
    requires Enabled(s, Work(sawStop))
  {
    match s.worker
    case Select(draining) =>
      if !draining && sawStop then s.(worker := Select(true))
      else if s.queue != [] then s.(worker := Handle(s.queue[0], draining), queue := s.queue[1..])
      else s.(worker := Done)
    case Handle(q, draining) =>
      (match q.content
       case NilError => s.(worker := Unwound(q))
       case Classifiable => s.(handled := s.handled + [q], worker := AddProcessed(draining))
       case Unclassifiable => s.(handled := s.handled + [q], worker := Select(draining)))
    case AddProcessed(draining) => s.(processedCount := s.processedCount + 1, worker := Select(draining))
    case Unwound(_) => s.(crashed := true)
    case Done => s
  }

  ghost predicate Executes(s: State, acts: seq<Action>, s': State)
    decreases |acts|
  {
    if acts == [] then s == s'
    else Enabled(s, acts[0]) && Executes(Step(s, acts[0]), acts[1..], s')
  }

  // ----- what every interleaving keeps -----

  /** The request the worker has taken off the queue and not yet dealt with. */
  function InHand(w: WorkerPc): seq<Request> {
    if w.Handle? || w.Unwound? then [w.request] else []
  }

  function CountClassifiable(qs: seq<Request>): nat {
    if qs == [] then 0
    else CountClassifiable(qs[..|qs| - 1]) + (if qs[|qs| - 1].content.Classifiable? then 1 else 0)
  }

  predicate OwesDrop(pc: Pc) {
    pc.AddDropped?
  }

  /** The one shutdown call that found the service running. */
  predicate PerformsShutdown(pc: Pc) {
    pc.CloseStop? || pc.AwaitWorker? || pc.ReturnedNil? || pc.ReturnedTimeout?
  }

  ghost predicate Invariant(s: State) {
    && InOrder(s)
    && |s.queue| <= s.capacity
    && DropsCounted(s)
    && ProcessedCounted(s)
    && NilsUnhandled(s)
    && StopsInOrder(s)
    && (forall t :: t in s.threads ==> ThreadInvariant(s, s.threads[t]))
  }

  /** No nil error has been handled, and the worker panics on one only. */
  predicate NilsUnhandled(s: State) {
    && (forall i :: 0 <= i < |s.handled| ==> !s.handled[i].content.NilError?)
    && (s.worker.Unwound? ==> s.worker.request.content.NilError?)
    && (s.crashed ==> s.worker.Unwound?)
  }

  predicate ThreadInvariant(s: State, pc: Pc) {
    && (pc.SwapRunning? ==> pc.base <= |s.accepted|)
    && (PerformsShutdown(pc) ==>
          && !s.isRunning
          && pc.base <= |s.accepted|
          && (s.worker == Done ==> pc.base <= |s.handled|))
    && (pc.ReturnedNil? ==> s.worker.Done? || s.worker.Unwound?)
    && (pc.AwaitWorker? ==> s.stopped)
  }

  lemma InitialInvariant(capacity: nat, ids: set<nat>)
    ensures Invariant(Initial(capacity, ids))
  {
    assert Where(Initial(capacity, ids).threads, OwesDrop) == {};
  }

  lemma StepKeepsThreads(s: State, a: Action)
    requires Invariant(s) && Enabled(s, a)
    ensures forall t :: t in Step(s, a).threads ==> ThreadInvariant(Step(s, a), Step(s, a).threads[t])
  {
    hide DropsCounted, ProcessedCounted, NilsUnhandled;
  }

  predicate InOrder(s: State) {
    s.accepted == s.handled + InHand(s.worker) + s.queue
  }

  lemma WorkerKeepsOrder(s: State, sawStop: bool)
    requires InOrder(s) && Enabled(s, Work(sawStop))
    ensures InOrder(WorkerStep(s, sawStop))
  {
    var h, r, q := s.handled, InHand(s.worker), s.queue;
    var s' := WorkerStep(s, sawStop);
    match s.worker {
      case Select(draining) =>
        assert h + r == h;
        assert s'.worker.Handle? ==> h + q == h + [q[0]] + q[1..];
      case Handle(_, _) =>
        assert h + r + [] == h + r;
      case Unwound(_) =>
      case _ =>
        assert h + r == h;
    }
  }

  lemma ThreadsKeepOrder(s: State, a: Action)
    requires InOrder(s) && Enabled(s, a) && !a.Work?
    ensures InOrder(Step(s, a))
  {
    var h, r, q := s.handled, InHand(s.worker), s.queue;
    if Step(s, a).accepted != s.accepted {
      var x := s.threads[a.t].request;
      assert h + r + q + [x] == h + r + (q + [x]);
      assert h + [] + [] + [x] == h + [x] + [];
    }
  }

  lemma Grows(s: State, a: Action)
    requires |s.queue| <= s.capacity && Enabled(s, a)
    ensures var s' := Step(s, a); s.handled <= s'.handled && s.accepted <= s'.accepted && |s'.queue| <= s'.capacity
  {
    if a.Work? {
      assert WorkerStep(s, a.sawStop).accepted == s.accepted;
    } else {
      assert Step(s, a).handled == s.handled;
    }
  }

  lemma StepKeepsOrder(s: State, a: Action)
    requires Invariant(s) && Enabled(s, a)
    ensures var s' := Step(s, a);
            InOrder(s') && s.handled <= s'.handled && s.accepted <= s'.accepted && |s'.queue| <= s'.capacity
  {
    hide InOrder, DropsCounted, ProcessedCounted, NilsUnhandled, ThreadInvariant, ThreadStep, WorkerStep;
    Grows(s, a);
    if a.Work? {
      WorkerKeepsOrder(s, a.sawStop);
    } else {
      ThreadsKeepOrder(s, a);
    }
  }

  ghost predicate DropsCounted(s: State) {
    s.droppedCount + Count(s.threads, OwesDrop) == s.refusals
  }

  lemma StepKeepsDrops(s: State, a: Action)
    requires DropsCounted(s) && Enabled(s, a)
    ensures DropsCounted(Step(s, a))
  {
    if !a.Work? {
      var pc := Step(s, a).threads[a.t];
      CountUpdate(s.threads, a.t, pc, OwesDrop);
      assert Step(s, a).threads == s.threads[a.t := pc];
    }
  }

  predicate ProcessedCounted(s: State) {
    s.processedCount + (if s.worker.AddProcessed? then 1 else 0) == CountClassifiable(s.handled)
  }

  lemma ThreadsKeepProcessed(s: State, a: Action)
    requires ProcessedCounted(s) && Enabled(s, a) && !a.Work?
    ensures ProcessedCounted(Step(s, a))
  {
    hide CountClassifiable;
  }

  lemma WorkerKeepsProcessed(s: State, sawStop: bool)
    requires ProcessedCounted(s) && Enabled(s, Work(sawStop))
    ensures ProcessedCounted(WorkerStep(s, sawStop))
  {
    hide CountClassifiable;
    if s.worker.Handle? {
      CountSnoc(s.handled, s.worker.request);
    }
  }

  lemma StepKeepsProcessed(s: State, a: Action)
    requires ProcessedCounted(s) && Enabled(s, a)
    ensures ProcessedCounted(Step(s, a))
  {
    hide ProcessedCounted, ThreadStep, WorkerStep;
    if a.Work? {
      WorkerKeepsProcessed(s, a.sawStop);
    } else {
      ThreadsKeepProcessed(s, a);
    }
  }

  lemma CountSnoc(qs: seq<Request>, q: Request)
    ensures CountClassifiable(qs + [q]) == CountClassifiable(qs) + (if q.content.Classifiable? then 1 else 0)
  {
    assert (qs + [q])[..|qs|] == qs;
  }

  /** The worker drains only once it has been told to stop. */
  predicate StopsInOrder(s: State) {
    && (s.stopped ==> !s.isRunning)
    && (s.worker == Done || s.worker == Select(true) ==> s.stopped)
    && (s.worker.Handle? && s.worker.draining ==> s.stopped)
    && (s.worker.AddProcessed? && s.worker.draining ==> s.stopped)
  }

  lemma StepKeepsStops(s: State, a: Action)
    requires StopsInOrder(s) && Enabled(s, a)
    requires forall t :: t in s.threads && s.threads[t].CloseStop? ==> !s.isRunning
    ensures StopsInOrder(Step(s, a))
  {
  }

  lemma StepKeepsNils(s: State, a: Action)
    requires NilsUnhandled(s) && Enabled(s, a)
    ensures NilsUnhandled(Step(s, a))
  {
  }

  lemma StepKeepsInvariant(s: State, a: Action)
    requires Invariant(s) && Enabled(s, a)
    ensures Invariant(Step(s, a))
  {
    hide InOrder, DropsCounted, ProcessedCounted, NilsUnhandled, StopsInOrder, ThreadStep, WorkerStep, Step;
    StepKeepsThreads(s, a);
    StepKeepsOrder(s, a);
    StepKeepsDrops(s, a);
    StepKeepsProcessed(s, a);
    StepKeepsStops(s, a);
    StepKeepsNils(s, a);
  }

  lemma {:induction false} InvariantOverRuns(s: State, acts: seq<Action>, s': State)
    requires Invariant(s) && Executes(s, acts, s')
    ensures Invariant(s') && s.handled <= s'.handled && s.accepted <= s'.accepted
    decreases |acts|
  {
    if acts != [] {
      StepKeepsInvariant(s, acts[0]);
      StepKeepsOrder(s, acts[0]);
      InvariantOverRuns(Step(s, acts[0]), acts[1..], s');
    }
  }

  // ----- what becomes of an error that is sent -----

  /** The send that the action performs, if it performs one. */
  function SendOf(s: State, a: Action): Option<Request> {
    if (a.Continue? || a.HandOver?) && a.t in s.threads && s.threads[a.t].Send?
    then Some(s.threads[a.t].request) else None
  }

  /** It finds the buffer full and nobody waiting to take the error. */
  predicate IntoFull(s: State, a: Action) {
    SendOf(s, a).Some? && a.Continue? && |s.queue| == s.capacity
  }

  /** A call of LogAndClassifyError that finds the service shut down. */
  predicate TurnedAway(s: State, a: Action) {
    a.Continue? && a.t in s.threads && s.threads[a.t].CheckRunning? && !s.isRunning
  }

  /** The error that finds room or a waiting worker, is dropped, is turned away, or is
      the one a call is started with, in one action. */
  function AdmittedBy(s: State, a: Action): seq<Request> {
    if SendOf(s, a).Some? && !IntoFull(s, a) then [SendOf(s, a).value] else []
  }

  function DroppedBy(s: State, a: Action): seq<Request> {
    if IntoFull(s, a) then [SendOf(s, a).value] else []
  }

  function RefusedBy(s: State, a: Action): seq<Request> {
    if TurnedAway(s, a) then [s.threads[a.t].request] else []
  }

  function StartedBy(a: Action): seq<Request> {
    if a.StartLogAndClassify? || a.StartLogError? then [a.request] else []
  }

  /** The same for a whole run, in order. */
  function Admitted(s: State, acts: seq<Action>): seq<Request>
    decreases |acts|
  {
    if acts == [] || !Enabled(s, acts[0]) then [] else AdmittedBy(s, acts[0]) + Admitted(Step(s, acts[0]), acts[1..])
  }

  function Dropped(s: State, acts: seq<Action>): seq<Request>
    decreases |acts|
  {
    if acts == [] || !Enabled(s, acts[0]) then [] else DroppedBy(s, acts[0]) + Dropped(Step(s, acts[0]), acts[1..])
  }

  function Refused(s: State, acts: seq<Action>): seq<Request>
    decreases |acts|
  {
    if acts == [] || !Enabled(s, acts[0]) then [] else RefusedBy(s, acts[0]) + Refused(Step(s, acts[0]), acts[1..])
  }

  function Started(acts: seq<Action>): seq<Request> {
    if acts == [] then [] else StartedBy(acts[0]) + Started(acts[1..])
  }

  function Carries(q: Request): Pc -> bool {
    (pc: Pc) => (pc.CheckRunning? || pc.Send?) && pc.request == q
  }

  function Times(qs: seq<Request>, q: Request): nat {
    multiset(qs)[q]
  }

  lemma TimesBoth(a: seq<Request>, b: seq<Request>, q: Request)
    ensures Times(a + b, q) == Times(a, q) + Times(b, q)
  {
  }

  lemma NoTimes(q: Request)
    ensures Times([], q) == 0
  {
  }

  lemma TimesOnce(x: Request, q: Request)
    ensures Times([x], q) == if x == q then 1 else 0
  {
  }

  /** How often an action brings q in, minus how often it brings it to an end. */
  function Change(s: State, a: Action, q: Request): int {
    Times(StartedBy(a), q) - Times(AdmittedBy(s, a), q) - Times(DroppedBy(s, a), q) - Times(RefusedBy(s, a), q)
  }

  lemma ThreadAccounts(s: State, a: Action, q: Request)
    requires Enabled(s, a) && !a.Work? && |s.queue| <= s.capacity
    ensures (if Carries(q)(Step(s, a).threads[a.t]) then 1 else 0) - (if Carries(q)(s.threads[a.t]) then 1 else 0) ==
            Change(s, a, q)
  {
    hide Times;
    NoTimes(q);
    if a.StartLogAndClassify? || a.StartLogError? {
      TimesOnce(a.request, q);
    } else if s.threads[a.t].CheckRunning? || s.threads[a.t].Send? {
      TimesOnce(s.threads[a.t].request, q);
    }
  }

  lemma StepAccounts(s: State, a: Action, q: Request)
    requires Enabled(s, a) && |s.queue| <= s.capacity
    ensures Count(Step(s, a).threads, Carries(q)) == Count(s.threads, Carries(q)) + Change(s, a, q)
  {
    hide Count, Change, Carries;
    var s' := Step(s, a);
    if a.Work? {
      WorkSendsNothing(s, a, q);
    } else {
      CountUpdate(s.threads, a.t, s'.threads[a.t], Carries(q));
      assert s'.threads == s.threads[a.t := s'.threads[a.t]];
      ThreadAccounts(s, a, q);
    }
  }

  lemma WorkSendsNothing(s: State, a: Action, q: Request)
    requires Enabled(s, a) && a.Work?
    ensures Step(s, a).threads == s.threads && Change(s, a, q) == 0
  {
  }

  lemma StepRecords(s: State, a: Action)
    requires Enabled(s, a) && |s.queue| <= s.capacity
    ensures Step(s, a).accepted == s.accepted + AdmittedBy(s, a)
    ensures Step(s, a).refusals == s.refusals + |DroppedBy(s, a)|
  {
  }

  lemma {:induction false} RunAccounts(s: State, acts: seq<Action>, s': State, q: Request)
    requires Invariant(s) && Executes(s, acts, s')
    ensures s'.accepted == s.accepted + Admitted(s, acts)
    ensures s'.refusals == s.refusals + |Dropped(s, acts)|
    ensures Times(Started(acts), q) + Count(s.threads, Carries(q)) ==
            Times(Admitted(s, acts), q) + Times(Dropped(s, acts), q) + Times(Refused(s, acts), q)
            + Count(s'.threads, Carries(q))
    decreases |acts|
  {
    hide Enabled, Step, Carries, Count, Times, AdmittedBy, DroppedBy, RefusedBy, StartedBy;
    if acts != [] {
      var a, rest, s1 := acts[0], acts[1..], Step(s, acts[0]);
      StepAccounts(s, a, q);
      StepRecords(s, a);
      StepKeepsInvariant(s, a);
      RunAccounts(s1, rest, s', q);
      TimesBoth(StartedBy(a), Started(rest), q);
      TimesBoth(AdmittedBy(s, a), Admitted(s1, rest), q);
      TimesBoth(DroppedBy(s, a), Dropped(s1, rest), q);
      TimesBoth(RefusedBy(s, a), Refused(s1, rest), q);
    } else {
      NoTimes(q);
    }
  }

  /** In every interleaving an error that is sent is accepted if the buffer has room or
      the worker takes it, and dropped, counted as such, if the buffer is full; only
      LogAndClassifyError turns errors away, exactly once the service is shut down.
      So every error a call was started with is accepted, dropped, turned away or
      still on its way, as often as there were such calls. */
  lemma EverySendEnds(capacity: nat, ids: set<nat>, acts: seq<Action>, s: State, q: Request)
    requires Executes(Initial(capacity, ids), acts, s)
    ensures var s0 := Initial(capacity, ids);
            && s.accepted == Admitted(s0, acts)
            && s.refusals == |Dropped(s0, acts)|
            && Times(Started(acts), q) ==
               Times(s.accepted, q) + Times(Dropped(s0, acts), q) + Times(Refused(s0, acts), q)
               + Count(s.threads, Carries(q))
  {
    InitialInvariant(capacity, ids);
    RunAccounts(Initial(capacity, ids), acts, s, q);
    assert Where(Initial(capacity, ids).threads, Carries(q)) == {};
  }

  /** In every reachable state: the accepted errors are, in order, the handled ones,
      the one in the worker's hands and the queued ones; the buffer is never
      overfull; droppedCount is the number of sends into a full buffer, short of those
      just being counted; and processedCount lags likewise behind the classified ones. */
  lemma EveryInterleaving(capacity: nat, ids: set<nat>, acts: seq<Action>, s: State)
    requires Executes(Initial(capacity, ids), acts, s)
    ensures s.accepted == s.handled + InHand(s.worker) + s.queue
    ensures |s.queue| <= s.capacity
    ensures s.droppedCount + Count(s.threads, OwesDrop) == |Dropped(Initial(capacity, ids), acts)|
    ensures s.processedCount <= CountClassifiable(s.handled) <= s.processedCount + 1
    // no nil error is ever handled, and the worker panics only on one that was accepted
    ensures forall i :: 0 <= i < |s.handled| ==> !s.handled[i].content.NilError?
    ensures s.crashed ==> s.worker.Unwound?
    ensures s.worker.Unwound? ==> s.worker.request.content.NilError? && s.worker.request in s.accepted
    // what Flush knows when it sees the queue empty: at most one error is not handled yet
    ensures s.queue == [] ==> s.accepted == s.handled + InHand(s.worker)
  {
    InitialInvariant(capacity, ids);
    InvariantOverRuns(Initial(capacity, ids), acts, s);
    RunAccounts(Initial(capacity, ids), acts, s, Request(0, NilError));
    assert s.handled + InHand(s.worker) + [] == s.handled + InHand(s.worker);
  }

  predicate NoNil(qs: seq<Request>) {
    forall i :: 0 <= i < |qs| ==> !qs[i].content.NilError?
  }

  /** A shutdown that thread t begins in s has returned nil in s' and performed it. */
  ghost predicate ReturnsNil(s: State, t: nat, after: seq<Action>, s': State)
    requires Enabled(s, StartShutdown(t))
  {
    && Executes(Step(s, StartShutdown(t)), after, s')
    && t in s'.threads && s'.threads[t] == ReturnedNil(|s.accepted|)
  }

  /** When the call that performed the shutdown returns nil, every error accepted
      before it began has been handled exactly once and in acceptance order, that is,
      the handled errors start with exactly those, if and only if there is no nil error
      among them.  Nil errors accepted during the shutdown do no harm to this. */
  lemma ShutdownDrains(capacity: nat, ids: set<nat>, before: seq<Action>, s: State, t: nat,
                       after: seq<Action>, s': State)
    requires Executes(Initial(capacity, ids), before, s) && Enabled(s, StartShutdown(t))
    requires ReturnsNil(s, t, after, s')
    ensures s.accepted <= s'.handled <==> NoNil(s.accepted)
  {
    InitialInvariant(capacity, ids);
    InvariantOverRuns(Initial(capacity, ids), before, s);
    StepKeepsInvariant(s, StartShutdown(t));
    InvariantOverRuns(Step(s, StartShutdown(t)), after, s');
    DrainedUpTo(s', s.accepted);
  }

  lemma DrainedUpTo(s': State, accepted: seq<Request>)
    requires Invariant(s') && accepted <= s'.accepted
    requires s'.worker.Unwound? || |accepted| <= |s'.handled|
    ensures accepted <= s'.handled <==> NoNil(accepted)
  {
    hide DropsCounted, ProcessedCounted, StopsInOrder, ThreadInvariant;
    assert s'.handled <= s'.accepted;
    var base, done := |accepted|, |s'.handled|;
    assert accepted == s'.accepted[..base];
    assert s'.handled == s'.accepted[..done];
    if base <= done {
      assert accepted == s'.handled[..base];
      assert forall i :: 0 <= i < base ==> accepted[i] == s'.handled[i];
    } else {
      assert s'.accepted[done] == s'.worker.request;
      assert accepted[done] == s'.worker.request;
    }
  }

  function WorkLeft(s: State): nat {
    4 * |s.queue| + match s.worker case Select(_) => 1 case AddProcessed(_) => 2 case Handle(_, _) => 3 case _ => 0
  }

  lemma PanicEnds(s: State)
    requires s.worker.Unwound? && !s.crashed
    ensures Step(s, Work(false)).crashed
  {
  }

  lemma WorkerGoesOn(s: State, i: nat)
    requires Invariant(s) && !s.crashed && !s.worker.Done? && !s.worker.Unwound?
    requires i < |s.accepted| && s.accepted[i].content.NilError?
    ensures Enabled(s, Work(false))
    ensures var s' := Step(s, Work(false));
            && Invariant(s') && !s'.crashed && !s'.worker.Done? && WorkLeft(s') < WorkLeft(s)
            && s'.threads == s.threads && s'.accepted == s.accepted
            && s'.isRunning == s.isRunning && s'.stopped == s.stopped
  {
    hide DropsCounted, ProcessedCounted, StopsInOrder, ThreadInvariant;
    assert s.queue == [] && s.worker.Select? ==> s.accepted == s.handled + [] + [];
    StepKeepsInvariant(s, Work(false));
  }

  /** Wherever a nil error has been accepted and the program goes on, the worker's own
      steps take it to the panic, and one more step ends the program. */
  lemma {:induction false} NilErrorPanics(s: State, i: nat) returns (acts: seq<Action>, s': State)
    requires Invariant(s) && !s.crashed && !s.worker.Done?
    requires i < |s.accepted| && s.accepted[i].content.NilError?
    ensures Executes(s, acts, s') && s'.worker.Unwound? && !s'.crashed && Invariant(s')
    ensures s'.threads == s.threads && s'.accepted == s.accepted && s'.isRunning == s.isRunning
    ensures s'.stopped == s.stopped && Step(s', Work(false)).crashed
    decreases WorkLeft(s)
  {
    hide Invariant, Step, WorkLeft;
    if s.worker.Unwound? {
      acts, s' := [], s;
      PanicEnds(s);
    } else {
      var a := Work(false);
      WorkerGoesOn(s, i);
      var s1 := Step(s, a);
      var rest;
      rest, s' := NilErrorPanics(s1, i);
      acts := [a] + rest;
      assert acts[1..] == rest;
    }
  }

  /** Then the deferred calls have let a waiting shutdown return nil.  So exactly the
      shutdowns that find the service running after a nil error was accepted can return
      nil with an error accepted before them still unhandled. */
  lemma DrainsExactlyIf(capacity: nat, ids: set<nat>, before: seq<Action>, s: State, t: nat)
    requires Executes(Initial(capacity, ids), before, s) && Enabled(s, StartShutdown(t))
    ensures (forall after, s' :: ReturnsNil(s, t, after, s') ==> s.accepted <= s'.handled)
            <==> !s.isRunning || NoNil(s.accepted)
  {
    var s1 := Step(s, StartShutdown(t));
    InitialInvariant(capacity, ids);
    InvariantOverRuns(Initial(capacity, ids), before, s);
    if s.isRunning && !NoNil(s.accepted) {
      var after, s' := ReturnsNilUndrained(s, t);
    } else {
      forall after, s' | ReturnsNil(s, t, after, s')
        ensures s.accepted <= s'.handled
      {
        if !s.isRunning {
          StaysDown(s1, t, after, s');
        } else {
          ShutdownDrains(capacity, ids, before, s, t, after, s');
        }
      }
    }
  }

  lemma ReturnsNilUndrained(s: State, t: nat) returns (after: seq<Action>, s': State)
    requires Invariant(s) && Enabled(s, StartShutdown(t)) && s.isRunning && !NoNil(s.accepted)
    ensures ReturnsNil(s, t, after, s') && !(s.accepted <= s'.handled)
  {
    var i :| 0 <= i < |s.accepted| && s.accepted[i].content.NilError?;
    var s0 := Step(s, StartShutdown(t));
    StepKeepsInvariant(s, StartShutdown(t));
    NoActions(s0);
    var s1;
    after, s1 := Then(s0, [], s0, Continue(t));
    StepKeepsInvariant(s0, Continue(t));
    after, s' := Then(s0, after, s1, Continue(t));
    StepKeepsInvariant(s1, Continue(t));
    var panic, s2 := NilErrorPanics(s', i);
    ExecutesThen(s0, after, s', panic, s2);
    after, s' := Then(s0, after + panic, s2, Continue(t));
  }

  /** A shutdown of a service that is no longer running never waits. */
  lemma {:induction false} StaysDown(s: State, t: nat, acts: seq<Action>, s': State)
    requires !s.isRunning && t in s.threads && (s.threads[t].SwapRunning? || s.threads[t].ReturnedAlreadyDown?)
    requires Executes(s, acts, s')
    ensures t in s'.threads && (s'.threads[t].SwapRunning? || s'.threads[t].ReturnedAlreadyDown?)
    decreases |acts|
  {
    if acts != [] {
      StaysDown(Step(s, acts[0]), t, acts[1..], s');
    }
  }

  // ----- a shutdown ends -----

  predicate Draining(w: WorkerPc) {
    match w
    case Select(draining) => draining
    case Handle(_, draining) => draining
    case AddProcessed(draining) => draining
    case _ => true
  }

  /** Once the worker drains it does nothing else, and takes no error hand to hand. */
  lemma {:induction false} DrainsForGood(s: State, acts: seq<Action>, s': State)
    requires Draining(s.worker) && Executes(s, acts, s')
    ensures Draining(s'.worker)
    ensures forall a :: a in acts ==> !a.HandOver?
    decreases |acts|
  {
    if acts != [] {
      DrainsForGood(Step(s, acts[0]), acts[1..], s');
      assert acts == [acts[0]] + acts[1..];
    }
  }

  function DrainLeft(s: State): nat {
    8 * |s.queue|
    + match s.worker
      case Select(draining) => if draining then 1 else 2
      case AddProcessed(_) => 3
      case Handle(_, _) => 4
      case _ => 0
  }

  lemma InHandIsNext(s: State)
    requires InOrder(s)
    ensures s.worker.Handle? || s.worker.Unwound? ==>
              |s.handled| < |s.accepted| && s.accepted[|s.handled|] == s.worker.request
  {
  }

  lemma WorkerDrainsOn(s: State)
    requires Invariant(s) && !s.crashed && s.stopped && NoNil(s.accepted) && !s.worker.Done?
    ensures Enabled(s, Work(true))
    ensures var s' := Step(s, Work(true));
            && Invariant(s') && !s'.crashed && s'.stopped && s'.accepted == s.accepted
            && s'.threads == s.threads && DrainLeft(s') < DrainLeft(s)
  {
    hide DropsCounted, ProcessedCounted, StopsInOrder, ThreadInvariant;
    InHandIsNext(s);
    StepKeepsInvariant(s, Work(true));
  }

  /** Once told to stop, the worker by itself handles whatever is left, if no nil error
      is among it, and is done. */
  lemma {:induction false} WorkerDrains(s: State) returns (acts: seq<Action>, s': State)
    requires Invariant(s) && !s.crashed && s.stopped && NoNil(s.accepted)
    ensures Executes(s, acts, s') && Invariant(s') && !s'.crashed && s'.worker.Done?
    ensures s'.threads == s.threads && s'.accepted == s.accepted
    decreases DrainLeft(s)
  {
    hide Invariant, Step, DrainLeft;
    if s.worker.Done? {
      acts, s' := [], s;
    } else {
      WorkerDrainsOn(s);
      var rest;
      rest, s' := WorkerDrains(Step(s, Work(true)));
      acts := [Work(true)] + rest;
      assert acts[1..] == rest;
    }
  }

  /** So in every reachable state a waiting shutdown can return: with a timeout at once if
      its context is done, with nil at once if the worker is, and otherwise with nil
      after the worker's own steps, if no nil error has been accepted. */
  lemma ShutdownCanEnd(capacity: nat, ids: set<nat>, before: seq<Action>, s: State, t: nat)
    returns (acts: seq<Action>, s': State)
    requires Executes(Initial(capacity, ids), before, s) && !s.crashed
    requires t in s.threads && s.threads[t].AwaitWorker?
    ensures Enabled(s, Expire(t)) && Step(s, Expire(t)).threads[t] == ReturnedTimeout(s.threads[t].base)
    ensures s.worker.Done? ==>
              Enabled(s, Continue(t)) && Step(s, Continue(t)).threads[t] == ReturnedNil(s.threads[t].base)
    ensures NoNil(s.accepted) ==>
              Executes(s, acts, s') && t in s'.threads && s'.threads[t] == ReturnedNil(s.threads[t].base)
  {
    InitialInvariant(capacity, ids);
    InvariantOverRuns(Initial(capacity, ids), before, s);
    acts, s' := [], s;
    if NoNil(s.accepted) {
      assert ThreadInvariant(s, s.threads[t]);
      acts, s' := WorkerDrains(s);
      acts, s' := Then(s, acts, s', Continue(t));
    }
  }

  /** Once the worker is done or panics, nothing is handled any more, so an error accepted
      after that, which LogError still allows, stays in the queue for good. */
  lemma {:induction false} NothingHandledAfterDone(s: State, acts: seq<Action>, s': State)
    requires (s.worker.Done? || s.worker.Unwound?) && Executes(s, acts, s')
    ensures s'.worker == s.worker && s'.handled == s.handled && s.queue <= s'.queue
    decreases |acts|
  {
    if acts != [] {
      NothingHandledAfterDone(Step(s, acts[0]), acts[1..], s');
    }
  }

  lemma NoActions(s: State)
    ensures Executes(s, [], s)
  {
  }

  /** One more action at the end of a run. */
  lemma {:induction false} Then(s0: State, acts: seq<Action>, s: State, a: Action)
    returns (acts': seq<Action>, s': State)
    requires Executes(s0, acts, s) && Enabled(s, a)
    ensures acts' == acts + [a] && s' == Step(s, a) && Executes(s0, acts', s')
    decreases |acts|
  {
    acts', s' := acts + [a], Step(s, a);
    if acts == [] {
      assert acts'[1..] == [];
    } else {
      var rest, end := Then(Step(s0, acts[0]), acts[1..], s, a);
      assert acts'[1..] == rest;
    }
  }

  lemma {:induction false} ExecutesThen(s0: State, acts: seq<Action>, s: State, acts': seq<Action>, s': State)
    requires Executes(s0, acts, s) && Executes(s, acts', s')
    ensures Executes(s0, acts + acts', s')
    decreases |acts|
  {
    if acts == [] {
      assert acts + acts' == acts';
    } else {
      ExecutesThen(Step(s0, acts[0]), acts[1..], s, acts', s');
      assert (acts + acts')[1..] == acts[1..] + acts';
    }
  }

  /** A second shutdown call may return nil at once, with an accepted error unhandled. */
  lemma SecondShutdownPromisesNothing(q: Request) returns (acts: seq<Action>, s: State)
    ensures Executes(Initial(1, {0, 1, 2}), acts, s)
    ensures 2 in s.threads && s.threads[2] == ReturnedAlreadyDown(1) && s.accepted == [q] && s.handled == []
  {
    hide Executes;
    var s0 := Initial(1, {0, 1, 2});
    NoActions(s0);
    acts, s := Then(s0, [], s0, StartLogError(0, q));
    acts, s := Then(s0, acts, s, Continue(0));
    acts, s := Then(s0, acts, s, StartShutdown(1));
    acts, s := Then(s0, acts, s, Continue(1));
    acts, s := Then(s0, acts, s, StartShutdown(2));
    acts, s := Then(s0, acts, s, Continue(2));
  }

  /** And such an error exists: accepted after the shutdown has returned nil, it stays
      in the queue whatever happens next. */
  lemma AcceptedAfterDone(q: Request) returns (acts: seq<Action>, s: State)
    ensures Executes(Initial(1, {0, 1}), acts, s)
    ensures s.worker == Done && 1 in s.threads && s.threads[1] == ReturnedNil(0)
    ensures s.accepted == [q] && s.handled == []
    ensures forall later, s' :: Executes(s, later, s') ==> s'.handled == [] && [q] <= s'.queue
  {
    hide Executes;
    var s0 := Initial(1, {0, 1});
    NoActions(s0);
    acts, s := Then(s0, [], s0, StartShutdown(1));
    acts, s := Then(s0, acts, s, Continue(1));
    acts, s := Then(s0, acts, s, Continue(1));
    acts, s := Then(s0, acts, s, Work(true));
    acts, s := Then(s0, acts, s, Work(false));
    acts, s := Then(s0, acts, s, Continue(1));
    acts, s := Then(s0, acts, s, StartLogError(0, q));
    acts, s := Then(s0, acts, s, Continue(0));
    forall later, s' | Executes(s, later, s') ensures s'.handled == [] && [q] <= s'.queue {
      NothingHandledAfterDone(s, later, s');
    }
  }
}
