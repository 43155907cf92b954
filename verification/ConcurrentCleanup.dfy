/** The concurrent group of a cleanup: one goroutine a resource, a semaphore, and status
    and metrics updates under a lock.  A step is one operation on what they share, with
    the attempt that leads to it. */
module ConcurrentCleanup {
  import opened CleanupMetrics
  import opened Common
  import opened ResourceRegistry

  /** What the group is to clean, and how the resources will react. */
  datatype Group = Group(
    names: seq<string>,
    resources: map<string, Resource>,
    maxRetries: int,
    limit: nat,
    world: World)

  datatype Pc =
    | Waiting                    // for the semaphore
    | Entering
    | Attempting(attempt: nat)
    | GivingUp(attempt: nat)     // after the last failure
    | Reporting(cleanup: Cleanup)
    | Leaving(ok: bool)
    | Gone

  /** errors holds the visits that sent an error; recorded is what the metrics got, each
      cleanup with its resource's type. */
  datatype State = State(
    held: nat,
    status: seq<Status>,
    errors: set<nat>,
    recorded: seq<(string, Cleanup)>,
    visits: map<nat, Pc>)

  predicate WellFormed(g: Group) {
    forall i :: 0 <= i < |g.names| ==> g.names[i] in g.resources
  }

  function Initial(g: Group, status: seq<Status>): State {
    State(0, status, {}, [], Started(|g.names|))
  }

  /** n goroutines that have just been started. */
  function Started(n: nat): (visits: map<nat, Pc>)
    ensures forall i: nat :: i in visits <==> i < n
    ensures forall i :: i in visits ==> visits[i] == Waiting
  {
    if n == 0 then map[] else Started(n - 1)[n - 1 := Waiting]
  }

  function Mark(status: seq<Status>, name: string, phase: Phase, retryCount: int): seq<Status> {
    seq(|status|, j requires 0 <= j < |status| =>
      if status[j].name == name then Status(name, phase, retryCount) else status[j])
  }

  predicate Enabled(g: Group, s: State, i: nat) {
    i in s.visits && i < |g.names|
    && match s.visits[i]
       case Waiting => s.held < g.limit
       case Leaving(_) => s.held > 0
       case Gone => false
       case _ => true
  }

  function Step(g: Group, s: State, i: nat): State
    requires WellFormed(g) && Enabled(g, s, i)
  {
    var (s', pc') := VisitStep(g, s, i, s.visits[i]);
    s'.(visits := s.visits[i := pc'])
  }

  /** The next operation of visit number i. */
  function VisitStep(g: Group, s: State, i: nat, pc: Pc): (State, Pc)
    requires WellFormed(g) && i < |g.names| && (pc.Leaving? ==> s.held > 0)
  {
    var name := g.names[i];
    match pc
    case Waiting => (s.(held := s.held + 1), Entering)
    case Entering =>
      (s.(status := Mark(s.status, name, Cleaning, 0)), if g.maxRetries < 0 then Leaving(true) else Attempting(0))
    case Attempting(a) =>
      var t := g.world(i, a);
      (match t.result
       case Unhealthy => (s.(status := Mark(s.status, name, Failed, a)), Leaving(false))
       case Succeeds => (s.(status := Mark(s.status, name, Cleaned, a)), Reporting(Cleanup(true, t.duration)))
       case Fails =>
         (s.(status := Mark(s.status, name, Cleaning, a)),
          if a == g.maxRetries then GivingUp(a) else Attempting(a + 1)))
    case GivingUp(a) =>
      (s.(status := Mark(s.status, name, Failed, a)), Reporting(Cleanup(false, g.world(i, a).duration)))
    case Reporting(c) => (s.(recorded := s.recorded + [(g.resources[name].kind, c)]), Leaving(c.success))
    case Leaving(ok) => (s.(errors := if ok then s.errors else s.errors + {i}, held := s.held - 1), Gone)
    case Gone => (s, Gone)
  }

  ghost predicate Executes(g: Group, s: State, steps: seq<nat>, s': State)
    requires WellFormed(g)
    decreases |steps|
  {
    if steps == [] then s == s'
    else Enabled(g, s, steps[0]) && Executes(g, Step(g, s, steps[0]), steps[1..], s')
  }

  // ----- the semaphore -----

  predicate Holding(pc: Pc) {
    !pc.Waiting? && !pc.Gone?
  }

  ghost predicate SemaphoreKept(g: Group, s: State) {
    && (forall i: nat :: i in s.visits <==> i < |g.names|)
    && s.held == Count(s.visits, Holding) && s.held <= g.limit
  }

  lemma StepKeepsSemaphore(g: Group, s: State, i: nat)
    requires WellFormed(g) && SemaphoreKept(g, s) && Enabled(g, s, i)
    ensures SemaphoreKept(g, Step(g, s, i))
  {
    CountUpdate(s.visits, i, VisitStep(g, s, i, s.visits[i]).1, Holding);
  }

  // ----- one visit, whatever the others do -----

  /** The status entry of that name, if any, shows that phase. */
  predicate Shows(status: seq<Status>, name: string, phase: Phase) {
    forall j :: 0 <= j < |status| && status[j].name == name ==> status[j].phase == phase
  }

  ghost predicate FailsBefore(g: Group, i: nat, attempt: nat) {
    forall b: nat :: b < attempt ==> g.world(i, b).result == Fails
  }

  /** The visit has brought its status to its end; two visits of one name may disturb
      each other. */
  ghost predicate Ends(g: Group, status: seq<Status>, i: nat)
    requires i < |g.names|
  {
    Distinct(g.names) ==> Shows(status, g.names[i], PhaseAfter(g.maxRetries, g.world, i))
  }

  ghost predicate VisitKept(g: Group, status: seq<Status>, errors: set<nat>, i: nat, pc: Pc)
    requires i < |g.names|
  {
    && (i in errors ==> pc.Gone?)
    && match pc
       case Attempting(a) => a <= g.maxRetries && FailsBefore(g, i, a)
       case GivingUp(a) => a == g.maxRetries && FailsBefore(g, i, a + 1)
       case Reporting(c) =>
         && Reported(g.maxRetries, g.world, i, 0) == Some(c)
         && (c.success <==> Cleans(g.maxRetries, g.world, i)) && Ends(g, status, i)
       case Leaving(ok) => (ok <==> Cleans(g.maxRetries, g.world, i)) && Ends(g, status, i)
       case Gone => (i in errors <==> !Cleans(g.maxRetries, g.world, i)) && Ends(g, status, i)
       case _ => true
  }

  /** After failures only, the report is that of the rest of the visit. */
  lemma {:induction false} ReportedLater(g: Group, i: nat, attempt: nat)
    requires attempt <= g.maxRetries && FailsBefore(g, i, attempt)
    ensures Reported(g.maxRetries, g.world, i, 0) == Reported(g.maxRetries, g.world, i, attempt)
  {
    if attempt > 0 {
      ReportedLater(g, i, attempt - 1);
    }
  }

  lemma StepKeepsVisit(g: Group, s: State, i: nat)
    requires WellFormed(g) && i < |g.names| && i in s.visits && Enabled(g, s, i)
    requires VisitKept(g, s.status, s.errors, i, s.visits[i])
    ensures var s' := Step(g, s, i); VisitKept(g, s'.status, s'.errors, i, s'.visits[i])
  {
    hide Cleans, PhaseAfter;
    NoAttempts(g.maxRetries, g.world, i);
    match s.visits[i] {
      case Attempting(a) =>
        ReportedLater(g, i, a);
        VisitEnds(g.maxRetries, g.world, i, a);
      case GivingUp(a) =>
        ReportedLater(g, i, a);
        VisitEnds(g.maxRetries, g.world, i, a);
      case _ =>
    }
  }

  lemma StepKeepsOthers(g: Group, s: State, i: nat, j: nat)
    requires WellFormed(g) && j < |g.names| && i != j && Enabled(g, s, i) && j in s.visits
    requires VisitKept(g, s.status, s.errors, j, s.visits[j])
    ensures var s' := Step(g, s, i); VisitKept(g, s'.status, s'.errors, j, s'.visits[j])
  {
    hide Cleans, PhaseAfter;
  }

  lemma StepKeepsStatus(g: Group, was: seq<Status>, s: State, i: nat)
    requires WellFormed(g) && Enabled(g, s, i) && OnlyOf(was, s.status, g.names)
    ensures OnlyOf(was, Step(g, s, i).status, g.names)
  {
    assert g.names[i] in g.names;
  }

  // ----- the metrics -----

  predicate Past(pc: Pc) {
    pc.Leaving? || pc.Gone?
  }

  function Times(cs: seq<Cleanup>, c: Cleanup): nat {
    multiset(cs)[c]
  }

  /** How often visit number i has to report c under one type, once it is past that. */
  ghost function Share(g: Group, i: nat, pc: Pc, kind: string, c: Cleanup): nat
    requires WellFormed(g) && i < |g.names|
  {
    if Past(pc) then Times(ReportedAs(g.maxRetries, g.resources[g.names[i]], g.world, i, kind), c) else 0
  }

  /** The same for the first n visits together. */
  ghost function Due(g: Group, visits: map<nat, Pc>, n: nat, kind: string, c: Cleanup): nat
    requires WellFormed(g) && n <= |g.names| && forall i: nat :: i < n ==> i in visits
  {
    if n == 0 then 0 else Due(g, visits, n - 1, kind, c) + Share(g, n - 1, visits[n - 1], kind, c)
  }

  lemma {:induction false} DueUpdate(g: Group, visits: map<nat, Pc>, i: nat, pc: Pc, n: nat, kind: string, c: Cleanup)
    requires WellFormed(g) && n <= |g.names| && forall i: nat :: i < n ==> i in visits
    requires i < |g.names| && i in visits
    ensures Due(g, visits[i := pc], n, kind, c) ==
            Due(g, visits, n, kind, c)
            + if i < n then Share(g, i, pc, kind, c) - Share(g, i, visits[i], kind, c) else 0
  {
    hide Share;
    if n > 0 {
      DueUpdate(g, visits, i, pc, n - 1, kind, c);
    }
  }

  /** The cleanups recorded under one type, in order. */
  function OfKind(recorded: seq<(string, Cleanup)>, kind: string): seq<Cleanup> {
    if recorded == [] then []
    else
      var last := recorded[|recorded| - 1];
      OfKind(recorded[..|recorded| - 1], kind) + if last.0 == kind then [last.1] else []
  }

  ghost predicate ReportsKept(g: Group, s: State, kind: string, c: Cleanup)
    requires WellFormed(g) && forall i: nat :: i < |g.names| ==> i in s.visits
  {
    Times(OfKind(s.recorded, kind), c) == Due(g, s.visits, |g.names|, kind, c)
  }

  /** Recording one more cleanup. */
  lemma RecordedOnce(recorded: seq<(string, Cleanup)>, r: (string, Cleanup), kind: string, c: Cleanup)
    ensures Times(OfKind(recorded + [r], kind), c) ==
            Times(OfKind(recorded, kind), c) + if r == (kind, c) then 1 else 0
  {
    assert (recorded + [r])[..|recorded|] == recorded;
  }

  /** What a visit reports is what it has to. */
  lemma ReportIsShare(g: Group, i: nat, pc: Pc, kind: string, c: Cleanup)
    requires WellFormed(g) && i < |g.names| && pc.Reporting?
    requires Reported(g.maxRetries, g.world, i, 0) == Some(pc.cleanup)
    ensures Share(g, i, Leaving(pc.cleanup.success), kind, c) ==
            if (g.resources[g.names[i]].kind, pc.cleanup) == (kind, c) then 1 else 0
  {
  }

  lemma NoShare(g: Group, i: nat, pc: Pc, kind: string, c: Cleanup)
    requires WellFormed(g) && i < |g.names| && (!Past(pc) || Reported(g.maxRetries, g.world, i, 0) == None)
    ensures Share(g, i, pc, kind, c) == 0
  {
  }

  /** A step records what its visit has to report. */
  lemma StepRecordsShare(g: Group, s: State, i: nat, kind: string, c: Cleanup)
    requires WellFormed(g) && Enabled(g, s, i) && VisitKept(g, s.status, s.errors, i, s.visits[i])
    ensures var s' := Step(g, s, i);
            Times(OfKind(s'.recorded, kind), c) + Share(g, i, s.visits[i], kind, c) ==
            Times(OfKind(s.recorded, kind), c) + Share(g, i, s'.visits[i], kind, c)
  {
    hide Cleans, Ends, Times, OfKind, ReportedAs;
    var pc, pc' := s.visits[i], Step(g, s, i).visits[i];
    match pc {
      case Reporting(r) =>
        RecordedOnce(s.recorded, (g.resources[g.names[i]].kind, r), kind, c);
        ReportIsShare(g, i, pc, kind, c);
      case Leaving(_) =>
      case Attempting(a) =>
        ReportedLater(g, i, a);
        NoShare(g, i, pc', kind, c);
      case _ =>
        NoAttempts(g.maxRetries, g.world, i);
        NoShare(g, i, pc', kind, c);
    }
  }

  lemma StepKeepsReports(g: Group, s: State, i: nat, kind: string, c: Cleanup)
    requires WellFormed(g) && SemaphoreKept(g, s) && Enabled(g, s, i) && ReportsKept(g, s, kind, c)
    requires VisitKept(g, s.status, s.errors, i, s.visits[i])
    ensures SemaphoreKept(g, Step(g, s, i)) && ReportsKept(g, Step(g, s, i), kind, c)
  {
    hide VisitKept, Share, Times, OfKind;
    StepKeepsSemaphore(g, s, i);
    StepRecordsShare(g, s, i, kind, c);
    DueUpdate(g, s.visits, i, VisitStep(g, s, i, s.visits[i]).1, |g.names|, kind, c);
  }

  lemma {:induction false} DueAtEnd(g: Group, visits: map<nat, Pc>, n: nat, kind: string, c: Cleanup)
    requires WellFormed(g) && n <= |g.names| && forall i: nat :: i < n ==> i in visits && visits[i].Gone?
    ensures Due(g, visits, n, kind, c) ==
            Times(Reports(g.maxRetries, g.resources, g.names[..n], g.world, 0, kind), c)
  {
    hide ReportedAs;
    if n > 0 {
      DueAtEnd(g, visits, n - 1, kind, c);
      assert g.names[..n] == g.names[..n - 1] + [g.names[n - 1]];
      ReportsSnoc(g.maxRetries, g.resources, g.names[..n - 1], g.names[n - 1], g.world, 0, kind);
    }
  }

  // ----- every interleaving -----

  ghost predicate Invariant(g: Group, was: seq<Status>, s: State)
    requires WellFormed(g)
  {
    && SemaphoreKept(g, s)
    && OnlyOf(was, s.status, g.names)
    && (forall i :: i in s.visits ==> VisitKept(g, s.status, s.errors, i, s.visits[i]))
    && (forall i :: i in s.errors ==> i in s.visits)
    && (forall kind, c :: ReportsKept(g, s, kind, c))
  }

  lemma StepKeepsInvariant(g: Group, was: seq<Status>, s: State, i: nat)
    requires WellFormed(g) && Invariant(g, was, s) && Enabled(g, s, i)
    ensures Invariant(g, was, Step(g, s, i))
  {
    hide VisitKept, VisitStep, ReportsKept, OnlyOf;
    StepKeepsSemaphore(g, s, i);
    StepKeepsStatus(g, was, s, i);
    StepKeepsVisit(g, s, i);
    forall j | j in s.visits && j != i {
      StepKeepsOthers(g, s, i, j);
    }
    forall kind, c ensures ReportsKept(g, Step(g, s, i), kind, c) {
      StepKeepsReports(g, s, i, kind, c);
    }
    ErrorsAreVisits(g, s, i);
  }

  lemma ErrorsAreVisits(g: Group, s: State, i: nat)
    requires WellFormed(g) && Enabled(g, s, i) && forall j :: j in s.errors ==> j in s.visits
    ensures forall j :: j in Step(g, s, i).errors ==> j in Step(g, s, i).visits
  {
  }

  lemma {:induction false} InvariantOverRuns(g: Group, was: seq<Status>, s: State, steps: seq<nat>, s': State)
    requires WellFormed(g) && Invariant(g, was, s) && Executes(g, s, steps, s')
    ensures Invariant(g, was, s')
    decreases |steps|
  {
    if steps != [] {
      StepKeepsInvariant(g, was, s, steps[0]);
      InvariantOverRuns(g, was, Step(g, s, steps[0]), steps[1..], s');
    }
  }

  lemma {:induction false} NothingDue(g: Group, visits: map<nat, Pc>, n: nat, kind: string, c: Cleanup)
    requires WellFormed(g) && n <= |g.names| && forall i: nat :: i < n ==> i in visits && !Past(visits[i])
    ensures Due(g, visits, n, kind, c) == 0
  {
    if n > 0 {
      NothingDue(g, visits, n - 1, kind, c);
    }
  }

  lemma InitialInvariant(g: Group, status: seq<Status>)
    requires WellFormed(g)
    ensures Invariant(g, status, Initial(g, status))
  {
    var s := Initial(g, status);
    assert Where(s.visits, Holding) == {};
    forall kind, c ensures ReportsKept(g, s, kind, c) {
      NothingDue(g, s.visits, |g.names|, kind, c);
    }
  }

  /** In every interleaving no more resources are cleaned at a time than the limit says,
      and once all goroutines are gone the group has done what visiting the names one
      after the other does: there are errors unless all visits succeed, every name shows
      the end of its visit, all other statuses are untouched, and each type's metrics
      got the same cleanups, in some order. */
  lemma EveryInterleaving(g: Group, status: seq<Status>, steps: seq<nat>, s: State)
    requires WellFormed(g) && Executes(g, Initial(g, status), steps, s)
    ensures Count(s.visits, Holding) <= g.limit
    ensures OnlyOf(status, s.status, g.names)
    ensures AllGone(s) ==>
              && (s.errors == {} <==> AllClean(g.maxRetries, g.world, 0, |g.names|))
              && (Distinct(g.names) ==> Settled(s.status, g.names, g.maxRetries, g.world, 0))
              && forall kind :: multiset(OfKind(s.recorded, kind)) ==
                                multiset(Reports(g.maxRetries, g.resources, g.names, g.world, 0, kind))
  {
    InitialInvariant(g, status);
    InvariantOverRuns(g, status, Initial(g, status), steps, s);
    if AllGone(s) {
      AtTheEnd(g, status, s);
    }
  }

  predicate AllGone(s: State) {
    forall i :: i in s.visits ==> s.visits[i].Gone?
  }

  lemma AtTheEnd(g: Group, status: seq<Status>, s: State)
    requires WellFormed(g) && Invariant(g, status, s) && AllGone(s)
    ensures s.errors == {} <==> AllClean(g.maxRetries, g.world, 0, |g.names|)
    ensures Distinct(g.names) ==> Settled(s.status, g.names, g.maxRetries, g.world, 0)
    ensures forall kind :: multiset(OfKind(s.recorded, kind)) ==
                           multiset(Reports(g.maxRetries, g.resources, g.names, g.world, 0, kind))
  {
    hide Cleans, PhaseAfter, Reports, OfKind, Due;
    forall i: nat | i < |g.names| ensures VisitKept(g, s.status, s.errors, i, Gone) {
      assert i in s.visits && s.visits[i] == Gone;
    }
    if s.errors != {} {
      var i :| i in s.errors;
      assert i in s.visits && VisitKept(g, s.status, s.errors, i, Gone) && !Cleans(g.maxRetries, g.world, i);
    } else {
      forall i: nat | i < |g.names| ensures Cleans(g.maxRetries, g.world, i) {
        assert VisitKept(g, s.status, s.errors, i, Gone);
      }
    }
    if Distinct(g.names) {
      forall i, j | 0 <= i < |g.names| && 0 <= j < |s.status| && s.status[j].name == g.names[i]
        ensures s.status[j].phase == PhaseAfter(g.maxRetries, g.world, 0 + i)
      {
        assert VisitKept(g, s.status, s.errors, i, Gone);
      }
    }
    forall kind ensures multiset(OfKind(s.recorded, kind)) ==
                        multiset(Reports(g.maxRetries, g.resources, g.names, g.world, 0, kind))
    {
      SameReports(g, status, s, kind);
    }
  }

  lemma SameReports(g: Group, status: seq<Status>, s: State, kind: string)
    requires WellFormed(g) && Invariant(g, status, s) && AllGone(s)
    ensures multiset(OfKind(s.recorded, kind)) ==
            multiset(Reports(g.maxRetries, g.resources, g.names, g.world, 0, kind))
  {
    hide Reports, OfKind, Due;
    var made, reports := OfKind(s.recorded, kind), Reports(g.maxRetries, g.resources, g.names, g.world, 0, kind);
    forall c ensures multiset(made)[c] == multiset(reports)[c] {
      assert ReportsKept(g, s, kind, c) && g.names[..|g.names|] == g.names;
      DueAtEnd(g, s.visits, |g.names|, kind, c);
      assert Times(made, c) == Times(reports, c);
    }
  }

  /** With room for at least one, some goroutine can always go on until all are gone. */
  lemma NoDeadlock(g: Group, status: seq<Status>, s: State) returns (i: nat)
    requires WellFormed(g) && Invariant(g, status, s) && g.limit > 0 && !AllGone(s)
    ensures Enabled(g, s, i)
  {
    i :| i in s.visits && !s.visits[i].Gone?;
    if s.visits[i].Waiting? && s.held > 0 {
      assert Where(s.visits, Holding) != {};
      i :| i in Where(s.visits, Holding);
    }
    assert s.visits[i].Leaving? ==> i in Where(s.visits, Holding);
  }

  // ----- termination -----

  function Attempts(g: Group): nat {
    if g.maxRetries < 0 then 0 else g.maxRetries + 1
  }

  /** A bound on the operations still ahead of a visit. */
  function StepsLeft(g: Group, pc: Pc): nat {
    match pc
    case Waiting => Attempts(g) + 5
    case Entering => Attempts(g) + 4
    case Attempting(a) => 3 + if a < Attempts(g) then Attempts(g) - a else 0
    case GivingUp(_) => 3
    case Reporting(_) => 2
    case Leaving(_) => 1
    case Gone => 0
  }

  ghost function Work(g: Group, visits: map<nat, Pc>, n: nat): nat
    requires forall i: nat :: i < n ==> i in visits
  {
    if n == 0 then 0 else Work(g, visits, n - 1) + StepsLeft(g, visits[n - 1])
  }

  lemma {:induction false} WorkUpdate(g: Group, visits: map<nat, Pc>, i: nat, pc: Pc, n: nat)
    requires (forall i: nat :: i < n ==> i in visits) && i in visits
    ensures Work(g, visits[i := pc], n) ==
            Work(g, visits, n) + if i < n then StepsLeft(g, pc) - StepsLeft(g, visits[i]) else 0
  {
    hide StepsLeft;
    if n > 0 {
      WorkUpdate(g, visits, i, pc, n - 1);
    }
  }

  lemma VisitProgresses(g: Group, s: State, i: nat)
    requires WellFormed(g) && Enabled(g, s, i) && VisitKept(g, s.status, s.errors, i, s.visits[i])
    ensures StepsLeft(g, VisitStep(g, s, i, s.visits[i]).1) < StepsLeft(g, s.visits[i])
  {
    hide Cleans, Ends;
  }

  lemma {:induction false} WorkBound(g: Group, n: nat, status: seq<Status>)
    requires n <= |g.names|
    ensures Work(g, Initial(g, status).visits, n) == n * (Attempts(g) + 5)
  {
    if n > 0 {
      WorkBound(g, n - 1, status);
    }
  }

  lemma {:induction false} TerminatesFrom(g: Group, was: seq<Status>, s: State, steps: seq<nat>, s': State)
    requires WellFormed(g) && Invariant(g, was, s) && Executes(g, s, steps, s')
    ensures |steps| <= Work(g, s.visits, |g.names|)
    decreases |steps|
  {
    hide VisitKept, ReportsKept, OnlyOf, StepsLeft, VisitStep;
    if steps != [] {
      var i := steps[0];
      StepKeepsInvariant(g, was, s, i);
      VisitProgresses(g, s, i);
      WorkUpdate(g, s.visits, i, VisitStep(g, s, i, s.visits[i]).1, |g.names|);
      TerminatesFrom(g, was, Step(g, s, i), steps[1..], s');
    }
  }

  /** Every run takes a bounded number of steps, whatever the scheduler does; with
      NoDeadlock, every group with room for one ends with all goroutines gone. */
  lemma Terminates(g: Group, status: seq<Status>, steps: seq<nat>, s: State)
    requires WellFormed(g) && Executes(g, Initial(g, status), steps, s)
    ensures |steps| <= |g.names| * (Attempts(g) + 5)
  {
    InitialInvariant(g, status);
    TerminatesFrom(g, status, Initial(g, status), steps, s);
    WorkBound(g, |g.names|, status);
  }
}
