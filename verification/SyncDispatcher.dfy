/** Syncing all connectors at startup: a dispatcher that pages through the listing
    and starts one worker per connector, at most five at a time. */
module SyncDispatcher {
  import opened Common

  const CONCURRENCY := 5
  const PAGE_LIMIT := 100

  type Id = nat

  /** What the list call number k (from 0) would find in full; it may change while
      the dispatcher walks. */
  type Listing = nat -> seq<Id>

  function Page(ids: seq<Id>, offset: nat): seq<Id> {
    if offset >= |ids| then []
    else if offset + PAGE_LIMIT < |ids| then ids[offset..offset + PAGE_LIMIT]
    else ids[offset..]
  }

  /** The page and the has-more flag of call number k, which asks from 100 k on. */
  function PageOf(ls: Listing, k: nat): seq<Id> {
    Page(ls(k), PAGE_LIMIT * k)
  }

  predicate MoreAfter(ls: Listing, k: nat) {
    PAGE_LIMIT * k + |PageOf(ls, k)| < |ls(k)|
  }

  datatype Dispatcher =
    | ListPage
    | Acquire(i: nat) | AddToGroup(i: nat) | Spawn(i: nat)
    | AwaitWorkers
    | CloseDone
    | Finished

  datatype Worker = Syncing(id: Id) | Leaving(id: Id) | Gone(id: Id)

  datatype State = State(
    dispatcher: Dispatcher,
    semaphore: int,
    group: int,
    cancelled: bool,
    listFailed: bool,
    doneClosed: bool,
    workers: map<nat, Worker>,
    // the run so far: successful list calls, connectors dispatched
    calls: nat,
    dispatched: seq<Id>)

  const INITIAL := State(ListPage, 0, 0, false, false, false, map[], 0, [])

  /** Cancel is the caller's; Work(w) lets worker w go on; Dispatch lets the dispatcher
      go on, listOk telling whether a list call succeeds. */
  datatype Action = Cancel | Dispatch(listOk: bool) | Work(w: nat)

  /** The page being dispatched, and whether another one follows. */
  function CurrentPage(ls: Listing, s: State): seq<Id> {
    if s.calls == 0 then [] else PageOf(ls, s.calls - 1)
  }

  predicate CurrentMore(ls: Listing, s: State) {
    s.calls > 0 && MoreAfter(ls, s.calls - 1)
  }

  predicate Enabled(ls: Listing, s: State, a: Action) {
    match a
    case Cancel => !s.cancelled
    case Dispatch(_) => CanDispatch(s, CurrentPage(ls, s))
    case Work(w) => w in s.workers && !s.workers[w].Gone?
  }

  /** Only a full semaphore and a running group block the dispatcher. */
  predicate CanDispatch(s: State, page: seq<Id>) {
    match s.dispatcher
    case Acquire(i) => i < |page| ==> s.semaphore < CONCURRENCY
    case AddToGroup(i) => i < |page|
    case Spawn(i) => i < |page|
    case AwaitWorkers => s.group == 0
    case Finished => false
    case _ => true
  }

  function Step(ls: Listing, s: State, a: Action): State
    requires Enabled(ls, s, a)
  {
    match a
    case Cancel => s.(cancelled := true)
    case Dispatch(listOk) => DispatchStep(s, CurrentPage(ls, s), CurrentMore(ls, s), listOk)
    case Work(w) =>
      match s.workers[w]
      case Syncing(id) => s.(workers := s.workers[w := Leaving(id)], semaphore := s.semaphore - 1)
      case Leaving(id) => s.(workers := s.workers[w := Gone(id)], group := s.group - 1)
      case Gone(_) => s
  }

  function DispatchStep(s: State, page: seq<Id>, more: bool, listOk: bool): State
    requires CanDispatch(s, page)
  {
    match s.dispatcher
    case ListPage =>
      if listOk then s.(dispatcher := Acquire(0), calls := s.calls + 1)
      else s.(dispatcher := AwaitWorkers, listFailed := true)
    case Acquire(i) =>
      if i < |page| then s.(dispatcher := AddToGroup(i), semaphore := s.semaphore + 1)
      else if !more || s.cancelled then s.(dispatcher := AwaitWorkers)
      else s.(dispatcher := ListPage)
    case AddToGroup(i) => s.(dispatcher := Spawn(i), group := s.group + 1)
    case Spawn(i) =>
      s.(dispatcher := Acquire(i + 1), workers := s.workers[|s.dispatched| := Syncing(page[i])],
         dispatched := s.dispatched + [page[i]])
    case AwaitWorkers => s.(dispatcher := CloseDone)
    case CloseDone => s.(dispatcher := Finished, doneClosed := true)
    case Finished => s
  }

  ghost predicate Executes(ls: Listing, s: State, acts: seq<Action>, s': State)
    decreases |acts|
  {
    if acts == [] then s == s'
    else Enabled(ls, s, acts[0]) && Executes(ls, Step(ls, s, acts[0]), acts[1..], s')
  }

  // ----- the workers -----

  predicate InFlight(w: Worker) {
    w.Syncing?
  }

  predicate Counted(w: Worker) {
    !w.Gone?
  }

  /** One worker has been started for each of these connectors, in this order. */
  ghost predicate Starts(s: State, ids: seq<Id>) {
    && (forall w: nat :: w in s.workers <==> w < |ids|)
    && (forall w :: w in s.workers ==> s.workers[w].id == ids[w])
  }

  /** And has finished. */
  ghost predicate Synced(s: State, ids: seq<Id>) {
    && (forall w: nat :: w in s.workers <==> w < |ids|)
    && (forall w :: w in s.workers ==> s.workers[w] == Gone(ids[w]))
  }

  ghost predicate WorkersKept(s: State) {
    && s.semaphore == Count(s.workers, InFlight) + (if s.dispatcher.AddToGroup? || s.dispatcher.Spawn? then 1 else 0)
    && s.semaphore <= CONCURRENCY
    && s.group == Count(s.workers, Counted) + (if s.dispatcher.Spawn? then 1 else 0)
    && Starts(s, s.dispatched)
    && (s.dispatcher.CloseDone? || s.dispatcher.Finished? ==> s.group == 0)
    && (s.doneClosed <==> s.dispatcher.Finished?)
  }

  lemma StepKeepsWorkers(ls: Listing, s: State, a: Action)
    requires WorkersKept(s) && Enabled(ls, s, a)
    ensures WorkersKept(Step(ls, s, a))
  {
    match a {
      case Cancel =>
      case Dispatch(listOk) => DispatchKeepsWorkers(s, CurrentPage(ls, s), CurrentMore(ls, s), listOk);
      case Work(w) =>
        CountUpdate(s.workers, w, Step(ls, s, a).workers[w], InFlight);
        CountUpdate(s.workers, w, Step(ls, s, a).workers[w], Counted);
    }
  }

  lemma DispatchKeepsWorkers(s: State, page: seq<Id>, more: bool, listOk: bool)
    requires WorkersKept(s) && CanDispatch(s, page)
    ensures WorkersKept(DispatchStep(s, page, more, listOk))
  {
    if s.dispatcher.Spawn? {
      var w := Syncing(page[s.dispatcher.i]);
      CountSpawn(s.workers, |s.dispatched|, w, InFlight);
      CountSpawn(s.workers, |s.dispatched|, w, Counted);
    }
  }

  // ----- the pages -----

  /** All connectors of the first n pages. */
  function PagesBefore(ls: Listing, n: nat): seq<Id> {
    if n == 0 then [] else PagesBefore(ls, n - 1) + PageOf(ls, n - 1)
  }

  /** Every page before number n announced a further one. */
  ghost predicate MoreBefore(ls: Listing, n: int) {
    forall k: nat :: k < n ==> MoreAfter(ls, k)
  }

  /** Everything dispatched so far is, in order, the pages walked so far. */
  ghost predicate PagesKept(ls: Listing, s: State) {
    match s.dispatcher
    case ListPage => s.dispatched == PagesBefore(ls, s.calls) && MoreBefore(ls, s.calls)
    case Acquire(i) => InPage(ls, s, i)
    case AddToGroup(i) => InPage(ls, s, i) && i < |CurrentPage(ls, s)|
    case Spawn(i) => InPage(ls, s, i) && i < |CurrentPage(ls, s)|
    case _ =>
      && s.dispatched == PagesBefore(ls, s.calls)
      && MoreBefore(ls, s.calls - 1)
      && (!s.listFailed && !s.cancelled ==> s.calls > 0 && !CurrentMore(ls, s))
  }

  ghost predicate InPage(ls: Listing, s: State, i: nat) {
    && s.calls > 0
    && i <= |CurrentPage(ls, s)|
    && s.dispatched == PagesBefore(ls, s.calls - 1) + CurrentPage(ls, s)[..i]
    && MoreBefore(ls, s.calls - 1)
  }

  lemma StepKeepsPages(ls: Listing, s: State, a: Action)
    requires PagesKept(ls, s) && Enabled(ls, s, a)
    ensures PagesKept(ls, Step(ls, s, a))
  {
    if a.Dispatch? {
      match s.dispatcher {
        case ListPage => PageBegins(ls, s, a);
        case Acquire(i) => PageEnds(ls, s, a);
        case Spawn(i) => PageAdvances(ls, s, a, i);
        case _ => PageUnchanged(ls, s, a);
      }
    } else {
      PageUnchanged(ls, s, a);
    }
  }

  lemma PageUnchanged(ls: Listing, s: State, a: Action)
    requires PagesKept(ls, s) && Enabled(ls, s, a)
    requires a.Dispatch? ==> !s.dispatcher.ListPage? && !s.dispatcher.Acquire? && !s.dispatcher.Spawn?
    ensures PagesKept(ls, Step(ls, s, a))
  {
    hide PageOf, MoreAfter;
    var s' := Step(ls, s, a);
    assert s'.calls == s.calls && s'.dispatched == s.dispatched;
    assert CurrentPage(ls, s') == CurrentPage(ls, s) && CurrentMore(ls, s') == CurrentMore(ls, s);
  }

  lemma PageBegins(ls: Listing, s: State, a: Action)
    requires PagesKept(ls, s) && s.dispatcher.ListPage? && a.Dispatch?
    ensures PagesKept(ls, Step(ls, s, a))
  {
    assert PagesBefore(ls, s.calls) + PageOf(ls, s.calls)[..0] == PagesBefore(ls, s.calls);
  }

  lemma PageEnds(ls: Listing, s: State, a: Action)
    requires PagesKept(ls, s) && s.dispatcher.Acquire? && a.Dispatch? && Enabled(ls, s, a)
    ensures PagesKept(ls, Step(ls, s, a))
  {
    hide PageOf, MoreAfter;
    var page := CurrentPage(ls, s);
    assert page[..|page|] == page;
    assert PagesBefore(ls, s.calls) == PagesBefore(ls, s.calls - 1) + page;
  }

  lemma PageAdvances(ls: Listing, s: State, a: Action, i: nat)
    requires PagesKept(ls, s) && s.dispatcher == Spawn(i) && a.Dispatch?
    ensures PagesKept(ls, Step(ls, s, a))
  {
    hide PageOf, MoreAfter;
    var earlier, page := PagesBefore(ls, s.calls - 1), CurrentPage(ls, s);
    assert page[..i + 1] == page[..i] + [page[i]];
    assert earlier + page[..i] + [page[i]] == earlier + page[..i + 1];
  }

  ghost predicate Invariant(ls: Listing, s: State) {
    WorkersKept(s) && PagesKept(ls, s)
  }

  lemma {:induction false} InvariantOverRuns(ls: Listing, s: State, acts: seq<Action>, s': State)
    requires Invariant(ls, s) && Executes(ls, s, acts, s')
    ensures Invariant(ls, s')
    decreases |acts|
  {
    if acts != [] {
      StepKeepsWorkers(ls, s, acts[0]);
      StepKeepsPages(ls, s, acts[0]);
      InvariantOverRuns(ls, Step(ls, s, acts[0]), acts[1..], s');
    }
  }

  lemma InitialInvariant(ls: Listing)
    ensures Invariant(ls, INITIAL)
  {
    assert Where(INITIAL.workers, InFlight) == {} && Where(INITIAL.workers, Counted) == {};
  }

  /** In every interleaving at most five syncs are in flight, and once the done
      channel is closed every dispatched sync has finished. */
  lemma BoundedAndDrained(ls: Listing, acts: seq<Action>, s: State)
    requires Executes(ls, INITIAL, acts, s)
    ensures Count(s.workers, InFlight) <= CONCURRENCY
    ensures |s.workers.Keys| == |s.dispatched|
    ensures s.doneClosed ==> forall w :: w in s.workers ==> s.workers[w].Gone?
  {
    InitialInvariant(ls);
    InvariantOverRuns(ls, INITIAL, acts, s);
    KeysBelow(s.workers.Keys, |s.dispatched|);
    if s.doneClosed {
      forall w | w in s.workers ensures s.workers[w].Gone? {
        assert w in Where(s.workers, Counted) <==> Counted(s.workers[w]);
      }
    }
  }

  lemma {:induction false} KeysBelow(ks: set<nat>, n: nat)
    requires forall k: nat :: k in ks <==> k < n
    ensures |ks| == n
  {
    if n == 0 {
      assert ks == {};
    } else {
      KeysBelow(ks - {n - 1}, n - 1);
    }
  }

  // ----- what gets dispatched -----

  /** Whatever the listing does: if no list call fails and nobody cancels, then when
      the done channel closes the connectors synced are, in order, those of the
      pages walked, every page but the last announced another one, and the last did not. */
  lemma DispatchesThePages(ls: Listing, acts: seq<Action>, s: State)
    requires Executes(ls, INITIAL, acts, s)
    requires s.doneClosed && !s.listFailed && !s.cancelled
    ensures s.calls > 0 && Synced(s, PagesBefore(ls, s.calls))
    ensures MoreBefore(ls, s.calls - 1) && !MoreAfter(ls, s.calls - 1)
    ensures forall id :: (exists w :: w in s.workers && s.workers[w] == Gone(id)) <==> OnAPage(ls, s.calls, id)
  {
    InitialInvariant(ls);
    InvariantOverRuns(ls, INITIAL, acts, s);
    AllSynced(ls, s);
    forall id ensures (exists w :: w in s.workers && s.workers[w] == Gone(id)) <==> OnAPage(ls, s.calls, id) {
      AmongThePages(ls, s.calls, id);
      WorkerFor(s, PagesBefore(ls, s.calls), id);
    }
  }

  lemma WorkerFor(s: State, ids: seq<Id>, id: Id)
    requires Synced(s, ids)
    ensures (exists w :: w in s.workers && s.workers[w] == Gone(id)) <==> id in ids
  {
    if id in ids {
      var w: nat :| w < |ids| && ids[w] == id;
      assert w in s.workers;
    }
  }

  /** Once the done channel is closed all workers have finished. */
  lemma AllSynced(ls: Listing, s: State)
    requires Invariant(ls, s) && s.doneClosed
    ensures Synced(s, s.dispatched)
  {
    forall w | w in s.workers ensures s.workers[w] == Gone(s.dispatched[w]) {
      assert w in Where(s.workers, Counted) <==> Counted(s.workers[w]);
    }
  }

  /** Failed list calls, a cancelled walk and walks under way included: the connectors
      dispatched so far are, in order, those of the pages walked, short of a part of the
      last page while it is being walked, and every page but the last announced another
      one. */
  lemma DispatchesAPrefix(ls: Listing, acts: seq<Action>, s: State)
    requires Executes(ls, INITIAL, acts, s)
    ensures Starts(s, s.dispatched)
    ensures s.dispatched <= PagesBefore(ls, s.calls) && MoreBefore(ls, s.calls - 1)
    ensures s.calls > 0 ==> PagesBefore(ls, s.calls - 1) <= s.dispatched
    ensures s.doneClosed ==> Synced(s, PagesBefore(ls, s.calls))
  {
    hide PageOf, MoreAfter;
    InitialInvariant(ls);
    InvariantOverRuns(ls, INITIAL, acts, s);
    if s.doneClosed {
      AllSynced(ls, s);
    }
    if s.calls > 0 {
      var earlier, page := PagesBefore(ls, s.calls - 1), PageOf(ls, s.calls - 1);
      assert PagesBefore(ls, s.calls) == earlier + page;
      assert s.dispatched == earlier + page || exists i: nat :: i <= |page| && s.dispatched == earlier + page[..i];
    }
  }

  /** Once cancelled the walk lists no further page, but one if it was just about to. */
  lemma {:induction false} CancelStopsTheWalk(ls: Listing, s: State, acts: seq<Action>, s': State)
    requires s.cancelled && Executes(ls, s, acts, s')
    ensures s'.cancelled && s'.calls <= s.calls + (if s.dispatcher.ListPage? then 1 else 0)
    decreases |acts|
  {
    if acts != [] {
      CancelStopsTheWalk(ls, Step(ls, s, acts[0]), acts[1..], s');
    }
  }

  ghost predicate OnAPage(ls: Listing, n: nat, id: Id) {
    exists k: nat :: k < n && id in PageOf(ls, k)
  }

  lemma {:induction false} AmongThePages(ls: Listing, n: nat, id: Id)
    ensures id in PagesBefore(ls, n) <==> OnAPage(ls, n, id)
  {
    hide PageOf;
    if n > 0 {
      AmongThePages(ls, n - 1, id);
      InEither(PagesBefore(ls, n - 1), PageOf(ls, n - 1), id);
    }
  }

  lemma InEither<T>(a: seq<T>, b: seq<T>, x: T)
    ensures x in a + b <==> x in a || x in b
  {
  }

  ghost predicate Fixed(ls: Listing, all: seq<Id>) {
    forall k :: ls(k) == all
  }

  lemma {:induction false} FixedPages(ls: Listing, all: seq<Id>, n: nat)
    requires Fixed(ls, all)
    requires MoreBefore(ls, n - 1)
    ensures PagesBefore(ls, n) ==
            if PAGE_LIMIT * n < |all| then all[..PAGE_LIMIT * n] else all[..if n == 0 then 0 else |all|]
  {
    if n > 0 {
      FixedPages(ls, all, n - 1);
      if n > 1 {
        assert MoreAfter(ls, n - 2);
      }
      assert ls(n - 1) == all;
    }
  }

  /** If the listing stays fixed and no list call fails and nobody cancels, then when
      the done channel closes every listed connector has been dispatched exactly
      once, in listing order, by the least possible number of list calls. */
  lemma DispatchesAll(ls: Listing, all: seq<Id>, acts: seq<Action>, s: State)
    requires Fixed(ls, all) && Executes(ls, INITIAL, acts, s)
    requires s.doneClosed && !s.listFailed && !s.cancelled
    ensures Synced(s, all)
    ensures |all| <= PAGE_LIMIT * s.calls && (s.calls == 1 || PAGE_LIMIT * (s.calls - 1) < |all|)
  {
    DispatchesThePages(ls, acts, s);
    FixedPages(ls, all, s.calls);
    assert ls(s.calls - 1) == all;
    if s.calls > 1 {
      assert MoreAfter(ls, s.calls - 2) && ls(s.calls - 2) == all;
    }
  }

  /** The first page leaves the listing once its syncs have started. */
  ghost predicate FirstPageLeaves(ls: Listing, all: seq<Id>) {
    |all| > PAGE_LIMIT && ls(0) == all && forall k :: k > 0 ==> ls(k) == all[PAGE_LIMIT..]
  }

  /** The part of all that has index from up to to, as far as it goes. */
  function Between(all: seq<Id>, from: nat, to: nat): seq<Id>
    requires from <= to
  {
    if from >= |all| then [] else if to < |all| then all[from..to] else all[from..]
  }

  lemma BetweenJoins(all: seq<Id>, a: nat, b: nat, c: nat)
    requires a <= b <= c
    ensures Between(all, a, b) + Between(all, b, c) == Between(all, a, c)
  {
  }

  lemma ShrunkPage(ls: Listing, all: seq<Id>, k: nat)
    requires FirstPageLeaves(ls, all) && k > 0
    ensures PageOf(ls, k) == Between(all, PAGE_LIMIT * (k + 1), PAGE_LIMIT * (k + 2))
  {
    assert ls(k) == all[PAGE_LIMIT..];
  }

  lemma {:induction false} ShrunkPages(ls: Listing, all: seq<Id>, n: nat)
    requires FirstPageLeaves(ls, all) && n > 0
    ensures PagesBefore(ls, n) == all[..PAGE_LIMIT] + Between(all, 2 * PAGE_LIMIT, PAGE_LIMIT * (n + 1))
  {
    if n == 1 {
      assert PagesBefore(ls, 0) == [] && PageOf(ls, 0) == all[..PAGE_LIMIT];
    } else {
      ShrunkPages(ls, all, n - 1);
      ShrunkPage(ls, all, n - 1);
      BetweenJoins(all, 2 * PAGE_LIMIT, PAGE_LIMIT * n, PAGE_LIMIT * (n + 1));
    }
  }

  /** Without a fixed listing connectors get lost: if the first page leaves a listing
      of more than one page, every run that finishes unharmed skips exactly the
      connectors of the second page, and there is such a run. */
  lemma ShrinkingListingLosesConnectors(ls: Listing, all: seq<Id>)
    requires FirstPageLeaves(ls, all)
    ensures forall acts, s :: Executes(ls, INITIAL, acts, s) && s.doneClosed && !s.listFailed && !s.cancelled ==>
              Synced(s, all[..PAGE_LIMIT] + if |all| <= 2 * PAGE_LIMIT then [] else all[2 * PAGE_LIMIT..])
    ensures exists acts, s :: Executes(ls, INITIAL, acts, s) && s.doneClosed && !s.listFailed && !s.cancelled
  {
    forall acts, s | Executes(ls, INITIAL, acts, s) && s.doneClosed && !s.listFailed && !s.cancelled
      ensures Synced(s, all[..PAGE_LIMIT] + if |all| <= 2 * PAGE_LIMIT then [] else all[2 * PAGE_LIMIT..])
    {
      DispatchesThePages(ls, acts, s);
      ShrunkPages(ls, all, s.calls);
      assert s.calls > 1 ==> ls(s.calls - 1) == all[PAGE_LIMIT..];
    }
    InitialInvariant(ls);
    assert Bounded(ls, |all|) by {
      forall k ensures |ls(k)| <= |all| {
        assert k > 0 ==> ls(k) == all[PAGE_LIMIT..];
      }
    }
    var acts, s := Finishes(ls, |all|, INITIAL);
  }

  // ----- termination -----

  function DispatcherWork(total: nat, s: State): int {
    var left := total - |s.dispatched|;
    match s.dispatcher
    case ListPage => 8 * left + 5
    case Acquire(i) => 8 * left + (if i > 0 then 6 else 4)
    case AddToGroup(_) => 8 * left + 3
    case Spawn(_) => 8 * left + 2
    case AwaitWorkers => 2
    case CloseDone => 1
    case Finished => 0
  }

  /** The number of steps still possible is at most this. */
  ghost function Work(total: nat, s: State): int {
    DispatcherWork(total, s) + Count(s.workers, InFlight) + Count(s.workers, Counted)
  }

  /** The listing never holds more than n connectors. */
  ghost predicate Bounded(ls: Listing, n: nat) {
    forall k :: |ls(k)| <= n
  }

  /** A page that announces another one is full. */
  lemma {:induction false} FullPages(ls: Listing, n: nat)
    requires MoreBefore(ls, n)
    ensures |PagesBefore(ls, n)| == PAGE_LIMIT * n
    ensures n > 0 ==> PAGE_LIMIT * n < |ls(n - 1)|
  {
    if n > 0 {
      FullPages(ls, n - 1);
      assert MoreAfter(ls, n - 1);
    }
  }

  lemma DispatchedWithin(ls: Listing, n: nat, s: State)
    requires Bounded(ls, n) && PagesKept(ls, s)
    ensures |s.dispatched| <= n
    ensures s.dispatcher.AddToGroup? || s.dispatcher.Spawn? ==> |s.dispatched| < n
    ensures s.dispatcher.Acquire? && CurrentMore(ls, s) ==> CurrentPage(ls, s) != []
  {
    if s.dispatcher.ListPage? {
      FullPages(ls, s.calls);
      assert s.calls > 0 ==> |ls(s.calls - 1)| <= n;
    } else if s.calls > 0 {
      FullPages(ls, s.calls - 1);
      assert |ls(s.calls - 1)| <= n;
      assert s.calls > 1 ==> |ls(s.calls - 2)| <= n;
    }
  }

  /** With a bounded listing, fixed or not, every step but the caller's cancel brings
      the end nearer. */
  lemma EveryStepProgresses(ls: Listing, n: nat, s: State, a: Action)
    requires Bounded(ls, n) && Invariant(ls, s) && Enabled(ls, s, a)
    ensures 0 <= Work(n, Step(ls, s, a)) <= Work(n, s)
    ensures !a.Cancel? ==> Work(n, Step(ls, s, a)) < Work(n, s)
  {
    DispatchedWithin(ls, n, s);
    StepKeepsPages(ls, s, a);
    DispatchedWithin(ls, n, Step(ls, s, a));
    match a {
      case Cancel =>
      case Dispatch(listOk) => DispatchProgresses(n, s, CurrentPage(ls, s), CurrentMore(ls, s), listOk);
      case Work(w) => WorkProgresses(ls, n, s, w);
    }
  }

  lemma WorkProgresses(ls: Listing, total: nat, s: State, w: nat)
    requires Enabled(ls, s, Action.Work(w))
    ensures Work(total, Step(ls, s, Action.Work(w))) < Work(total, s)
  {
    CountUpdate(s.workers, w, Step(ls, s, Action.Work(w)).workers[w], InFlight);
    CountUpdate(s.workers, w, Step(ls, s, Action.Work(w)).workers[w], Counted);
  }

  lemma DispatchProgresses(total: nat, s: State, page: seq<Id>, more: bool, listOk: bool)
    requires WorkersKept(s) && CanDispatch(s, page) && |s.dispatched| <= total
    requires s.dispatcher.Spawn? ==> |s.dispatched| < total
    requires s.dispatcher.Acquire? && more ==> page != []
    ensures Work(total, DispatchStep(s, page, more, listOk)) < Work(total, s)
  {
    if s.dispatcher.Spawn? {
      var w := Syncing(page[s.dispatcher.i]);
      CountSpawn(s.workers, |s.dispatched|, w, InFlight);
      CountSpawn(s.workers, |s.dispatched|, w, Counted);
    }
  }

  /** As long as the end is not reached somebody can move: the semaphore and the
      group never block for good. */
  lemma NoDeadlock(ls: Listing, s: State)
    requires Invariant(ls, s) && !s.dispatcher.Finished?
    ensures exists a: Action :: !a.Cancel? && Enabled(ls, s, a)
  {
    var a := CanMove(ls, s);
  }

  lemma CanMove(ls: Listing, s: State) returns (a: Action)
    requires Invariant(ls, s) && !s.dispatcher.Finished?
    ensures a.Dispatch? || a.Work?
    ensures Enabled(ls, s, a) && (a.Dispatch? ==> a.listOk)
  {
    a := Dispatch(true);
    if !Enabled(ls, s, a) {
      assert Count(s.workers, InFlight) > 0 || Count(s.workers, Counted) > 0;
      assert Where(s.workers, InFlight) != {} || Where(s.workers, Counted) != {};
      var w :| w in Where(s.workers, InFlight) + Where(s.workers, Counted);
      a := Action.Work(w);
    }
  }

  function Moves(acts: seq<Action>): nat {
    if acts == [] then 0 else (if acts[0].Cancel? then 0 else 1) + Moves(acts[1..])
  }

  /** So a walk over at most n connectors is over after at most 8 n + 5 steps. */
  lemma {:induction false} Terminates(ls: Listing, n: nat, s: State, acts: seq<Action>, s': State)
    requires Bounded(ls, n) && Invariant(ls, s) && Executes(ls, s, acts, s')
    ensures Moves(acts) <= Work(n, s)
    decreases |acts|
  {
    if acts != [] {
      EveryStepProgresses(ls, n, s, acts[0]);
      StepKeepsWorkers(ls, s, acts[0]);
      StepKeepsPages(ls, s, acts[0]);
      Terminates(ls, n, Step(ls, s, acts[0]), acts[1..], s');
    } else {
      DispatchedWithin(ls, n, s);
    }
  }

  lemma InitialWork(ls: Listing, n: nat)
    ensures Invariant(ls, INITIAL) && Work(n, INITIAL) == 8 * n + 5
  {
    InitialInvariant(ls);
    assert Where(INITIAL.workers, InFlight) == {} && Where(INITIAL.workers, Counted) == {};
  }

  /** And from every reachable state the walk can finish, without a failing list call
      or a cancellation if there was none yet. */
  lemma {:induction false} Finishes(ls: Listing, n: nat, s: State) returns (acts: seq<Action>, s': State)
    requires Bounded(ls, n) && Invariant(ls, s)
    ensures Executes(ls, s, acts, s') && s'.doneClosed
    ensures s'.listFailed == s.listFailed && s'.cancelled == s.cancelled
    decreases Work(n, s)
  {
    hide PagesKept, PageOf, MoreAfter, DispatcherWork, Count;
    DispatchedWithin(ls, n, s);
    if s.dispatcher.Finished? {
      acts, s' := [], s;
    } else {
      var a := CanMove(ls, s);
      EveryStepProgresses(ls, n, s, a);
      StepKeepsWorkers(ls, s, a);
      StepKeepsPages(ls, s, a);
      var rest;
      rest, s' := Finishes(ls, n, Step(ls, s, a));
      acts := [a] + rest;
      assert acts[1..] == rest;
    }
  }
}
