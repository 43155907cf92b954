/** The resource cleanup manager: which resources are registered, in which order they
    are cleaned, and what one cleanup of everything does. */
module ResourceRegistry {
  import opened CleanupMetrics
  import opened Common

  datatype Resource = Resource(kind: string, priority: int, concurrent: bool)

  datatype Phase = Registered | Cleaning | Cleaned | Failed

  datatype Status = Status(name: string, phase: Phase, retryCount: int)

  /** What a resource does on one attempt; Unhealthy only if health checks are on. */
  datatype Try = Unhealthy | Succeeds | Fails

  datatype Attempt = Attempt(result: Try, duration: nat)

  /** How the resource visited as the n-th reacts to each attempt, and how long that takes. */
  type World = (nat, nat) -> Attempt

  datatype Outcome = Refused | Panicked | Succeeded | ConcurrentFailed | SequentialFailed

  function Names(status: seq<Status>): (ns: seq<string>)
    ensures |ns| == |status| && forall i :: 0 <= i < |ns| ==> ns[i] == status[i].name
  {
    seq(|status|, i requires 0 <= i < |status| => status[i].name)
  }

  /** The elements that satisfy p, in order. */
  function Select<T>(s: seq<T>, p: T -> bool): seq<T> {
    if s == [] then [] else Select(s[..|s| - 1], p) + (if p(s[|s| - 1]) then [s[|s| - 1]] else [])
  }

  function Concurrent(resources: map<string, Resource>): string -> bool {
    n => n in resources && resources[n].concurrent
  }

  function Sequential(resources: map<string, Resource>): string -> bool {
    n => !(n in resources && resources[n].concurrent)
  }

  function OtherThan(name: string): string -> bool {
    n => n != name
  }

  function NotNamed(name: string): Status -> bool {
    (s: Status) => s.name != name
  }

  /** Some attempt within the retries succeeds, after nothing but plain failures. */
  ghost predicate Cleans(maxRetries: int, w: World, n: nat) {
    maxRetries < 0 ||
    exists a: nat ::
      a <= maxRetries && w(n, a).result == Succeeds && forall b: nat :: b < a ==> w(n, b).result == Fails
  }

  /** The cleanup that a visit reports to the metrics: its last attempt, unless the
      resource was found unhealthy or there was no attempt at all. */
  function Reported(maxRetries: int, w: World, n: nat, attempt: nat): Option<Cleanup>
    decreases maxRetries - attempt
  {
    if attempt > maxRetries then None
    else
      match w(n, attempt).result
      case Unhealthy => None
      case Succeeds => Some(Cleanup(true, w(n, attempt).duration))
      case Fails =>
        if attempt == maxRetries then Some(Cleanup(false, w(n, attempt).duration))
        else Reported(maxRetries, w, n, attempt + 1)
  }

  function ReportedAs(maxRetries: int, resource: Resource, w: World, n: nat, kind: string): seq<Cleanup> {
    var c := Reported(maxRetries, w, n, 0);
    if c.Some? && kind == resource.kind then [c.value] else []
  }

  /** The cleanups of one type that visits to these names report, in order. */
  function Reports(maxRetries: int, resources: map<string, Resource>, names: seq<string>, w: World, from: nat,
                   kind: string)
    : seq<Cleanup>
  {
    if names == [] then []
    else
      var i := |names| - 1;
      Reports(maxRetries, resources, names[..i], w, from, kind)
      + if names[i] in resources then ReportedAs(maxRetries, resources[names[i]], w, from + i, kind) else []
  }

  /** A visit is reported exactly if some attempt succeeds or all of them fail, and as
      a success exactly in the first case. */
  lemma {:induction false} ReportedIs(maxRetries: int, w: World, n: nat, attempt: nat)
    requires forall b: nat :: b < attempt ==> w(n, b).result == Fails
    requires maxRetries >= 0 && attempt <= maxRetries
    ensures var c := Reported(maxRetries, w, n, attempt);
            && (c.Some? && c.value.success <==> Cleans(maxRetries, w, n))
            && (c.Some? && !c.value.success <==> forall a: nat :: a <= maxRetries ==> w(n, a).result == Fails)
            // the time reported is that of the attempt that ended the visit
            && (c.Some? && !c.value.success ==> c.value.duration == w(n, maxRetries).duration)
            && (c.Some? && c.value.success ==>
                  exists a: nat ::
                    && attempt <= a <= maxRetries && w(n, a).result == Succeeds && c.value.duration == w(n, a).duration
                    && forall b: nat :: b < a ==> w(n, b).result == Fails)
    decreases maxRetries - attempt
  {
    assert w(n, attempt).result == w(n, attempt).result;
    if w(n, attempt).result == Fails && attempt < maxRetries {
      ReportedIs(maxRetries, w, n, attempt + 1);
    }
  }

  lemma NoReports(maxRetries: int, resources: map<string, Resource>, w: World, from: nat)
    ensures forall k :: Reports(maxRetries, resources, [], w, from, k) == []
    ensures AllClean(maxRetries, w, from, from)
  {
  }

  lemma ReportsSnoc(maxRetries: int, resources: map<string, Resource>, names: seq<string>, name: string, w: World,
                    from: nat,
                    kind: string)
    requires name in resources
    ensures Reports(maxRetries, resources, names + [name], w, from, kind) ==
            Reports(maxRetries, resources, names, w, from, kind)
            + ReportedAs(maxRetries, resources[name], w, from + |names|, kind)
  {
    assert (names + [name])[..|names|] == names;
  }

  lemma AllCleanExtends(maxRetries: int, w: World, from: nat, to: nat)
    requires from <= to
    ensures AllClean(maxRetries, w, from, to + 1) <==> AllClean(maxRetries, w, from, to) && Cleans(maxRetries, w, to)
  {
  }

  /** Where a visit stands after failing attempts only, and how it ends. */
  lemma VisitEnds(maxRetries: int, w: World, n: nat, attempt: nat)
    requires attempt <= maxRetries && forall b: nat :: b < attempt ==> w(n, b).result == Fails
    ensures w(n, attempt).result == Succeeds ==> Cleans(maxRetries, w, n) && PhaseAfter(maxRetries, w, n) == Cleaned
    ensures w(n, attempt).result == Unhealthy || (w(n, attempt).result == Fails && attempt == maxRetries) ==>
              !Cleans(maxRetries, w, n) && PhaseAfter(maxRetries, w, n) == Failed
  {
    if w(n, attempt).result != Succeeds && Cleans(maxRetries, w, n) {
      var a: nat :| a <= maxRetries && w(n, a).result == Succeeds && forall b: nat :: b < a ==> w(n, b).result == Fails;
      assert a >= attempt;
    }
  }

  lemma NoAttempts(maxRetries: int, w: World, n: nat)
    ensures maxRetries < 0 ==> Cleans(maxRetries, w, n) && PhaseAfter(maxRetries, w, n) == Cleaning
    ensures maxRetries < 0 ==> Reported(maxRetries, w, n, 0) == None
  {
  }

  /** Reports of consecutive groups follow each other. */
  lemma {:induction false} ReportsAppend(maxRetries: int, resources: map<string, Resource>, a: seq<string>,
                                         b: seq<string>,
                                         w: World, from: nat, kind: string)
    ensures Reports(maxRetries, resources, a + b, w, from, kind) ==
            Reports(maxRetries, resources, a, w, from, kind) + Reports(maxRetries, resources, b, w, from + |a|, kind)
  {
    if b == [] {
      assert a + b == a;
    } else {
      var init := b[..|b| - 1];
      ReportsAppend(maxRetries, resources, a, init, w, from, kind);
      assert (a + b)[..|a + b| - 1] == a + init;
    }
  }

  /** The visits from..to all succeed. */
  ghost predicate AllClean(maxRetries: int, w: World, from: nat, to: nat) {
    forall n: nat :: from <= n < to ==> Cleans(maxRetries, w, n)
  }

  /** Each name once, and by priority, highest first. */
  ghost predicate ByPriority(resources: map<string, Resource>, order: seq<string>) {
    Distinct(order) && Descending(resources, order) && forall k :: k in resources ==> k in order
  }

  /** One resource's status has been replaced; the others are as they were. */
  ghost predicate Marked(was: seq<Status>, now: seq<Status>, name: string, phase: Phase) {
    && |now| == |was|
    && forall i :: 0 <= i < |was| ==>
         && now[i].name == was[i].name
         && if was[i].name == name then now[i].phase == phase else now[i] == was[i]
  }

  ghost function PhaseAfter(maxRetries: int, w: World, n: nat): Phase {
    if maxRetries < 0 then Cleaning else if Cleans(maxRetries, w, n) then Cleaned else Failed
  }

  lemma PhaseExactlyIf(maxRetries: int, w: World, n: nat)
    ensures PhaseAfter(maxRetries, w, n) == Cleaned <==> maxRetries >= 0 && Cleans(maxRetries, w, n)
    ensures PhaseAfter(maxRetries, w, n) == Failed <==> !Cleans(maxRetries, w, n)
    ensures PhaseAfter(maxRetries, w, n) == Cleaning <==> maxRetries < 0
  {
  }

  /** Every visited name shows the result of its last visit. */
  ghost predicate Settled(status: seq<Status>, names: seq<string>, maxRetries: int, w: World, from: nat) {
    forall i, j :: LastOf(names, i) && 0 <= j < |status| && status[j].name == names[i] ==>
      status[j].phase == PhaseAfter(maxRetries, w, from + i)
  }

  /** The visits to concurrent resources precede all others, and every concurrent resource
      of the order has been visited. */
  ghost predicate ConcurrentFirst(resources: map<string, Resource>, order: seq<string>, visited: seq<string>) {
    && (forall k :: k in visited ==> k in resources && k in order)
    && (forall i, j :: 0 <= i < j < |visited| && resources[visited[j]].concurrent ==> resources[visited[i]].concurrent)
    && (forall k :: k in order && k in resources && resources[k].concurrent ==> k in visited)
  }

  lemma GroupsInOrder(resources: map<string, Resource>, order: seq<string>, all: bool)
    requires forall k :: k in order ==> k in resources
    ensures var (first, second) := (Select(order, Concurrent(resources)), Select(order, Sequential(resources)));
            ConcurrentFirst(resources, order, first + if all then second else [])
  {
    hide Select;
    SelectMembers(order, Concurrent(resources));
    SelectMembers(order, Sequential(resources));
    var first, second := Select(order, Concurrent(resources)), Select(order, Sequential(resources));
    var visited := first + if all then second else [];
    forall k ensures k in first <==> k in order && resources[k].concurrent {
      assert k in first <==> k in order && Concurrent(resources)(k);
    }
    forall k ensures k in second <==> k in order && !resources[k].concurrent {
      assert k in second <==> k in order && Sequential(resources)(k);
    }
    forall i | 0 <= i < |visited| ensures resources[visited[i]].concurrent <==> i < |first| {
      if i < |first| {
        assert visited[i] == first[i] && first[i] in first;
      } else {
        assert visited[i] == second[i - |first|] && second[i - |first|] in second;
      }
    }
  }

  /** Position i is the last one of its name. */
  ghost predicate LastOf(names: seq<string>, i: int) {
    0 <= i < |names| && forall k :: i < k < |names| ==> names[k] != names[i]
  }

  /** Only statuses of these names have changed. */
  ghost predicate OnlyOf(was: seq<Status>, now: seq<Status>, names: seq<string>) {
    && |now| == |was|
    && forall j :: 0 <= j < |was| ==> now[j].name == was[j].name && (was[j].name !in names ==> now[j] == was[j])
  }

  lemma NothingSettled(status: seq<Status>, maxRetries: int, w: World, from: nat)
    ensures OnlyOf(status, status, []) && Settled(status, [], maxRetries, w, from)
  {
  }

  lemma MarkedSettles(was: seq<Status>, before: seq<Status>, now: seq<Status>, names: seq<string>, name: string,
                      maxRetries: int, w: World, from: nat)
    requires OnlyOf(was, before, names) && Settled(before, names, maxRetries, w, from)
    requires Marked(before, now, name, PhaseAfter(maxRetries, w, from + |names|))
    ensures OnlyOf(was, now, names + [name]) && Settled(now, names + [name], maxRetries, w, from)
  {
    hide PhaseAfter;
    var names' := names + [name];
    forall i, j | LastOf(names', i) && 0 <= j < |now| && now[j].name == names'[i]
      ensures now[j].phase == PhaseAfter(maxRetries, w, from + i)
    {
      if i < |names| {
        assert names'[|names|] == name && name != names[i];
        forall k | i < k < |names| ensures names[k] != names[i] {
          assert names'[k] == names[k];
        }
        assert LastOf(names, i);
      }
    }
  }

  /** A second group leaves the results of the first alone, for names of the first only. */
  lemma SettledBoth(before: seq<Status>, now: seq<Status>, first: seq<string>, second: seq<string>,
                    maxRetries: int, w: World)
    requires Settled(before, first, maxRetries, w, 0)
    requires OnlyOf(before, now, second) && Settled(now, second, maxRetries, w, |first|)
    ensures Settled(now, first + second, maxRetries, w, 0)
  {
    hide PhaseAfter;
    var names := first + second;
    forall i, j | LastOf(names, i) && 0 <= j < |now| && now[j].name == names[i]
      ensures now[j].phase == PhaseAfter(maxRetries, w, 0 + i)
    {
      if i < |first| {
        forall l | 0 <= l < |second| ensures second[l] != names[i] {
          assert names[|first| + l] == second[l];
        }
        forall k | i < k < |first| ensures first[k] != first[i] {
          assert names[k] == first[k];
        }
        assert before[j] == now[j] && LastOf(first, i);
      } else {
        forall k | i - |first| < k < |second| ensures second[k] != second[i - |first|] {
          assert names[|first| + k] == second[k];
        }
        assert LastOf(second, i - |first|);
        assert |first| + (i - |first|) == i;
      }
    }
  }

  lemma MarkedAgain(a: seq<Status>, b: seq<Status>, c: seq<Status>, name: string, p: Phase, q: Phase)
    requires Marked(a, b, name, p) && Marked(b, c, name, q)
    ensures Marked(a, c, name, q)
  {
  }

  method FindName(names: seq<string>, name: string) returns (i: nat)
    ensures i <= |names| && name !in names[..i] && (i < |names| ==> names[i] == name)
  {
    i := 0;
    while i < |names| && names[i] != name
      invariant i <= |names| && name !in names[..i]
    {
      i := i + 1;
    }
  }

  lemma {:induction false} SelectAll<T>(s: seq<T>, p: T -> bool)
    requires forall i :: 0 <= i < |s| ==> p(s[i])
    ensures Select(s, p) == s
  {
    if s != [] {
      SelectAll(s[..|s| - 1], p);
    }
  }

  /** Cutting out the only element that fails p is selecting the others. */
  lemma {:induction false} CutIsSelect<T>(s: seq<T>, p: T -> bool, i: nat)
    requires i < |s| && forall j :: 0 <= j < |s| ==> (p(s[j]) <==> j != i)
    ensures Select(s, p) == s[..i] + s[i + 1..]
  {
    var last := |s| - 1;
    if i == last {
      SelectAll(s[..last], p);
    } else {
      CutIsSelect(s[..last], p, i);
    }
  }

  /** The two groups together are all of it. */
  lemma {:induction false} SelectSplits<T>(s: seq<T>, p: T -> bool, q: T -> bool)
    requires forall x :: p(x) <==> !q(x)
    ensures multiset(Select(s, p)) + multiset(Select(s, q)) == multiset(s)
  {
    hide Select;
    if s == [] {
      SelectNothing(p);
      SelectNothing(q);
    } else {
      var before, x := s[..|s| - 1], s[|s| - 1];
      SelectSplits(before, p, q);
      SelectLast(s, p);
      SelectLast(s, q);
      Together(before, Select(before, p), Select(before, q), x);
      assert s == before + [x];
    }
  }

  lemma {:induction false} SelectMembers<T>(s: seq<T>, p: T -> bool)
    ensures forall x :: x in Select(s, p) <==> x in s && p(x)
  {
    if s != [] {
      var before := s[..|s| - 1];
      SelectMembers(before, p);
      assert s == before + [s[|s| - 1]];
    }
  }

  lemma SelectNothing<T>(p: T -> bool)
    ensures Select([], p) == []
  {
  }

  lemma SelectLast<T>(s: seq<T>, p: T -> bool)
    requires s != []
    ensures Select(s, p) == Select(s[..|s| - 1], p) + if p(s[|s| - 1]) then [s[|s| - 1]] else []
  {
  }

  lemma Together<T>(s: seq<T>, a: seq<T>, b: seq<T>, x: T)
    requires multiset(a) + multiset(b) == multiset(s)
    ensures multiset(a + [x]) + multiset(b) == multiset(s + [x]) && multiset(a) + multiset(b + [x]) == multiset(s + [x])
  {
  }

  /** Registering appends to both. */
  lemma AppendBoth(order: seq<string>, status: seq<Status>, name: string)
    requires Names(status) == order && Distinct(order) && name !in order
    ensures Names(status + [Status(name, Registered, 0)]) == order + [name] && Distinct(order + [name])
  {
  }

  lemma SelectBoth(order: seq<string>, status: seq<Status>, name: string)
    requires name !in order && Names(status) == order
    ensures Select(order, OtherThan(name)) == order && Select(status, NotNamed(name)) == status
  {
    SelectAll(order, OtherThan(name));
    assert forall j :: 0 <= j < |status| ==> status[j].name == order[j];
    SelectAll(status, NotNamed(name));
  }

  /** Unregistering cuts the same position out of the order and the status list. */
  lemma CutBoth(order: seq<string>, status: seq<Status>, i: nat)
    requires i < |order| && Distinct(order) && Names(status) == order
    ensures Select(order, OtherThan(order[i])) == order[..i] + order[i + 1..]
    ensures Select(status, NotNamed(order[i])) == status[..i] + status[i + 1..]
    ensures Names(status[..i] + status[i + 1..]) == order[..i] + order[i + 1..]
  {
    hide Select;
    CutIsSelect(order, OtherThan(order[i]), i);
    assert forall j :: 0 <= j < |status| ==> status[j].name == order[j];
    CutIsSelect(status, NotNamed(order[i]), i);
  }

  ghost predicate Descending(resources: map<string, Resource>, order: seq<string>) {
    && (forall k :: k in order ==> k in resources)
    && (forall i, j :: 0 <= i < j < |order| ==> resources[order[i]].priority >= resources[order[j]].priority)
  }

  lemma InsertKeys<T>(s: seq<T>, x: T, at: nat)
    requires at <= |s| && x !in s && Distinct(s)
    ensures Distinct(s[..at] + [x] + s[at..]) && forall y :: y in s[..at] + [x] + s[at..] <==> y == x || y in s
  {
    assert s == s[..at] + s[at..];
  }

  lemma InsertDescending(resources: map<string, Resource>, order: seq<string>, k: string, at: nat)
    requires Distinct(order) && Descending(resources, order) && k in resources && k !in order && at <= |order|
    requires forall i :: 0 <= i < at ==> resources[order[i]].priority >= resources[k].priority
    requires at < |order| ==> resources[order[at]].priority < resources[k].priority
    ensures var r := order[..at] + [k] + order[at..];
            Distinct(r) && Descending(resources, r) && forall x :: x in r <==> x == k || x in order
  {
    var r := order[..at] + [k] + order[at..];
    InsertKeys(order, k, at);
    assert forall j :: 0 <= j < |r| ==> r[j] == if j < at then order[j] else if j == at then k else order[j - 1];
  }

  lemma CutKeys<T>(s: seq<T>, i: nat)
    requires i < |s| && Distinct(s)
    ensures var r := s[..i] + s[i + 1..]; Distinct(r) && forall k :: k in r <==> k in s && k != s[i]
  {
    var r := s[..i] + s[i + 1..];
    assert forall j :: 0 <= j < |r| ==> r[j] == s[if j < i then j else j + 1];
    forall k | k in s && k != s[i] ensures k in r {
      var j :| 0 <= j < |s| && s[j] == k;
      assert r[if j < i then j else j - 1] == k;
    }
  }

  // ----- runs of changes -----

  /** What decides whether a cleanup of everything is possible. */
  datatype Registry = Registry(names: set<string>, customOrder: seq<string>)

  datatype Change = Register(name: string) | Unregister(name: string) | SetOrder(order: seq<string>)

  function Apply(g: Registry, c: Change): Registry {
    match c
    case Register(name) => if name == "" then g else g.(names := g.names + {name})
    case Unregister(name) => g.(names := g.names - {name})
    case SetOrder(order) => if forall k :: k in order ==> k in g.names then g.(customOrder := order) else g
  }

  /** The registry after the changes, oldest first. */
  function After(cs: seq<Change>): Registry {
    if cs == [] then Registry({}, []) else Apply(After(cs[..|cs| - 1]), cs[|cs| - 1])
  }

  /** The custom order names something that is not registered. */
  ghost predicate Fatal(g: Registry) {
    exists k :: k in g.customOrder && k !in g.names
  }

  /** The name was unregistered and has not been registered again. */
  ghost predicate Dropped(cs: seq<Change>, name: string) {
    exists i :: 0 <= i < |cs| && cs[i] == Unregister(name) && forall j :: i < j < |cs| ==> cs[j] != Register(name)
  }

  /** A cleanup of everything is fatal exactly if some name of the custom order in
      force was unregistered and not registered again: unregistering does not touch
      the custom order. */
  lemma FatalExactlyIfDropped(cs: seq<Change>)
    ensures Fatal(After(cs)) <==> exists k :: k in After(cs).customOrder && Dropped(cs, k)
  {
    forall k | k in After(cs).customOrder ensures k !in After(cs).names <==> Dropped(cs, k) {
      OrderedWasRegistered(cs, k);
      PresentUnlessDropped(cs, k);
    }
  }

  lemma {:induction false} OrderedWasRegistered(cs: seq<Change>, k: string)
    requires k in After(cs).customOrder || k in After(cs).names
    ensures k != "" && Register(k) in cs
  {
    if k == "" || cs[|cs| - 1] != Register(k) {
      OrderedWasRegistered(cs[..|cs| - 1], k);
    }
  }

  lemma {:induction false} PresentUnlessDropped(cs: seq<Change>, k: string)
    requires k != "" && Register(k) in cs
    ensures k in After(cs).names <==> !Dropped(cs, k)
  {
    var before, last := cs[..|cs| - 1], cs[|cs| - 1];
    if last == Unregister(k) {
      assert cs[|cs| - 1] == Unregister(k);
    } else if last != Register(k) {
      PresentUnlessDropped(before, k);
      if Dropped(before, k) {
        var i :| 0 <= i < |before| && before[i] == Unregister(k)
                 && forall j :: i < j < |before| ==> before[j] != Register(k);
        assert cs[i] == Unregister(k);
      }
      if Dropped(cs, k) {
        var i :| 0 <= i < |cs| && cs[i] == Unregister(k) && forall j :: i < j < |cs| ==> cs[j] != Register(k);
        assert before[i] == Unregister(k);
      }
    }
  }

  class ResourceCleanupManager {
    const maxRetries: int
    const typeMetrics: ResourceTypeMetrics<string>
    var resources: map<string, Resource>
    var resourceOrder: seq<string>
    var customOrder: seq<string>
    var status: seq<Status>
    var totalResources: int
    var isCleanupComplete: bool
    var cleanupInProgress: bool

    /** The order and the status list name every registered resource once. */
    ghost predicate Valid()
      reads this`resources, this`resourceOrder, this`status, this`totalResources
    {
      && Distinct(resourceOrder)
      && (forall k :: k in resourceOrder <==> k in resources)
      && Names(status) == resourceOrder
      && totalResources == |resources|
    }

    ghost function State(): Registry
      reads this`resources, this`customOrder
    {
      Registry(resources.Keys, customOrder)
    }

    constructor (maxRetries: int, retryEnabled: bool)
      ensures Valid() && State() == After([]) && resources == map[] && customOrder == []
      ensures !isCleanupComplete && !cleanupInProgress
      ensures this.maxRetries == if !retryEnabled then 0 else if maxRetries == 0 then 3 else maxRetries
      ensures fresh(typeMetrics) && typeMetrics.Valid() && typeMetrics.metrics == map[]
    {
      typeMetrics := new ResourceTypeMetrics();
      this.maxRetries := if !retryEnabled then 0 else if maxRetries == 0 then 3 else maxRetries;
      resources, resourceOrder, customOrder, status := map[], [], [], [];
      totalResources, isCleanupComplete, cleanupInProgress := 0, false, false;
    }

    method RegisterResource(name: string, resource: Option<Resource>) returns (ok: bool)
      requires Valid()
      modifies this`resources, this`resourceOrder, this`status, this`totalResources
      ensures Valid()
      ensures ok <==> name != "" && resource.Some? && name !in old(resources)
      ensures resources == if ok then old(resources)[name := resource.value] else old(resources)
      ensures resourceOrder == old(resourceOrder) + if ok then [name] else []
      ensures status == old(status) + if ok then [Status(name, Registered, 0)] else []
      ensures resource.Some? ==> State() == Apply(old(State()), Register(name))
    {
      hide Names, Distinct;
      if name == "" || resource.None? || name in resources {
        return false;
      }
      AppendBoth(resourceOrder, status, name);
      resources := resources[name := resource.value];
      resourceOrder := resourceOrder + [name];
      status := status + [Status(name, Registered, 0)];
      totalResources := |resources|;
      return true;
    }

    /** The custom order keeps the name. */
    method UnregisterResource(name: string) returns (ok: bool)
      requires Valid()
      modifies this`resources, this`resourceOrder, this`status, this`totalResources
      ensures Valid()
      ensures ok <==> name in old(resources)
      ensures resources == old(resources) - {name}
      ensures resourceOrder == Select(old(resourceOrder), OtherThan(name))
      ensures status == Select(old(status), NotNamed(name))
      ensures State() == Apply(old(State()), Unregister(name))
    {
      hide Select, Names, Distinct, OtherThan, NotNamed;
      if name !in resources {
        SelectBoth(resourceOrder, status, name);
        assert resources - {name} == resources;
        return false;
      }
      resources := resources - {name};
      totalResources := |resources|;
      CutOut(name);
      return true;
    }

    /** Removes the name from the order and from the status list. */
    method CutOut(name: string)
      requires Names(status) == resourceOrder && Distinct(resourceOrder) && name in resourceOrder
      modifies this`resourceOrder, this`status
      ensures resourceOrder == Select(old(resourceOrder), OtherThan(name))
      ensures status == Select(old(status), NotNamed(name))
      ensures Names(status) == resourceOrder && Distinct(resourceOrder)
      ensures forall k :: k in resourceOrder <==> k in old(resourceOrder) && k != name
    {
      var i := FindName(resourceOrder, name);
      assert i < |resourceOrder|;
      CutBoth(resourceOrder, status, i);
      CutKeys(resourceOrder, i);
      resourceOrder := resourceOrder[..i] + resourceOrder[i + 1..];
      var j := FindName(Names(status), name);
      assert Names(status)[i] == name && Names(status)[j] == name && j == i;
      status := status[..j] + status[j + 1..];
    }

    method SetCleanupOrder(order: seq<string>) returns (ok: bool)
      requires Valid()
      modifies this`customOrder
      ensures Valid()
      ensures ok <==> forall k :: k in order ==> k in resources
      ensures State() == Apply(old(State()), SetOrder(order))
    {
      for i := 0 to |order|
        invariant forall j :: 0 <= j < i ==> order[j] in resources
      {
        if order[i] !in resources {
          return false;
        }
      }
      customOrder := order;
      return true;
    }

    /** The custom order if one is set, else by priority; equal priorities in any order. */
    method GetCleanupOrder() returns (order: seq<string>)
      requires Valid()
      ensures if customOrder != [] then order == customOrder else ByPriority(resources, order)
      ensures (exists k :: k in order && k !in resources) <==> exists k :: k in customOrder && k !in resources
    {
      if customOrder != [] {
        return customOrder;
      }
      order := [];
      for n := 0 to |resourceOrder|
        invariant Distinct(order) && Descending(resources, order)
        invariant forall k :: k in order <==> k in resourceOrder[..n]
      {
        var k := resourceOrder[n];
        var at := 0;
        while at < |order| && resources[order[at]].priority >= resources[k].priority
          invariant at <= |order|
          invariant forall i :: 0 <= i < at ==> resources[order[i]].priority >= resources[k].priority
        {
          at := at + 1;
        }
        InsertDescending(resources, order, k, at);
        order := order[..at] + [k] + order[at..];
      }
    }

    /** Replaces the status of the first entry with this name; there is one at most. */
    method UpdateResourceStatus(name: string, phase: Phase, retryCount: int)
      requires Valid()
      modifies this`status
      ensures Valid() && Marked(old(status), status, name, phase)
      ensures forall s :: s in status && s.name == name ==> s.retryCount == retryCount
    {
      var i := FindName(Names(status), name);
      if i < |status| {
        forall j | 0 <= j < |status| && j != i ensures Names(status)[j] != name {
          assert Names(status)[i] == name;
        }
        status := status[i := Status(name, phase, retryCount)];
      } else {
        assert forall j :: 0 <= j < |status| ==> Names(status)[j] != name;
      }
      assert Names(status) == Names(old(status));
    }

    /** One visit: retries until the first success, and gives up at once on an
        unhealthy resource.  What it reports is recorded under the resource's type. */
    method CleanupSingleResource(name: string, resource: Resource, w: World, n: nat) returns (ok: bool)
      requires Valid() && typeMetrics.Valid()
      modifies this`status, typeMetrics
      ensures Valid() && typeMetrics.Valid()
      ensures ok <==> Cleans(maxRetries, w, n)
      ensures Marked(old(status), status, name, PhaseAfter(maxRetries, w, n))
      ensures forall k :: typeMetrics.Recorded(k) ==
                          old(typeMetrics.Recorded(k)) + ReportedAs(maxRetries, resource, w, n, k)
    {
      hide Marked, Valid, ResourceTypeMetrics.Valid, PhaseAfter, Cleans;
      UpdateResourceStatus(name, Cleaning, 0);
      var attempt := 0;
      while attempt <= maxRetries
        invariant Valid() && typeMetrics.Valid() && Marked(old(status), status, name, Cleaning)
        invariant attempt >= 0 && (maxRetries >= 0 ==> attempt <= maxRetries)
        invariant forall b: nat :: b < attempt ==> w(n, b).result == Fails
        invariant typeMetrics.recorded == old(typeMetrics.recorded)
        invariant Reported(maxRetries, w, n, attempt) == Reported(maxRetries, w, n, 0)
        decreases maxRetries - attempt
      {
        VisitEnds(maxRetries, w, n, attempt);
        ghost var before := status;
        match w(n, attempt).result {
          case Unhealthy =>
            UpdateResourceStatus(name, Failed, attempt);
            MarkedAgain(old(status), before, status, name, Cleaning, Failed);
            return false;
          case Succeeds =>
            UpdateResourceStatus(name, Cleaned, attempt);
            MarkedAgain(old(status), before, status, name, Cleaning, Cleaned);
            typeMetrics.UpdateTypeMetrics(resource.kind, true, w(n, attempt).duration);
            return true;
          case Fails =>
            UpdateResourceStatus(name, Cleaning, attempt);
            MarkedAgain(old(status), before, status, name, Cleaning, Cleaning);
            if attempt == maxRetries {
              before := status;
              UpdateResourceStatus(name, Failed, attempt);
              MarkedAgain(old(status), before, status, name, Cleaning, Failed);
              typeMetrics.UpdateTypeMetrics(resource.kind, false, w(n, attempt).duration);
              return false;
            }
        }
        attempt := attempt + 1;
      }
      NoAttempts(maxRetries, w, n);
      return true;
    }

    /** Visits all names, failures notwithstanding. */
    method CleanupGroup(names: seq<string>, w: World, from: nat) returns (ok: bool)
      requires Valid() && typeMetrics.Valid() && forall k :: k in names ==> k in resources
      modifies this`status, typeMetrics
      ensures Valid() && typeMetrics.Valid()
      ensures ok <==> AllClean(maxRetries, w, from, from + |names|)
      ensures OnlyOf(old(status), status, names) && Settled(status, names, maxRetries, w, from)
      ensures forall k :: typeMetrics.Recorded(k) ==
                          old(typeMetrics.Recorded(k)) + Reports(maxRetries, resources, names, w, from, k)
    {
      hide Valid, Marked, OnlyOf, Settled, Cleans, AllClean, Reported, Reports;
      hide ResourceTypeMetrics.Valid, ResourceTypeMetrics.Recorded;
      ok := true;
      NothingSettled(status, maxRetries, w, from);
      NoReports(maxRetries, resources, w, from);
      for i := 0 to |names|
        invariant Valid() && typeMetrics.Valid()
        invariant ok <==> AllClean(maxRetries, w, from, from + i)
        invariant OnlyOf(old(status), status, names[..i]) && Settled(status, names[..i], maxRetries, w, from)
        invariant forall k :: typeMetrics.Recorded(k) ==
                              old(typeMetrics.Recorded(k)) + Reports(maxRetries, resources, names[..i], w, from, k)
      {
        ghost var before := status;
        var cleaned := CleanupSingleResource(names[i], resources[names[i]], w, from + i);
        MarkedSettles(old(status), before, status, names[..i], names[i], maxRetries, w, from);
        AllCleanExtends(maxRetries, w, from, from + i);
        assert names[..i + 1] == names[..i] + [names[i]];
        forall k ensures Reports(maxRetries, resources, names[..i + 1], w, from, k) ==
                         Reports(maxRetries, resources, names[..i], w, from, k)
                         + ReportedAs(maxRetries, resources[names[i]], w, from + i, k)
        {
          ReportsSnoc(maxRetries, resources, names[..i], names[i], w, from, k);
        }
        ok := ok && cleaned;
      }
      assert names[..|names|] == names;
    }

    /** Splits the order in two; missing stands for the panic on a name without a resource. */
    method GroupResources(order: seq<string>) returns (missing: bool, concurrent: seq<string>, sequential: seq<string>)
      ensures missing <==> exists k :: k in order && k !in resources
      ensures !missing ==> concurrent == Select(order, Concurrent(resources))
      ensures !missing ==> sequential == Select(order, Sequential(resources))
      ensures !missing ==> |concurrent| + |sequential| == |order|
      ensures !missing ==> forall k :: k in concurrent || k in sequential ==> k in resources
      ensures !missing ==> multiset(concurrent + sequential) == multiset(order)
    {
      concurrent, sequential := [], [];
      for i := 0 to |order|
        invariant forall j :: 0 <= j < i ==> order[j] in resources
        invariant forall k :: k in concurrent || k in sequential ==> k in resources
        invariant concurrent == Select(order[..i], Concurrent(resources))
        invariant sequential == Select(order[..i], Sequential(resources))
      {
        if order[i] !in resources {
          return true, concurrent, sequential;
        }
        assert order[..i + 1][..i] == order[..i];
        if resources[order[i]].concurrent {
          concurrent := concurrent + [order[i]];
        } else {
          sequential := sequential + [order[i]];
        }
      }
      assert order[..|order|] == order;
      SelectSplits(order, Concurrent(resources), Sequential(resources));
      assert |multiset(concurrent) + multiset(sequential)| == |concurrent| + |sequential|;
      missing := false;
    }

    /** The concurrent resources first; if one of them fails the others are never visited. */
    method CleanGroups(concurrent: seq<string>, sequential: seq<string>, w: World)
      returns (r: Outcome, visited: seq<string>)
      requires Valid() && typeMetrics.Valid() && forall k :: k in concurrent || k in sequential ==> k in resources
      modifies this`status, typeMetrics
      ensures Valid() && typeMetrics.Valid() && r != Refused && r != Panicked
      ensures var clean := AllClean(maxRetries, w, 0, |concurrent|);
              (r == ConcurrentFailed <==> !clean) && visited == concurrent + if clean then sequential else []
      ensures r == Succeeded <==> AllClean(maxRetries, w, 0, |concurrent| + |sequential|)
      ensures Settled(status, visited, maxRetries, w, 0)
      ensures forall k :: typeMetrics.Recorded(k) ==
                          old(typeMetrics.Recorded(k)) + Reports(maxRetries, resources, visited, w, 0, k)
    {
      hide Cleans, Names, Valid, Settled, OnlyOf, Reports, ResourceTypeMetrics.Valid, ResourceTypeMetrics.Recorded;
      var ok := CleanupGroup(concurrent, w, 0);
      visited := concurrent;
      if !ok {
        return ConcurrentFailed, visited;
      }
      ghost var between := status;
      ok := CleanupGroup(sequential, w, |visited|);
      visited := visited + sequential;
      forall k ensures Reports(maxRetries, resources, visited, w, 0, k) ==
                       Reports(maxRetries, resources, concurrent, w, 0, k)
                       + Reports(maxRetries, resources, sequential, w, |concurrent|, k)
      {
        ReportsAppend(maxRetries, resources, concurrent, sequential, w, 0, k);
      }
      SettledBoth(between, status, concurrent, sequential, maxRetries, w);
      r := if ok then Succeeded else SequentialFailed;
    }

    /** Cleans everything; visited is the order in which resources were cleaned, the
        concurrent ones in the order in which they were started. */
    method CleanupAll(w: World) returns (r: Outcome, order: seq<string>, visited: seq<string>)
      requires Valid() && typeMetrics.Valid()
      modifies this`status, this`isCleanupComplete, this`cleanupInProgress, typeMetrics
      ensures Valid() && typeMetrics.Valid()
      // a second cleanup is refused while one is under way, and changes nothing
      ensures r == Refused <==> old(cleanupInProgress)
      ensures cleanupInProgress == old(cleanupInProgress)
      ensures r != Refused ==> if customOrder != [] then order == customOrder else ByPriority(resources, order)
      // else a custom order that names an unregistered resource is fatal, and nothing else is
      ensures r == Panicked <==> r != Refused && Fatal(State())
      ensures r == Panicked || r == Refused ==> visited == [] && status == old(status)
      // concurrent resources come first; if one of them fails the others are never visited
      ensures var first := Select(order, Concurrent(resources));
              var clean := AllClean(maxRetries, w, 0, |first|);
              r != Panicked && r != Refused ==>
                && (r == ConcurrentFailed <==> !clean)
                && visited == first + (if clean then Select(order, Sequential(resources)) else [])
      ensures r != Panicked && r != Refused ==>
                (r == Succeeded <==> |visited| == |order| && AllClean(maxRetries, w, 0, |order|))
      ensures r != Panicked && r != Refused ==> ConcurrentFirst(resources, order, visited)
      ensures r == ConcurrentFailed ==> forall k :: k in visited ==> resources[k].concurrent
      ensures r == Succeeded ==> multiset(visited) == multiset(order)
      // every visited resource shows how its last visit ended; visits of one resource that
      // overlap may end in any order
      ensures Distinct(Select(order, Concurrent(resources))) ==> Settled(status, visited, maxRetries, w, 0)
      // and each type's metrics get what the visits to its resources report
      ensures forall k :: typeMetrics.Recorded(k) ==
                          old(typeMetrics.Recorded(k)) + Reports(maxRetries, resources, visited, w, 0, k)
      ensures isCleanupComplete == (old(isCleanupComplete) || r == Succeeded)
    {
      hide Select, Distinct, Cleans, Names, ByPriority, Valid, Settled, OnlyOf, Reports, ResourceTypeMetrics.Valid,
        ResourceTypeMetrics.Recorded;
      visited := [];
      if cleanupInProgress {
        NothingSettled(status, maxRetries, w, 0);
        NoReports(maxRetries, resources, w, 0);
        return Refused, [], visited;
      }
      cleanupInProgress := true;
      order := GetCleanupOrder();
      var missing, concurrent, sequential := GroupResources(order);
      NoReports(maxRetries, resources, w, 0);
      if missing {
        NothingSettled(status, maxRetries, w, 0);
        cleanupInProgress := false;
        return Panicked, order, visited;
      }
      GroupsInOrder(resources, order, true);
      GroupsInOrder(resources, order, false);
      SelectMembers(order, Concurrent(resources));
      r, visited := CleanGroups(concurrent, sequential, w);
      if r == Succeeded {
        isCleanupComplete := true;
      }
      cleanupInProgress := false;
    }
  }
}
