/** Types shared by several components. */
module Common {
  datatype Option<+T> = None | Some(value: T)

  /** The three states of a circuit breaker. */
  datatype CircuitState = Closed | Open | HalfOpen

  ghost predicate Distinct<T>(s: seq<T>) {
    forall i, j :: 0 <= i < j < |s| ==> s[i] != s[j]
  }

  // ----- counting the threads of a step machine -----

  ghost function Where<P>(threads: map<nat, P>, p: P -> bool): set<nat> {
    set t | t in threads && p(threads[t])
  }

  ghost function Count<P>(threads: map<nat, P>, p: P -> bool): nat {
    |Where(threads, p)|
  }

  /** How one thread's move changes a count. */
  lemma CountUpdate<P>(threads: map<nat, P>, t: nat, pc: P, p: P -> bool)
    requires t in threads
    ensures Count(threads[t := pc], p) ==
            Count(threads, p) - (if p(threads[t]) then 1 else 0) + (if p(pc) then 1 else 0)
  {
    var was := Where(threads, p);
    assert Where(threads[t := pc], p) == if p(pc) then was + {t} else was - {t};
  }

  /** How a new thread changes a count. */
  lemma CountSpawn<P>(threads: map<nat, P>, t: nat, pc: P, p: P -> bool)
    requires t !in threads
    ensures Count(threads[t := pc], p) == Count(threads, p) + (if p(pc) then 1 else 0)
  {
    var was := Where(threads, p);
    assert Where(threads[t := pc], p) == if p(pc) then was + {t} else was;
  }
}
