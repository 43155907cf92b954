/** The counters and times of the atomic breaker over sequential runs, told from the
    calls of the run and from which of them were let through. */
module BreakerAccounts {
  import opened Common
  import opened BreakerBisimulation
  import A = AtomicBreaker

  /** A call of the run, whether it was let through, and the breaker before and after it. */
  datatype Record = Record(call: Call, admitted: bool, before: A.Fields, after: A.Fields)

  /** The record of a run. */
  function Records(s: A.Settings, f: A.Fields, ks: seq<Call>): seq<Record> {
    if ks == [] then []
    else
      var before := AtomicRun(s, f, ks[..|ks| - 1]).1;
      var k := ks[|ks| - 1];
      Records(s, f, ks[..|ks| - 1]) + [Record(k, AtomicCall(s, before, k).0, before, AtomicCall(s, before, k).1)]
  }

  /** Calls that were let through and ended like this. */
  function Ended(rs: seq<Record>, ok: bool): nat {
    if rs == [] then 0
    else
      var r := rs[|rs| - 1];
      Ended(rs[..|rs| - 1], ok) + if r.admitted && r.call.ok == ok then 1 else 0
  }

  function Rejected(rs: seq<Record>): nat {
    if rs == [] then 0 else Rejected(rs[..|rs| - 1]) + if rs[|rs| - 1].admitted then 0 else 1
  }

  /** Calls that ended like this since the last one that ended otherwise. */
  function InARow(rs: seq<Record>, ok: bool): nat {
    if rs == [] then 0
    else
      var r := rs[|rs| - 1];
      if !r.admitted then InARow(rs[..|rs| - 1], ok)
      else if r.call.ok == ok then InARow(rs[..|rs| - 1], ok) + 1 else 0
  }

  /** When the last call that ended like this was stamped. */
  function LastStamp(rs: seq<Record>, ok: bool): int {
    if rs == [] then 0
    else
      var r := rs[|rs| - 1];
      if r.admitted && r.call.ok == ok then r.call.r.stamp else LastStamp(rs[..|rs| - 1], ok)
  }

  /** A call that ends the open state, by way of the half-open one. */
  predicate Recovers(r: Record) {
    r.before.state == Open && r.admitted
  }

  /** A failing call that ends the closed state. */
  predicate Trips(r: Record) {
    r.before.state == Closed && r.after.state == Open
  }

  /** When the last change was made. */
  function LastChange(rs: seq<Record>, born: int): int {
    if rs == [] then born
    else
      var r := rs[|rs| - 1];
      if Recovers(r) || Trips(r) then r.call.r.change else LastChange(rs[..|rs| - 1], born)
  }

  function Changes(rs: seq<Record>): nat {
    if rs == [] then 0
    else
      var r := rs[|rs| - 1];
      Changes(rs[..|rs| - 1]) + if Recovers(r) then 2 else if Trips(r) then 1 else 0
  }

  /** From each opening to the recovery that ends it. */
  function OpenTime(rs: seq<Record>, born: int): int {
    if rs == [] then 0
    else
      var r := rs[|rs| - 1];
      OpenTime(rs[..|rs| - 1], born) + if Recovers(r) then r.call.r.probe - LastChange(rs[..|rs| - 1], born) else 0
  }

  /** From each recovery to the closing that follows; a failure adds no time. */
  function HalfOpenTime(rs: seq<Record>): int {
    if rs == [] then 0
    else
      var r := rs[|rs| - 1];
      HalfOpenTime(rs[..|rs| - 1]) + if Recovers(r) && r.call.ok then r.call.r.change - r.call.r.probe else 0
  }

  lemma {:induction false} AtomicRunSnoc(s: A.Settings, f: A.Fields, ks: seq<Call>)
    requires ks != []
    ensures AtomicRun(s, f, ks).1 == AtomicCall(s, AtomicRun(s, f, ks[..|ks| - 1]).1, ks[|ks| - 1]).1
    decreases |ks|
  {
    if |ks| > 1 {
      var rest := ks[1..];
      AtomicRunSnoc(s, AtomicCall(s, f, ks[0]).1, rest);
      assert ks[..|ks| - 1][1..] == rest[..|rest| - 1];
    } else {
      assert ks[1..] == [] && ks[..0] == [];
    }
  }

  /** In every sequential run of a new breaker: each call is counted as rejected,
      successful or failed, as it was; the counts in a row and the stamps are those of
      the calls that were let through; every recovery makes two changes and every trip
      one; and the times are the lengths of the open and half-open intervals. */
  lemma {:induction false} SequentialAccounts(s: A.Settings, born: int, ks: seq<Call>)
    ensures var (f, rs) := (AtomicRun(s, A.NewFields(born), ks).1, Records(s, A.NewFields(born), ks));
            && |rs| == |ks| && (rs != [] ==> rs[|rs| - 1].after == f)
            && f.state != HalfOpen
            && f.totalCalls == |ks| && f.rejectedCalls == Rejected(rs)
            && f.successfulCalls == Ended(rs, true) && f.failedCalls == Ended(rs, false)
            && f.consecutiveSuccesses == InARow(rs, true) && f.consecutiveFailures == InARow(rs, false)
            && f.lastSuccessTime == LastStamp(rs, true) && f.lastFailureTime == LastStamp(rs, false)
            && f.lastStateChange == LastChange(rs, born) && f.stateTransitions == Changes(rs)
            && f.timeInOpen == OpenTime(rs, born) && f.timeInHalfOpen == HalfOpenTime(rs)
  {
    if ks != [] {
      var init := ks[..|ks| - 1];
      SequentialAccounts(s, born, init);
      AtomicRunSnoc(s, A.NewFields(born), ks);
      var rs := Records(s, A.NewFields(born), ks);
      assert rs[..|rs| - 1] == Records(s, A.NewFields(born), init);
    }
  }
}
