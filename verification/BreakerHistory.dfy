/** What state the mutex-protected breaker is in, told from the events of a run alone:
    how many failures came in a row, how many successes, and when. */
module BreakerHistory {
  import opened Common
  import opened LockedBreaker

  function Failures(es: seq<Event>): nat {
    if es == [] then 0
    else Failures(es[..|es| - 1]) + (if es[|es| - 1].Result? && !es[|es| - 1].ok then 1 else 0)
  }

  function Successes(es: seq<Event>): nat {
    if es == [] then 0
    else Successes(es[..|es| - 1]) + (if es[|es| - 1].Result? && es[|es| - 1].ok then 1 else 0)
  }

  /** The failures since the last success or reset. */
  function FailuresInARow(es: seq<Event>): nat {
    if es == [] then 0
    else
      match es[|es| - 1]
      case Result(ok, _) => if ok then 0 else FailuresInARow(es[..|es| - 1]) + 1
      case ManualReset(_) => 0
      case _ => FailuresInARow(es[..|es| - 1])
  }

  /** The time of the last failure, if there was one. */
  function LastFailure(es: seq<Event>, before: int): int {
    if es == [] then before
    else
      match es[|es| - 1]
      case Result(ok, t) => if ok then LastFailure(es[..|es| - 1], before) else t
      case _ => LastFailure(es[..|es| - 1], before)
  }

  lemma RunSnoc(c: Config, b: Breaker, es: seq<Event>)
    requires es != []
    ensures Run(c, b, es) == Step(c, Run(c, b, es[..|es| - 1]), es[|es| - 1])
  {
    var last := [es[|es| - 1]];
    assert es == es[..|es| - 1] + last;
    RunThen(c, b, es[..|es| - 1], last);
    assert last[1..] == [];
  }

  // ----- a closed breaker -----

  /** At no moment have there been as many failures in a row as the threshold. */
  ghost predicate BelowThreshold(c: Config, es: seq<Event>) {
    forall i :: 0 <= i <= |es| ==> FailuresInARow(es[..i]) < AtLeastOne(c.failureThreshold)
  }

  lemma BelowThresholdBefore(c: Config, es: seq<Event>)
    requires es != []
    ensures var before := es[..|es| - 1];
            BelowThreshold(c, es) <==>
            BelowThreshold(c, before) && FailuresInARow(es) < AtLeastOne(c.failureThreshold)
  {
    var before := es[..|es| - 1];
    assert es[..|es|] == es;
    forall i | 0 <= i < |es| ensures es[..i] == before[..i] {
    }
  }

  /** Until then it stays closed, through successes, resets, admissions and inspections,
      and counts the failures in a row. */
  lemma {:induction false} StaysClosed(c: Config, b: Breaker, es: seq<Event>)
    requires b.state == Closed && b.failureCount == b.successCount == 0 && BelowThreshold(c, es)
    ensures Run(c, b, es) == Breaker(Closed, FailuresInARow(es), 0, LastFailure(es, b.lastFailure))
  {
    if es != [] {
      BelowThresholdBefore(c, es);
      StaysClosed(c, b, es[..|es| - 1]);
      RunSnoc(c, b, es);
    }
  }

  /** And the event that brings them to the threshold, a failure, opens it. */
  lemma OpensAtThreshold(c: Config, b: Breaker, before: seq<Event>, e: Event)
    requires b.state == Closed && b.failureCount == b.successCount == 0 && BelowThreshold(c, before)
    requires FailuresInARow(before + [e]) >= AtLeastOne(c.failureThreshold)
    ensures e == Result(false, e.time)
    ensures Run(c, b, before + [e]) == Breaker(Open, AtLeastOne(c.failureThreshold), 0, e.time)
  {
    var es := before + [e];
    assert es[..|es| - 1] == before && before[..|before|] == before;
    StaysClosed(c, b, before);
    RunSnoc(c, b, es);
  }

  /** So a breaker closed with no failures opens in a run if and only if as many
      failures come in a row as the threshold, or one if that is less. */
  lemma {:induction false} OpensExactlyIf(c: Config, b: Breaker, es: seq<Event>)
    requires b.state == Closed && b.failureCount == b.successCount == 0
    ensures Openings(c, b, es) == [] <==> BelowThreshold(c, es)
  {
    if es != [] {
      var before, e := es[..|es| - 1], es[|es| - 1];
      assert es == before + [e];
      OpensExactlyIf(c, b, before);
      OpeningsThen(c, b, before, [e]);
      BelowThresholdBefore(c, es);
      if BelowThreshold(c, before) {
        StaysClosed(c, b, before);
        LastStepOpens(c, Run(c, b, before), e);
        if BelowThreshold(c, es) {
          StaysClosed(c, b, es);
          RunSnoc(c, b, es);
        } else {
          OpensAtThreshold(c, b, before, e);
          RunSnoc(c, b, es);
        }
      }
    }
  }

  lemma LastStepOpens(c: Config, b: Breaker, e: Event)
    ensures Openings(c, b, [e]) == [] <==> !(b.state != Open && Step(c, b, e).state == Open)
  {
    assert [e][1..] == [];
  }

  // ----- a half-open breaker -----

  ghost predicate FailureFree(es: seq<Event>) {
    forall i :: 0 <= i < |es| ==> !es[i].ManualReset? && (es[i].Result? ==> es[i].ok)
  }

  /** Without a failure or a reset, a breaker that has just become half-open closes
      if and only if as many successes are recorded as the threshold, or one if that
      is less; before that it counts them. */
  lemma {:induction false} ClosesExactlyIf(c: Config, b: Breaker, es: seq<Event>)
    requires b.state == HalfOpen && b.successCount == 0 && FailureFree(es)
    ensures Run(c, b, es) ==
            if Successes(es) >= AtLeastOne(c.successThreshold) then Breaker(Closed, 0, 0, b.lastFailure)
            else b.(successCount := Successes(es))
  {
    if es != [] {
      ClosesExactlyIf(c, b, es[..|es| - 1]);
      RunSnoc(c, b, es);
    }
  }

  /** A failure before that opens it again at once, whatever the failure threshold. */
  lemma ReopensAtOnce(c: Config, b: Breaker, before: seq<Event>, t: int)
    requires b.state == HalfOpen && b.successCount == 0 && FailureFree(before)
    requires Successes(before) < AtLeastOne(c.successThreshold)
    ensures Run(c, b, before + [Result(false, t)]) == Breaker(Open, b.failureCount + 1, 0, t)
  {
    var es := before + [Result(false, t)];
    assert es[..|es| - 1] == before;
    ClosesExactlyIf(c, b, before);
    RunSnoc(c, b, es);
  }

  // ----- an open breaker -----

  /** No reset, and nobody asks later than this. */
  ghost predicate AskedBy(es: seq<Event>, deadline: int) {
    forall i :: 0 <= i < |es| ==> !es[i].ManualReset? && (es[i].Result? || es[i].time <= deadline)
  }

  /** Until somebody asks after the timeout an open breaker stays open since the same
      moment, whatever late results come in, and admits nobody. */
  lemma {:induction false} StaysOpen(c: Config, b: Breaker, es: seq<Event>)
    requires b.state == Open && AskedBy(es, b.lastFailure + c.openTimeout)
    ensures Run(c, b, es) == b.(failureCount := b.failureCount + Failures(es))
  {
    if es != [] {
      StaysOpen(c, b, es[..|es| - 1]);
      RunSnoc(c, b, es);
    }
  }

  /** Whoever asks first after that makes it half-open with no successes, and if it is
      a call, it is admitted. */
  lemma RecoversWhenAsked(c: Config, b: Breaker, before: seq<Event>, e: Event)
    requires b.state == Open && AskedBy(before, b.lastFailure + c.openTimeout)
    requires e.Admission? || e.Inspection?
    requires e.time > b.lastFailure + c.openTimeout
    ensures Run(c, b, before + [e]) == Breaker(HalfOpen, b.failureCount + Failures(before), 0, b.lastFailure)
    ensures Admits(c, Run(c, b, before), e.time)
  {
    var es := before + [e];
    assert es[..|es| - 1] == before;
    StaysOpen(c, b, before);
    RunSnoc(c, b, es);
  }

  // ----- a reset -----

  /** A reset closes it with both counts at zero from every state; only the time of the
      last failure stays, which a closed breaker does not look at. */
  lemma ResetStartsAnew(c: Config, b: Breaker, before: seq<Event>, t: int, now: int)
    ensures var b' := Run(c, b, before + [ManualReset(t)]);
            b' == Breaker(Closed, 0, 0, Run(c, b, before).lastFailure) && Admits(c, b', now)
  {
    var es := before + [ManualReset(t)];
    assert es[..|es| - 1] == before;
    RunSnoc(c, b, es);
  }

  /** A call is refused exactly by an open breaker whose timeout is not over. */
  lemma RefusesExactlyIf(c: Config, b: Breaker, es: seq<Event>, now: int)
    ensures var b' := Run(c, b, es);
            !Admits(c, b', now) <==> b'.state == Open && now <= b'.lastFailure + c.openTimeout
  {
  }
}
