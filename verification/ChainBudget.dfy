/** The whole provider chain in time: failover over retry loops
    (apps/common/ai_service.py, _with_failover and _generate_with_*_retry together). */
module ChainBudget {
  import opened Failover
  import Retry

  /** What one started provider did: its replies' verdicts, its run, its request times. */
  datatype Work = Work(verdict: nat -> Retry.Verdict, run: Retry.Run, duration: nat -> real)

  ghost predicate IsWork(w: Work, maxRetries: nat, timeout: real, cap: real) {
    && Retry.IsRetry(w.verdict, maxRetries, w.run)
    && Retry.WaitsWithin(w.verdict, cap)
    && (forall i :: 0.0 <= w.duration(i) <= timeout)
  }

  /** With failover deadline D, retry budget R, request timeout T and longest wait C, and
      time passing only inside providers, a call ends within D + (R + 1) T + C R. */
  lemma ChainEndsWithinBudget(order: seq<Provider>, runners: map<Provider, Outcome>, deadline: real,
                              clock: nat -> real, t: Trace, work: seq<Work>,
                              maxRetries: nat, timeout: real, cap: real)
    requires forall p :: p in order ==> p in runners
    requires IsFailover(order, runners, deadline, clock, t)
    requires deadline > 0.0 && timeout >= 0.0 && cap >= 0.0
    requires |work| == |t.started| && clock(0) == 0.0
    requires forall i :: 0 <= i < |work| ==> IsWork(work[i], maxRetries, timeout, cap)
    requires forall i :: 0 <= i < |work| ==> clock(i + 1) == clock(i) + Retry.Elapsed(work[i].duration, work[i].run)
    ensures forall i :: 0 <= i < |t.started| ==> clock(i) <= deadline
    ensures clock(|t.started|) <= deadline + Retry.Budget(maxRetries, timeout, cap)
  {
    var budget := Retry.Budget(maxRetries, timeout, cap);
    assert budget >= 0.0;
    forall i | 0 <= i < |t.started| ensures clock(i + 1) <= clock(i) + budget {
      var w := work[i];
      Retry.RetryTakesAtMostItsBudget(w.verdict, maxRetries, w.run, cap, w.duration, timeout);
    }
    ChainEndsInTime(order, runners, deadline, budget, clock, t);
  }
}
