/** Calls that do not overlap: the loose fields behave as a three-state machine. */
module CircuitOneAtATime {
  import opened Wrappers
  import opened CircuitBreaker

  /** One call of `execute`: when it starts, when the protected function ends, and how. */
  datatype Visit = Visit(start: int, end: int, ok: bool)

  datatype Outcome = Refused | Succeeded | Failed

  function Execute(c: Circuit, opts: Options, v: Visit): (Circuit, Outcome) {
    var (c1, verdict) := AdmitOn(c, opts, v.start);
    if verdict.Rejected? then (c1, Refused)
    else (Settle(c1, opts, verdict.probe, v.ok, v.end), if v.ok then Succeeded else Failed)
  }

  function Final(c: Circuit, opts: Options, vs: seq<Visit>): Circuit {
    if |vs| == 0 then c else Execute(Final(c, opts, vs[..|vs| - 1]), opts, vs[|vs| - 1]).0
  }

  /** What each call of `vs` was told, from circuit `c` on. */
  function Outcomes(c: Circuit, opts: Options, vs: seq<Visit>): seq<Outcome> {
    if |vs| == 0 then []
    else
      var before := vs[..|vs| - 1];
      Outcomes(c, opts, before) + [Execute(Final(c, opts, before), opts, vs[|vs| - 1]).1]
  }

  // ----- the three-state machine

  datatype Machine =
    | Shut(failures: nat)
    | Tripped(at: int)
    | Trying(passed: nat)

  function MachineStep(m: Machine, opts: Options, v: Visit): (Machine, Outcome) {
    match m
    case Shut(f) =>
      if v.ok then (Shut(0), Succeeded)
      else if f + 1 >= opts.failureThreshold then (Tripped(v.end), Failed)
      else (Shut(f + 1), Failed)
    case Tripped(at) =>
      if v.start - at < opts.recoveryTimeout then (m, Refused) else Try(0, opts, v)
    case Trying(k) =>
      Try(k, opts, v)
  }

  function Try(k: nat, opts: Options, v: Visit): (Machine, Outcome) {
    if opts.halfOpenRequests <= 0 then (Trying(k), Refused)
    else if !v.ok then (Tripped(v.end), Failed)
    else if k + 1 >= opts.halfOpenRequests then (Shut(0), Succeeded)
    else (Trying(k + 1), Succeeded)
  }

  function MachineFinal(opts: Options, vs: seq<Visit>): Machine {
    if |vs| == 0 then Shut(0) else MachineStep(MachineFinal(opts, vs[..|vs| - 1]), opts, vs[|vs| - 1]).0
  }

  function MachineOutcomes(opts: Options, vs: seq<Visit>): seq<Outcome> {
    if |vs| == 0 then []
    else
      var before := vs[..|vs| - 1];
      MachineOutcomes(opts, before) + [MachineStep(MachineFinal(opts, before), opts, vs[|vs| - 1]).1]
  }

  /** The fields `c` stand for the machine state `m`. */
  predicate Stands(c: Circuit, m: Machine) {
    match m
    case Shut(f) => c.mode == Closed && c.failureCount == f && c.halfOpenInFlight == 0
    case Tripped(at) => c.mode == Open && c.openedAt == Some(at) && c.halfOpenInFlight == 0
    case Trying(k) => c.mode == HalfOpen && c.halfOpenCompleted == k && c.halfOpenInFlight == 0
  }

  /** Any history of calls run one at a time is told exactly what the machine would tell it. */
  lemma {:induction false} FieldsRefineTheMachine(opts: Options, vs: seq<Visit>)
    ensures Stands(Final(EMPTY, opts, vs), MachineFinal(opts, vs))
    ensures Outcomes(EMPTY, opts, vs) == MachineOutcomes(opts, vs)
  {
    if |vs| == 0 {
    } else {
      FieldsRefineTheMachine(opts, vs[..|vs| - 1]);
    }
  }

  // ----- when it opens and when it closes

  /** How many calls at the end of the history failed without a success after them. */
  function Streak(vs: seq<Visit>): nat {
    if |vs| == 0 || vs[|vs| - 1].ok then 0 else Streak(vs[..|vs| - 1]) + 1
  }

  /** From circuit `c` on, the circuit has been closed after every call. */
  ghost predicate NeverLeftClosed(c: Circuit, opts: Options, vs: seq<Visit>) {
    forall i :: 0 <= i <= |vs| ==> Final(c, opts, vs[..i]).mode == Closed
  }

  ghost predicate StreaksStayBelow(vs: seq<Visit>, n: int) {
    forall i :: 0 <= i <= |vs| ==> Streak(vs[..i]) < n
  }

  lemma OneMoreVisit(c: Circuit, opts: Options, vs: seq<Visit>, n: int)
    requires |vs| > 0
    ensures
      var before := vs[..|vs| - 1];
      && (NeverLeftClosed(c, opts, vs) <==> NeverLeftClosed(c, opts, before) && Final(c, opts, vs).mode == Closed)
      && (StreaksStayBelow(vs, n) <==> StreaksStayBelow(before, n) && Streak(vs) < n)
  {
    hide Final, Streak;
    var before := vs[..|vs| - 1];
    assert vs[..|vs|] == vs;
    assert forall i :: 0 <= i < |vs| ==> before[..i] == vs[..i];
  }

  /** Closed with no failure counted: as at the start, after a close, and after a success. */
  predicate AtRest(c: Circuit) {
    c.mode == Closed && c.failureCount == 0
  }

  /**
   From any point at which the circuit is closed with no failure counted, it opens exactly if some run of calls fails
   `failureThreshold` times in a row; until then its failure count is the length of the current run of failures.
   */
  lemma {:induction false} OpensExactlyAtTheThreshold(c: Circuit, opts: Options, vs: seq<Visit>)
    requires opts.failureThreshold >= 1 && AtRest(c)
    ensures NeverLeftClosed(c, opts, vs) <==> StreaksStayBelow(vs, opts.failureThreshold)
    ensures NeverLeftClosed(c, opts, vs) ==> Final(c, opts, vs).failureCount == Streak(vs) < opts.failureThreshold
  {
    if |vs| == 0 {
    } else {
      hide NeverLeftClosed, StreaksStayBelow;
      OpensExactlyAtTheThreshold(c, opts, vs[..|vs| - 1]);
      OneMoreVisit(c, opts, vs, opts.failureThreshold);
      ClosedToTheLast(c, opts, vs[..|vs| - 1]);
    }
  }

  lemma ClosedToTheLast(c: Circuit, opts: Options, vs: seq<Visit>)
    ensures NeverLeftClosed(c, opts, vs) ==> Final(c, opts, vs).mode == Closed
  {
    assert vs[..|vs|] == vs;
  }

  lemma {:induction false} FinalInTwo(c: Circuit, opts: Options, a: seq<Visit>, b: seq<Visit>)
    ensures Final(c, opts, a + b) == Final(Final(c, opts, a), opts, b)
    decreases |b|
  {
    if |b| == 0 {
      assert a + b == a;
    } else {
      assert (a + b)[..|a + b| - 1] == a + b[..|b| - 1];
      FinalInTwo(c, opts, a, b[..|b| - 1]);
    }
  }

  lemma {:induction false} ShutStaysBelow(opts: Options, vs: seq<Visit>)
    requires opts.failureThreshold >= 1
    ensures
      var m := MachineFinal(opts, vs);
      && (m.Shut? ==> m.failures < opts.failureThreshold)
      && (m.Shut? && |vs| > 0 && vs[|vs| - 1].ok ==> m.failures == 0)
  {
    if |vs| == 0 {
    } else {
      ShutStaysBelow(opts, vs[..|vs| - 1]);
    }
  }

  /**
   Over any history: closed after a success, be it an ordinary call or the probe that closed it, the circuit counts
   no failure; from there on it counts the failures in a row, and opens exactly when they reach the threshold; and
   whenever it is closed, it counts fewer than the threshold.
   */
  lemma CountsSinceTheLastSuccess(opts: Options, past: seq<Visit>, vs: seq<Visit>)
    requires opts.failureThreshold >= 1
    ensures
      var c := Final(EMPTY, opts, past);
      c.mode == Closed ==> 0 <= c.failureCount < opts.failureThreshold
    ensures
      var c := Final(EMPTY, opts, past);
      c.mode == Closed && (|past| == 0 || past[|past| - 1].ok) ==>
        && (NeverLeftClosed(c, opts, vs) <==> StreaksStayBelow(vs, opts.failureThreshold))
        && (NeverLeftClosed(c, opts, vs) ==> Final(EMPTY, opts, past + vs).failureCount == Streak(vs))
  {
    hide NeverLeftClosed, StreaksStayBelow, Streak;
    var c := Final(EMPTY, opts, past);
    FieldsRefineTheMachine(opts, past);
    ShutStaysBelow(opts, past);
    if c.mode == Closed && (|past| == 0 || past[|past| - 1].ok) {
      OpensExactlyAtTheThreshold(c, opts, vs);
      FinalInTwo(EMPTY, opts, past, vs);
    }
  }

  /** From an open circuit that has recovered, `k` successful probes leave it half-open until `k` reaches the limit. */
  lemma {:induction false} ClosesAfterExactlyTheProbes(opts: Options, c: Circuit, vs: seq<Visit>)
    requires c.mode == Open && c.openedAt.Some?
    requires forall v :: v in vs ==> v.ok && v.start - c.openedAt.value >= opts.recoveryTimeout
    requires 0 < |vs| <= opts.halfOpenRequests
    ensures Final(c, opts, vs).mode == if |vs| < opts.halfOpenRequests then HalfOpen else Closed
    ensures |vs| < opts.halfOpenRequests ==>
      Final(c, opts, vs).halfOpenCompleted == |vs| && Final(c, opts, vs).halfOpenInFlight == 0
    ensures |vs| == opts.halfOpenRequests ==> Final(c, opts, vs) == EMPTY
  {
    var before := vs[..|vs| - 1];
    assert vs[|vs| - 1] in vs;
    if |before| > 0 {
      forall v | v in before
        ensures v.ok && v.start - c.openedAt.value >= opts.recoveryTimeout
      {
        assert v in vs;
      }
      ClosesAfterExactlyTheProbes(opts, c, before);
    } else {
      assert Final(c, opts, before) == c;
    }
  }

  /** One failed probe opens the circuit again, timed from the end of that probe. */
  lemma OneFailedProbeReopens(opts: Options, vs: seq<Visit>, v: Visit)
    requires Final(EMPTY, opts, vs).mode == HalfOpen && 1 <= opts.halfOpenRequests && !v.ok
    ensures var c := Final(EMPTY, opts, vs + [v]); c.mode == Open && c.openedAt == Some(v.end)
  {
    assert (vs + [v])[..|vs|] == vs;
    FieldsRefineTheMachine(opts, vs);
  }
}
