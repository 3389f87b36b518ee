/** Overlapping calls on one circuit: every interleaving of admissions, completions and manual resets. */
module CircuitRuns {
  import opened Wrappers
  import opened CircuitBreaker

  /** A call that was admitted and has not finished. */
  datatype Call = Call(probe: bool, at: int)

  datatype System = System(circuit: Circuit, clock: int, calls: map<nat, Call>)

  datatype Event =
    | Enter(id: nat, now: int)
    | Leave(id: nat, ok: bool, now: int)
    | ManualReset(now: int)

  const START := System(EMPTY, 0, map[])

  function Without(calls: map<nat, Call>, id: nat): map<nat, Call> {
    map i | i in calls && i != id :: calls[i]
  }

  /** A call that is not outstanding cannot finish: such an event leaves the system as it is. */
  function Step(s: System, opts: Options, e: Event): System {
    match e
    case Enter(id, now) =>
      var (c, v) := AdmitOn(s.circuit, opts, now);
      System(c, now, if v.Rejected? then s.calls else s.calls[id := Call(v.probe, now)])
    case Leave(id, ok, now) =>
      if id !in s.calls then s
      else System(Settle(s.circuit, opts, s.calls[id].probe, ok, now), now, Without(s.calls, id))
    case ManualReset(now) =>
      System(EMPTY, now, s.calls)
  }

  function After(opts: Options, es: seq<Event>): System {
    if |es| == 0 then START else Step(After(opts, es[..|es| - 1]), opts, es[|es| - 1])
  }

  /** Every outstanding call has been running for less than `limit` at `now`. */
  ghost predicate Timely(s: System, limit: int, now: int) {
    forall id :: id in s.calls ==> now - s.calls[id].at < limit
  }

  /** Time does not run backwards, a call enters once, and only outstanding calls leave. */
  ghost predicate Possible(s: System, e: Event) {
    && s.clock <= e.now
    && (e.Enter? ==> e.id !in s.calls)
    && (e.Leave? ==> e.id in s.calls)
  }

  /** A run in which every call ends less than `limit` after it was admitted. */
  ghost predicate Run(opts: Options, limit: int, es: seq<Event>) {
    |es| == 0 ||
    (var before := es[..|es| - 1];
     var s := After(opts, before);
     var e := es[|es| - 1];
     Run(opts, limit, before) && Possible(s, e) && Timely(s, limit, e.now))
  }

  function Probes(s: System): set<nat> {
    set id | id in s.calls && s.calls[id].probe
  }

  function AtLeastZero(n: int): nat {
    if n < 0 then 0 else n
  }

  ghost predicate Inv(s: System, opts: Options) {
    && (forall id :: id in s.calls ==> s.calls[id].at <= s.clock)
    && |Probes(s)| <= AtLeastZero(opts.halfOpenRequests)
    && (s.circuit.mode == HalfOpen ==>
          && (forall id :: id in s.calls ==> s.calls[id].probe)
          && s.circuit.halfOpenInFlight == |Probes(s)|)
    && (s.circuit.mode == Open ==>
          && s.circuit.openedAt.Some?
          && s.circuit.openedAt.value <= s.clock
          && forall id :: id in s.calls ==> s.calls[id].at <= s.circuit.openedAt.value)
  }

  lemma ProbesAfterEnter(s: System, id: nat, c: Call, t: System)
    requires id !in s.calls && t.calls == s.calls[id := c]
    ensures |Probes(t)| == |Probes(s)| + if c.probe then 1 else 0
  {
    assert Probes(t) == if c.probe then Probes(s) + {id} else Probes(s);
  }

  lemma ProbesAfterLeave(s: System, id: nat, t: System)
    requires id in s.calls && t.calls == Without(s.calls, id)
    ensures |Probes(t)| == |Probes(s)| - if s.calls[id].probe then 1 else 0
  {
    assert Probes(t) == Probes(s) - {id};
  }

  /** By the time an open circuit may be probed, every call admitted before it opened has finished. */
  lemma RecoveryFindsNoStragglers(s: System, opts: Options, now: int)
    requires Inv(s, opts) && Timely(s, opts.recoveryTimeout, now)
    requires s.circuit.mode == Open && Recovered(s.circuit, opts, now)
    ensures s.calls == map[]
  {
    assert s.calls.Keys == {};
  }

  lemma StepKeepsInv(s: System, opts: Options, e: Event)
    requires Inv(s, opts) && Possible(s, e) && Timely(s, opts.recoveryTimeout, e.now)
    ensures Inv(Step(s, opts, e), opts)
  {
    var t := Step(s, opts, e);
    match e
    case Enter(id, now) =>
      if s.circuit.mode == Open && Recovered(s.circuit, opts, now) {
        RecoveryFindsNoStragglers(s, opts, now);
        assert Probes(s) == {};
      }
      if t.calls != s.calls {
        ProbesAfterEnter(s, id, t.calls[id], t);
      } else {
        assert Probes(t) == Probes(s);
      }
    case Leave(id, ok, now) =>
      ProbesAfterLeave(s, id, t);
    case ManualReset(now) =>
      assert Probes(t) == Probes(s);
  }

  lemma {:induction false} RunKeepsInv(opts: Options, es: seq<Event>)
    requires Run(opts, opts.recoveryTimeout, es)
    ensures Inv(After(opts, es), opts)
  {
    if |es| == 0 {
      assert Probes(START) == {};
    } else {
      RunKeepsInv(opts, es[..|es| - 1]);
      StepKeepsInv(After(opts, es[..|es| - 1]), opts, es[|es| - 1]);
    }
  }

  /**
   Over every interleaving, resets included: while the circuit is half-open the counter it keeps is the number of
   probes actually running, nothing but probes is running, and never more than `halfOpenRequests` of them.
   */
  lemma HalfOpenCountsItsProbes(opts: Options, es: seq<Event>)
    requires Run(opts, opts.recoveryTimeout, es)
    ensures
      var s := After(opts, es);
      && |Probes(s)| <= AtLeastZero(opts.halfOpenRequests)
      && (s.circuit.mode == HalfOpen ==> s.circuit.halfOpenInFlight == |Probes(s)| && Probes(s) == s.calls.Keys)
  {
    RunKeepsInv(opts, es);
    var s := After(opts, es);
    if s.circuit.mode == HalfOpen {
      assert Probes(s) == s.calls.Keys;
    }
  }

  // ----- an open circuit stays open until it has recovered

  /** Probes that outlive their half-open period are too few to complete it. */
  ghost predicate LateProbesFallShort(s: System, opts: Options) {
    && 0 <= s.circuit.halfOpenCompleted <= AtLeastZero(opts.halfOpenRequests - 1)
    && (s.circuit.mode != HalfOpen ==>
          s.circuit.halfOpenCompleted + |Probes(s)| <= AtLeastZero(opts.halfOpenRequests - 1))
  }

  /** Fewer than `halfOpenRequests` probes are running, or none where none is allowed. */
  ghost predicate RoomForLateProbes(s: System, opts: Options) {
    |Probes(s)| <= AtLeastZero(opts.halfOpenRequests - 1)
  }

  lemma StepKeepsLateProbesShort(s: System, opts: Options, e: Event)
    requires LateProbesFallShort(s, opts) && (e.ManualReset? ==> RoomForLateProbes(s, opts))
    requires Inv(s, opts) && Possible(s, e) && Timely(s, opts.recoveryTimeout, e.now)
    ensures LateProbesFallShort(Step(s, opts, e), opts)
  {
    StepKeepsInv(s, opts, e);
    var t := Step(s, opts, e);
    if e.Leave? {
      ProbesAfterLeave(s, e.id, t);
      if s.calls[e.id].probe {
        assert e.id in Probes(s);
      }
    } else if t.calls != s.calls {
      ProbesAfterEnter(s, e.id, t.calls[e.id], t);
    } else {
      assert Probes(t) == Probes(s);
    }
  }

  /** Every manual reset in the run meets fewer than `halfOpenRequests` running probes. */
  ghost predicate HarmlessResets(opts: Options, es: seq<Event>) {
    |es| == 0 ||
    (var before := es[..|es| - 1];
     HarmlessResets(opts, before) && (es[|es| - 1].ManualReset? ==> RoomForLateProbes(After(opts, before), opts)))
  }

  lemma {:induction false} RunKeepsLateProbesShort(opts: Options, es: seq<Event>)
    requires Run(opts, opts.recoveryTimeout, es) && HarmlessResets(opts, es)
    ensures LateProbesFallShort(After(opts, es), opts)
  {
    if |es| == 0 {
      assert Probes(START) == {};
    } else {
      var before := es[..|es| - 1];
      RunKeepsLateProbesShort(opts, before);
      RunKeepsInv(opts, before);
      StepKeepsLateProbesShort(After(opts, before), opts, es[|es| - 1]);
    }
  }

  lemma LeavingKeepsOpen(s: System, opts: Options, e: Event)
    requires Inv(s, opts) && LateProbesFallShort(s, opts) && Possible(s, e)
    requires s.circuit.mode == Open && e.Leave?
    ensures Step(s, opts, e).circuit.mode == Open
  {
    if s.calls[e.id].probe {
      assert e.id in Probes(s);
    }
  }

  /**
   If `e` takes the circuit out of Open and is no reset, it is an admission at least `recoveryTimeout` after the latest
   opening, and leads to HalfOpen.
   */
  ghost predicate LeavesOpenByRecovery(opts: Options, es: seq<Event>, e: Event) {
    var s, t := After(opts, es), After(opts, es + [e]);
    s.circuit.mode == Open && t.circuit.mode != Open && !e.ManualReset? ==>
      && e.Enter?
      && s.circuit.openedAt.Some? && e.now - s.circuit.openedAt.value >= opts.recoveryTimeout
      && t.circuit.mode == HalfOpen
  }

  /** Nothing that finishes late closes an open circuit, as long as no reset meets `halfOpenRequests` running probes. */
  lemma OpenEndsOnlyByRecovery(opts: Options, es: seq<Event>, e: Event)
    requires Run(opts, opts.recoveryTimeout, es + [e]) && HarmlessResets(opts, es)
    ensures LeavesOpenByRecovery(opts, es, e)
  {
    assert (es + [e])[..|es|] == es;
    RunKeepsInv(opts, es);
    RunKeepsLateProbesShort(opts, es);
    if e.Leave? && After(opts, es).circuit.mode == Open {
      LeavingKeepsOpen(After(opts, es), opts, e);
    }
  }
}
