/** How far the two premises of the circuit breaker's guarantees can be weakened: the time limit and the resets. */
module CircuitLimits {
  import opened Wrappers
  import opened CircuitBreaker
  import opened CircuitRuns

  // ----- building runs

  lemma Extend(opts: Options, limit: int, es: seq<Event>, e: Event)
    requires Run(opts, limit, es)
    requires Possible(After(opts, es), e) && Timely(After(opts, es), limit, e.now)
    ensures Run(opts, limit, es + [e])
    ensures After(opts, es + [e]) == Step(After(opts, es), opts, e)
  {
    assert (es + [e])[..|es|] == es;
  }

  ghost predicate NoResets(es: seq<Event>) {
    forall i :: 0 <= i < |es| ==> !es[i].ManualReset?
  }

  /** An id above all those in use. */
  lemma {:induction false} FreshId(ids: set<nat>) returns (n: nat)
    ensures forall id :: id in ids ==> id < n
    decreases |ids|
  {
    if ids == {} {
      n := 0;
    } else {
      var id :| id in ids;
      var m := FreshId(ids - {id});
      n := if id < m then m else id + 1;
      assert forall i :: i in ids ==> i == id || i in ids - {id};
    }
  }

  /** The circuit has just opened, and nothing else about the calls has changed. */
  ghost predicate JustOpened(s: System, opts: Options, clock: int, calls: map<nat, Call>) {
    && s.clock == clock && s.calls == calls
    && s.circuit.mode == Open && s.circuit.openedAt == Some(clock)
    && s.circuit.halfOpenInFlight == 0 && s.circuit.halfOpenCompleted == 0
    && s.circuit.failureCount >= opts.failureThreshold
  }

  /** One ordinary call that fails at once. */
  lemma FailOnce(opts: Options, limit: int, es: seq<Event>, id: nat) returns (rest: seq<Event>)
    requires Run(opts, limit, es) && limit > 0
    requires
      var s := After(opts, es);
      s.circuit.mode == Closed && id !in s.calls && Timely(s, limit, s.clock)
    ensures NoResets(rest) && Run(opts, limit, es + rest)
    ensures
      var s, t := After(opts, es), After(opts, es + rest);
      && t.clock == s.clock && t.calls == s.calls
      && t.circuit == Settle(s.circuit, opts, false, false, s.clock)
  {
    var s := After(opts, es);
    var e0, e1 := Enter(id, s.clock), Leave(id, false, s.clock);
    Extend(opts, limit, es, e0);
    Extend(opts, limit, es + [e0], e1);
    rest := [e0, e1];
    assert es + [e0] + [e1] == es + rest;
    assert Without(s.calls[id := Call(false, s.clock)], id) == s.calls;
  }

  /** From a closed circuit, calls that fail one after the other open it without time passing. */
  lemma {:induction false} FailUntilOpen(opts: Options, limit: int, es: seq<Event>, id: nat) returns (rest: seq<Event>)
    requires Run(opts, limit, es) && limit > 0
    requires
      var s := After(opts, es);
      s.circuit.mode == Closed && id !in s.calls && Timely(s, limit, s.clock)
    ensures NoResets(rest) && Run(opts, limit, es + rest)
    ensures JustOpened(After(opts, es + rest), opts, After(opts, es).clock, After(opts, es).calls)
    decreases opts.failureThreshold - After(opts, es).circuit.failureCount
  {
    var first := FailOnce(opts, limit, es, id);
    var c := After(opts, es).circuit;
    if c.failureCount + 1 >= opts.failureThreshold {
      rest := first;
    } else {
      var more := FailUntilOpen(opts, limit, es + first, id);
      rest := first + more;
      assert es + first + more == es + rest;
    }
  }

  /** The circuit is half-open or about to be, and `n` more probes are let through. */
  ghost predicate Admits(s: System, opts: Options, n: nat, now: int) {
    && s.clock <= now
    && (if s.circuit.mode == HalfOpen then 0 <= s.circuit.halfOpenInFlight <= opts.halfOpenRequests - n
        else s.circuit.mode == Open && Recovered(s.circuit, opts, now) && n <= opts.halfOpenRequests)
  }

  /** `n` more probes are running in a half-open circuit. */
  ghost predicate Probing(s: System, t: System, n: nat, base: nat, now: int) {
    && t.circuit.mode == HalfOpen && t.circuit.failureCount == s.circuit.failureCount && t.clock == now
    && |Probes(t)| == |Probes(s)| + n
    && (forall id :: id in s.calls ==> id in t.calls && t.calls[id] == s.calls[id])
    && (forall id :: id in t.calls && id !in s.calls ==> base <= id && t.calls[id] == Call(true, now))
  }

  lemma AdmitsLater(s: System, opts: Options, n: nat, now: int)
    requires Admits(s, opts, n, now)
    ensures s.clock <= now
  {
  }

  lemma OneProbeEnters(s: System, opts: Options, n: nat, id: nat, now: int)
    requires n > 0 && id !in s.calls && Admits(s, opts, n, now)
    ensures
      var t := Step(s, opts, Enter(id, now));
      && t.calls == s.calls[id := Call(true, now)]
      && Probing(s, t, 1, id, now) && Admits(t, opts, n - 1, now)
  {
    ProbesAfterEnter(s, id, Call(true, now), Step(s, opts, Enter(id, now)));
  }

  lemma {:induction false} EnterProbes(opts: Options, limit: int, es: seq<Event>, n: nat, base: nat, now: int)
    returns (rest: seq<Event>)
    requires Run(opts, limit, es) && limit > 0 && n > 0
    requires
      var s := After(opts, es);
      Admits(s, opts, n, now) && Timely(s, limit, now) && forall id :: id in s.calls ==> id < base
    ensures NoResets(rest) && Run(opts, limit, es + rest)
    ensures Probing(After(opts, es), After(opts, es + rest), n, base, now)
    decreases n
  {
    hide Run, After, Step, Admits, Probes;
    var s, e := After(opts, es), Enter(base, now);
    AdmitsLater(s, opts, n, now);
    Extend(opts, limit, es, e);
    OneProbeEnters(s, opts, n, base, now);
    if n == 1 {
      rest := [e];
    } else {
      var more := EnterProbes(opts, limit, es + [e], n - 1, base + 1, now);
      rest := [e] + more;
      assert es + [e] + more == es + rest;
    }
  }

  // ----- the time limit

  lemma {:induction false} LooserLimit(opts: Options, tight: int, loose: int, es: seq<Event>)
    requires tight <= loose && Run(opts, tight, es)
    ensures Run(opts, loose, es)
  {
    if |es| == 0 {
    } else {
      LooserLimit(opts, tight, loose, es[..|es| - 1]);
    }
  }

  /** Never more than `halfOpenRequests` probes run at once. */
  ghost predicate Bounded(s: System, opts: Options) {
    |Probes(s)| <= AtLeastZero(opts.halfOpenRequests)
  }

  ghost predicate AlwaysBounded(opts: Options, limit: int) {
    forall es :: Run(opts, limit, es) ==> Bounded(After(opts, es), opts)
  }

  lemma {:induction false} NoneAllowedNoneRunning(opts: Options, limit: int, es: seq<Event>)
    requires opts.halfOpenRequests <= 0 && Run(opts, limit, es)
    ensures Probes(After(opts, es)) == {} && After(opts, es).circuit.halfOpenInFlight >= 0
  {
    if |es| == 0 {
    } else {
      NoneAllowedNoneRunning(opts, limit, es[..|es| - 1]);
      var s, e, t := After(opts, es[..|es| - 1]), es[|es| - 1], After(opts, es);
      assert e.Leave? ==> e.id !in Probes(s);
      forall id | id in t.calls
        ensures !t.calls[id].probe
      {
        if id in s.calls && t.calls[id] == s.calls[id] {
          assert id !in Probes(s);
        }
      }
    }
  }

  /** With no time at all for a call, the first one admitted blocks every further event. */
  lemma {:induction false} NoTimeNoProbes(opts: Options, limit: int, es: seq<Event>)
    requires limit <= 0 && Run(opts, limit, es)
    ensures
      var s := After(opts, es);
      && s.circuit.mode == Closed && Probes(s) == {}
      && forall id :: id in s.calls ==> s.calls[id].at <= s.clock
  {
    if |es| == 0 {
    } else {
      NoTimeNoProbes(opts, limit, es[..|es| - 1]);
      var s, t := After(opts, es[..|es| - 1]), After(opts, es);
      assert s.calls.Keys == {};
      assert forall id :: id in t.calls ==> !t.calls[id].probe;
    }
  }

  /** A call that outlives the recovery time fails in the half-open period it does not belong to, and opens it again. */
  lemma TwiceTheProbes(opts: Options, limit: int) returns (es: seq<Event>)
    requires opts.halfOpenRequests > 0 && limit > AtLeastZero(opts.recoveryTimeout)
    ensures Run(opts, limit, es) && |Probes(After(opts, es))| == 2 * opts.halfOpenRequests
  {
    var h, r := opts.halfOpenRequests, AtLeastZero(opts.recoveryTimeout);
    Extend(opts, limit, [], Enter(0, 0));
    es := [] + [Enter(0, 0)];
    hide Run, After, Step;
    var more := FailUntilOpen(opts, limit, es, 1);
    es := es + more;
    var tripped := After(opts, es);
    assert tripped.calls == map[0 := Call(false, 0)];
    assert Probes(tripped) == {};
    more := EnterProbes(opts, limit, es, h, 2, r);
    es := es + more;
    ReopenedByCall(opts, limit, es, r);
    es := es + [Leave(0, false, r)];
    var again := After(opts, es);
    assert Timely(again, limit, 2 * r);
    var base := FreshId(again.calls.Keys);
    more := EnterProbes(opts, limit, es, h, base, 2 * r);
    es := es + more;
  }

  /** Call 0, which is no probe, fails at `r`. */
  lemma ReopenedByCall(opts: Options, limit: int, es: seq<Event>, r: int)
    requires Run(opts, limit, es)
    requires
      var s := After(opts, es);
      && s.circuit.mode == HalfOpen && s.circuit.failureCount >= opts.failureThreshold && s.clock == r
      && 0 in s.calls && !s.calls[0].probe && Timely(s, limit, r)
    ensures Run(opts, limit, es + [Leave(0, false, r)])
    ensures
      var s, t := After(opts, es), After(opts, es + [Leave(0, false, r)]);
      && t.circuit.mode == Open && t.circuit.openedAt == Some(r) && t.clock == r
      && t.calls == Without(s.calls, 0) && |Probes(t)| == |Probes(s)|
  {
    Extend(opts, limit, es, Leave(0, false, r));
    ProbesAfterLeave(After(opts, es), 0, After(opts, es + [Leave(0, false, r)]));
  }

  /**
   For every setting of the breaker: never more than `halfOpenRequests` probes run at once, over every run in which
   calls end in less than `limit`, exactly if no probe is allowed at all or `limit` is at most the recovery time.
   */
  lemma BoundedExactlyUpToTheRecoveryTime(opts: Options, limit: int)
    ensures AlwaysBounded(opts, limit) <==>
      opts.halfOpenRequests <= 0 || limit <= AtLeastZero(opts.recoveryTimeout)
  {
    if opts.halfOpenRequests <= 0 {
      forall es | Run(opts, limit, es)
        ensures Bounded(After(opts, es), opts)
      {
        NoneAllowedNoneRunning(opts, limit, es);
      }
    } else if limit <= AtLeastZero(opts.recoveryTimeout) {
      forall es | Run(opts, limit, es)
        ensures Bounded(After(opts, es), opts)
      {
        if limit <= 0 {
          NoTimeNoProbes(opts, limit, es);
        } else {
          LooserLimit(opts, limit, opts.recoveryTimeout, es);
          RunKeepsInv(opts, es);
        }
      }
    } else {
      var es := TwiceTheProbes(opts, limit);
      assert !Bounded(After(opts, es), opts);
    }
  }

  // ----- resets

  /** Whatever follows without a further reset, an open circuit is left only by recovery. */
  ghost predicate SafeFrom(opts: Options, past: seq<Event>) {
    forall rest, e :: Follows(opts, past, rest, e) ==> LeavesOpenByRecovery(opts, past + rest, e)
  }

  ghost predicate Follows(opts: Options, past: seq<Event>, rest: seq<Event>, e: Event) {
    NoResets(rest) && Run(opts, opts.recoveryTimeout, past + rest + [e])
  }

  lemma {:induction false} RestIsHarmless(opts: Options, past: seq<Event>, rest: seq<Event>)
    requires HarmlessResets(opts, past) && NoResets(rest)
    ensures HarmlessResets(opts, past + rest)
    decreases |rest|
  {
    if |rest| == 0 {
      assert past + rest == past;
    } else {
      var before := rest[..|rest| - 1];
      assert forall i :: 0 <= i < |before| ==> before[i] == rest[i];
      RestIsHarmless(opts, past, before);
      assert (past + rest)[..|past + rest| - 1] == past + before;
      assert (past + rest)[|past + rest| - 1] == rest[|rest| - 1];
    }
  }

  lemma OneProbeSucceeds(s: System, opts: Options, id: nat)
    requires s.circuit.mode == Open && id in Probes(s)
    ensures
      var t := Step(s, opts, Leave(id, true, s.clock));
      && t.clock == s.clock && t.calls == Without(s.calls, id) && |Probes(t)| == |Probes(s)| - 1
      && if s.circuit.halfOpenCompleted + 1 >= opts.halfOpenRequests then t.circuit.mode == Closed
         else t.circuit.mode == Open && t.circuit.halfOpenCompleted == s.circuit.halfOpenCompleted + 1
  {
    ProbesAfterLeave(s, id, Step(s, opts, Leave(id, true, s.clock)));
  }

  /** Late probes enough to complete the half-open period they belonged to close an open circuit. */
  lemma {:induction false} LateProbesClose(opts: Options, limit: int, es: seq<Event>)
    returns (rest: seq<Event>, e: Event)
    requires Run(opts, limit, es)
    requires
      var s := After(opts, es);
      && s.circuit.mode == Open && Timely(s, limit, s.clock)
      && s.circuit.halfOpenCompleted < opts.halfOpenRequests <= s.circuit.halfOpenCompleted + |Probes(s)|
    ensures NoResets(rest) && Run(opts, limit, es + rest + [e]) && e.Leave?
    ensures After(opts, es + rest).circuit.mode == Open && After(opts, es + rest + [e]).circuit.mode == Closed
    decreases opts.halfOpenRequests - After(opts, es).circuit.halfOpenCompleted
  {
    hide Run, After, Step;
    var s := After(opts, es);
    assert Probes(s) != {};
    var id :| id in Probes(s);
    var leave := Leave(id, true, s.clock);
    Extend(opts, limit, es, leave);
    OneProbeSucceeds(s, opts, id);
    if s.circuit.halfOpenCompleted + 1 >= opts.halfOpenRequests {
      rest, e := [], leave;
      assert es + rest == es;
    } else {
      var more;
      more, e := LateProbesClose(opts, limit, es + [leave]);
      rest := [leave] + more;
      assert es + [leave] + more == es + rest;
    }
  }

  /** A reset met with running probes leaves them running, and time for calls. */
  lemma ResetLeavesProbes(opts: Options, es: seq<Event>, now: int)
    requires Run(opts, opts.recoveryTimeout, es + [ManualReset(now)]) && Probes(After(opts, es)) != {}
    ensures
      var s, t := After(opts, es), After(opts, es + [ManualReset(now)]);
      && t == System(EMPTY, now, s.calls) && Probes(t) == Probes(s)
      && opts.recoveryTimeout > 0 && Timely(t, opts.recoveryTimeout, now)
  {
    var past := es + [ManualReset(now)];
    assert past[..|es|] == es;
    RunKeepsInv(opts, es);
    var s := After(opts, es);
    var probe :| probe in Probes(s);
    assert opts.recoveryTimeout > now - s.calls[probe].at >= 0;
  }

  lemma SomeAllowed(opts: Options, es: seq<Event>, now: int)
    requires Run(opts, opts.recoveryTimeout, es + [ManualReset(now)])
    requires !RoomForLateProbes(After(opts, es), opts)
    ensures Probes(After(opts, es)) != {} && opts.halfOpenRequests > 0
  {
    assert (es + [ManualReset(now)])[..|es|] == es;
    RunKeepsInv(opts, es);
  }

  /** A reset met with `halfOpenRequests` running probes leaves a way to close an open circuit without recovery. */
  lemma HarmfulReset(opts: Options, es: seq<Event>, now: int) returns (rest: seq<Event>, e: Event)
    requires Run(opts, opts.recoveryTimeout, es + [ManualReset(now)])
    requires !RoomForLateProbes(After(opts, es), opts)
    ensures
      var past := es + [ManualReset(now)];
      Follows(opts, past, rest, e) && !LeavesOpenByRecovery(opts, past + rest, e)
  {
    hide Run, After, Possible;
    var past, limit := es + [ManualReset(now)], opts.recoveryTimeout;
    SomeAllowed(opts, es, now);
    ResetLeavesProbes(opts, es, now);
    var t := After(opts, past);
    var id := FreshId(t.calls.Keys);
    assert id !in t.calls;
    var failing := FailUntilOpen(opts, limit, past, id);
    assert Probes(After(opts, past + failing)) == Probes(t);
    var closing;
    closing, e := LateProbesClose(opts, limit, past + failing);
    rest := failing + closing;
    assert past + failing + closing == past + rest;
  }

  /** What the stored fields show: no probe is allowed, or the circuit is not half-open, or it has room for a probe. */
  predicate ShowsRoom(c: Circuit, opts: Options) {
    opts.halfOpenRequests <= 0 || c.mode != HalfOpen || c.halfOpenInFlight < opts.halfOpenRequests
  }

  /** The fields show exactly whether fewer than `halfOpenRequests` probes are running. */
  lemma FieldsShowTheProbes(opts: Options, es: seq<Event>)
    requires Run(opts, opts.recoveryTimeout, es) && HarmlessResets(opts, es)
    ensures ShowsRoom(After(opts, es).circuit, opts) <==> RoomForLateProbes(After(opts, es), opts)
  {
    RunKeepsInv(opts, es);
    RunKeepsLateProbesShort(opts, es);
  }

  /**
   A manual reset is safe, in that whatever follows an open circuit is left only by recovery, exactly if the circuit it
   meets is not half-open with all `halfOpenRequests` probes in flight.
   */
  lemma ResetIsSafeExactlyWhen(opts: Options, es: seq<Event>, now: int)
    requires Run(opts, opts.recoveryTimeout, es + [ManualReset(now)]) && HarmlessResets(opts, es)
    ensures SafeFrom(opts, es + [ManualReset(now)]) <==> ShowsRoom(After(opts, es).circuit, opts)
  {
    var past := es + [ManualReset(now)];
    assert past[..|es|] == es;
    FieldsShowTheProbes(opts, es);
    if RoomForLateProbes(After(opts, es), opts) {
      forall rest, e | Follows(opts, past, rest, e)
        ensures LeavesOpenByRecovery(opts, past + rest, e)
      {
        RestIsHarmless(opts, past, rest);
        OpenEndsOnlyByRecovery(opts, past + rest, e);
      }
    } else {
      var rest, e := HarmfulReset(opts, es, now);
    }
  }
}
