/**
 The fields of the circuit read off its history: every field is a count of, or the time of, certain events since the
 latest turning point, over every interleaving of overlapping calls and resets.
 */
module CircuitHistory {
  import opened Wrappers
  import opened CircuitBreaker
  import opened CircuitRuns
  import opened CircuitLimits

  /** The latest event that opened the circuit, let it be tried again, or closed it. */
  datatype Turn = Opened(at: int) | Tried | ClosedAgain

  predicate Finishes(s: System, e: Event, ok: bool) {
    e.Leave? && e.ok == ok && e.id in s.calls
  }

  /** A failure that opens the circuit, whatever state it is in: of a probe, or the one that reaches the threshold. */
  predicate Opens(opts: Options, es: seq<Event>, e: Event)
    decreases |es|, 1
  {
    var s := After(opts, es);
    Finishes(s, e, false) && (s.calls[e.id].probe || Failures(opts, es) + 1 >= opts.failureThreshold)
  }

  /** The first call to enter once an opening lies `recoveryTimeout` back, admitted or not. */
  predicate Tries(opts: Options, es: seq<Event>, e: Event)
    decreases |es|, 1
  {
    e.Enter? && LatestTurn(opts, es).Opened? && e.now - LatestTurn(opts, es).at >= opts.recoveryTimeout
  }

  /** A reset, or the success of the last probe that was needed. */
  predicate Closes(opts: Options, es: seq<Event>, e: Event)
    decreases |es|, 1
  {
    var s := After(opts, es);
    e.ManualReset?
    || (Finishes(s, e, true) && s.calls[e.id].probe && Passed(opts, es) + 1 >= opts.halfOpenRequests)
  }

  predicate Turns(opts: Options, es: seq<Event>, e: Event)
    decreases |es|, 2
  {
    Opens(opts, es, e) || Tries(opts, es, e) || Closes(opts, es, e)
  }

  function LatestTurn(opts: Options, es: seq<Event>): Turn
    decreases |es|, 0
  {
    if |es| == 0 then ClosedAgain
    else
      var before, e := es[..|es| - 1], es[|es| - 1];
      if Opens(opts, before, e) then Opened(e.now)
      else if Tries(opts, before, e) then Tried
      else if Closes(opts, before, e) then ClosedAgain
      else LatestTurn(opts, before)
  }

  /** Calls that failed since the circuit closed or an ordinary call succeeded. */
  function Failures(opts: Options, es: seq<Event>): nat
    decreases |es|, 0
  {
    if |es| == 0 then 0
    else
      var before, e := es[..|es| - 1], es[|es| - 1];
      var s := After(opts, before);
      if Finishes(s, e, false) then Failures(opts, before) + 1
      else if Closes(opts, before, e) || (Finishes(s, e, true) && !s.calls[e.id].probe) then 0
      else Failures(opts, before)
  }

  /** Probes that succeeded since the latest turning point. */
  function Passed(opts: Options, es: seq<Event>): nat
    decreases |es|, 0
  {
    if |es| == 0 then 0
    else
      var before, e := es[..|es| - 1], es[|es| - 1];
      var s := After(opts, before);
      if Turns(opts, before, e) then 0
      else if Finishes(s, e, true) && s.calls[e.id].probe then Passed(opts, before) + 1
      else Passed(opts, before)
  }

  /** Probes let through less those that ended, since the latest turning point, the call that is that point included. */
  function InFlight(opts: Options, es: seq<Event>): int
    decreases |es|, 0
  {
    if |es| == 0 then 0
    else
      var before, e := es[..|es| - 1], es[|es| - 1];
      var s := After(opts, before);
      if e.Enter? then
        (if Tries(opts, before, e) then 0 else InFlight(opts, before))
        + if Told(opts, before, e.now) == Admitted(true) then 1 else 0
      else if Turns(opts, before, e) then 0
      else if Finishes(s, e, true) && s.calls[e.id].probe then InFlight(opts, before) - 1
      else InFlight(opts, before)
  }

  /** What a call that enters at `now` is told. */
  function Told(opts: Options, es: seq<Event>, now: int): Verdict
    decreases |es|, 1
  {
    match LatestTurn(opts, es)
    case ClosedAgain => Admitted(false)
    case Opened(at) =>
      if now - at < opts.recoveryTimeout || opts.halfOpenRequests <= 0 then Rejected else Admitted(true)
    case Tried =>
      if InFlight(opts, es) >= opts.halfOpenRequests then Rejected else Admitted(true)
  }

  /** When a call last failed; zero once an ordinary call has succeeded, and forgotten when the circuit closes. */
  function LastFailure(opts: Options, es: seq<Event>): Option<int> {
    if |es| == 0 then None
    else
      var before, e := es[..|es| - 1], es[|es| - 1];
      var s := After(opts, before);
      if Finishes(s, e, false) then Some(e.now)
      else if Closes(opts, before, e) then None
      else if Finishes(s, e, true) && !s.calls[e.id].probe then Some(0)
      else LastFailure(opts, before)
  }

  ghost predicate Shows(c: Circuit, opts: Options, es: seq<Event>) {
    && c.failureCount == Failures(opts, es)
    && c.halfOpenCompleted == Passed(opts, es)
    && c.halfOpenInFlight == InFlight(opts, es)
    && c.lastFailureAt == LastFailure(opts, es)
    && match LatestTurn(opts, es)
       case Opened(at) => c.mode == Open && c.openedAt == Some(at)
       case Tried => c.mode == HalfOpen
       case ClosedAgain => c.mode == Closed && c.openedAt == None
  }

  lemma ShownIsTold(c: Circuit, opts: Options, es: seq<Event>, now: int)
    requires Shows(c, opts, es)
    ensures AdmitOn(c, opts, now).1 == Told(opts, es, now)
  {
  }

  lemma EventShows(opts: Options, es: seq<Event>, e: Event)
    requires Shows(After(opts, es).circuit, opts, es)
    ensures Shows(Step(After(opts, es), opts, e).circuit, opts, es + [e])
  {
    var all, s := es + [e], After(opts, es);
    assert all[..|all| - 1] == es;
    assert Turns(opts, es, e) <==> Opens(opts, es, e) || Tries(opts, es, e) || Closes(opts, es, e);
    match e
    case Enter(_, now) =>
      assert !Opens(opts, es, e) && !Closes(opts, es, e);
      ShownIsTold(s.circuit, opts, es, now);
    case Leave(id, ok, _) =>
      if id in s.calls {
        assert Finishes(s, e, ok);
      }
    case ManualReset(_) =>
  }

  /** Over every sequence of events the fields are what the history says, and so is what the next call is told. */
  lemma {:induction false} FieldsShowTheHistory(opts: Options, es: seq<Event>)
    ensures Shows(After(opts, es).circuit, opts, es)
    ensures forall now :: AdmitOn(After(opts, es).circuit, opts, now).1 == Told(opts, es, now)
  {
    if |es| == 0 {
    } else {
      var before := es[..|es| - 1];
      FieldsShowTheHistory(opts, before);
      EventShows(opts, before, es[|es| - 1]);
      assert before + [es[|es| - 1]] == es;
    }
    hide After, Shows, AdmitOn, Told;
    forall now
      ensures AdmitOn(After(opts, es).circuit, opts, now).1 == Told(opts, es, now)
    {
      ShownIsTold(After(opts, es).circuit, opts, es, now);
    }
  }

  /** Event `j` opened the circuit, and none after it was a turning point. */
  ghost predicate IsLatestOpening(opts: Options, es: seq<Event>, j: nat) {
    && j < |es| && Opens(opts, es[..j], es[j])
    && forall k :: j < k < |es| ==> !Turns(opts, es[..k], es[k])
  }

  lemma LatestOpeningStays(opts: Options, es: seq<Event>, j: nat)
    requires |es| > 0
    ensures
      var before := es[..|es| - 1];
      IsLatestOpening(opts, es, j) <==>
        if j == |before| then Opens(opts, before, es[j])
        else IsLatestOpening(opts, before, j) && !Turns(opts, before, es[|before|])
  {
    hide Opens, Turns;
    var before := es[..|es| - 1];
    assert forall k :: 0 <= k < |before| ==> before[..k] == es[..k] && before[k] == es[k];
  }

  lemma {:induction false} LatestTurnIsAnOpening(opts: Options, es: seq<Event>, at: int)
    ensures LatestTurn(opts, es) == Opened(at) <==> exists j: nat :: IsLatestOpening(opts, es, j) && es[j].now == at
  {
    if |es| == 0 {
    } else {
      var before, last := es[..|es| - 1], |es| - 1;
      LatestTurnIsAnOpening(opts, before, at);
      forall j: nat
        ensures IsLatestOpening(opts, es, j) <==>
          if j == last then Opens(opts, before, es[j])
          else IsLatestOpening(opts, before, j) && !Turns(opts, before, es[last])
      {
        LatestOpeningStays(opts, es, j);
      }
    }
  }

  /** Over every sequence of events: an open circuit was opened by its latest turning point, and is timed from it. */
  lemma OpenSinceItsLatestOpening(opts: Options, es: seq<Event>, at: int)
    ensures
      var c := After(opts, es).circuit;
      c.mode == Open && c.openedAt == Some(at) <==>
        exists j: nat :: IsLatestOpening(opts, es, j) && es[j].now == at
  {
    FieldsShowTheHistory(opts, es);
    LatestTurnIsAnOpening(opts, es, at);
  }

  // ----- an opening holds for the recovery time

  ghost predicate OpenSince(s: System, at: int) {
    s.circuit.mode == Open && s.circuit.openedAt.Some? && s.circuit.openedAt.value >= at
  }

  lemma OpeningOpens(opts: Options, es: seq<Event>, e: Event)
    requires Opens(opts, es, e)
    ensures OpenSince(After(opts, es + [e]), e.now) && After(opts, es + [e]).clock == e.now
  {
    assert (es + [e])[..|es|] == es;
    FieldsShowTheHistory(opts, es + [e]);
  }

  lemma EarlyEventKeepsOpen(opts: Options, es: seq<Event>, e: Event, at: int)
    requires Run(opts, opts.recoveryTimeout, es + [e]) && HarmlessResets(opts, es)
    requires OpenSince(After(opts, es), at) && !e.ManualReset? && at <= e.now < at + opts.recoveryTimeout
    ensures OpenSince(After(opts, es + [e]), at)
  {
    OpenEndsOnlyByRecovery(opts, es, e);
    assert (es + [e])[..|es|] == es;
  }

  /**
   Once a failed probe, or the failure that reaches the threshold, has opened the circuit or found it open, every call
   that enters less than `recoveryTimeout` later is turned away, whatever else happens in between but a reset.
   */
  lemma {:induction false} TurnedAwayUntilRecovered(
    opts: Options, past: seq<Event>, e: Event, rest: seq<Event>, now: int)
    requires Opens(opts, past, e) && NoResets(rest)
    requires Run(opts, opts.recoveryTimeout, past + [e] + rest) && HarmlessResets(opts, past + [e] + rest)
    requires After(opts, past + [e] + rest).clock <= now < e.now + opts.recoveryTimeout
    ensures OpenSince(After(opts, past + [e] + rest), e.now) && e.now <= After(opts, past + [e] + rest).clock
    ensures AdmitOn(After(opts, past + [e] + rest).circuit, opts, now).1 == Rejected
    decreases |rest|
  {
    hide Opens, Run, HarmlessResets;
    var all := past + [e] + rest;
    if |rest| == 0 {
      assert all == past + [e];
      OpeningOpens(opts, past, e);
    } else {
      var before, last := past + [e] + rest[..|rest| - 1], rest[|rest| - 1];
      assert all == before + [last];
      PrefixOfRun(opts, before, last);
      TurnedAwayUntilRecovered(opts, past, e, rest[..|rest| - 1], now);
      EarlyEventKeepsOpen(opts, before, last, e.now);
    }
  }

  lemma PrefixOfRun(opts: Options, es: seq<Event>, e: Event)
    requires Run(opts, opts.recoveryTimeout, es + [e]) && HarmlessResets(opts, es + [e])
    ensures Run(opts, opts.recoveryTimeout, es) && HarmlessResets(opts, es)
    ensures After(opts, es).clock <= e.now == After(opts, es + [e]).clock
  {
    assert (es + [e])[..|es|] == es;
  }
}
