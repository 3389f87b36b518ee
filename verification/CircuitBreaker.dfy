/**
 The circuit breaker as a store of loose hash fields.

 One call of `execute` is two atomic steps around the protected function: `Admit` before it and `Finish` after it.
 `AdmitOn` and `Settle` say what the two steps do to the fields of one circuit; the class performs them write by
 write, as the service does on its in-process store.
 */
module CircuitBreaker {
  import opened Wrappers

  datatype Mode = Closed | Open | HalfOpen

  datatype Options = Options(failureThreshold: int, recoveryTimeout: int, halfOpenRequests: int)

  datatype Circuit = Circuit(
    mode: Mode,
    failureCount: int,
    openedAt: Option<int>,
    lastFailureAt: Option<int>,
    halfOpenInFlight: int,
    halfOpenCompleted: int)

  const EMPTY := Circuit(Closed, 0, None, None, 0, 0)

  /** What a caller is told: rejected at once, or let through as an ordinary call or as a half-open probe. */
  datatype Verdict = Rejected | Admitted(probe: bool)

  function Lookup(circuits: map<string, Circuit>, name: string): Circuit {
    if name in circuits then circuits[name] else EMPTY
  }

  /** An open circuit is past its recovery time at `now`. */
  predicate Recovered(c: Circuit, opts: Options, now: int) {
    now - c.openedAt.GetOr(now) >= opts.recoveryTimeout
  }

  function AdmitOn(c: Circuit, opts: Options, now: int): (Circuit, Verdict) {
    if c.mode == Open && !Recovered(c, opts, now) then
      (c, Rejected)
    else
      var c1 := if c.mode == Open then c.(mode := HalfOpen, halfOpenInFlight := 0, halfOpenCompleted := 0) else c;
      if c1.mode == HalfOpen && c1.halfOpenInFlight >= opts.halfOpenRequests then
        (c1, Rejected)
      else if c1.mode == HalfOpen then
        (c1.(halfOpenInFlight := c1.halfOpenInFlight + 1), Admitted(true))
      else
        (c1, Admitted(false))
  }

  function Settle(c: Circuit, opts: Options, probe: bool, ok: bool, now: int): Circuit {
    if ok then
      if probe then
        var c1 := c.(halfOpenInFlight := c.halfOpenInFlight - 1, halfOpenCompleted := c.halfOpenCompleted + 1);
        if c1.halfOpenCompleted >= opts.halfOpenRequests then EMPTY else c1
      else
        c.(failureCount := 0, lastFailureAt := Some(0))
    else
      var c1 := if probe then c.(halfOpenInFlight := c.halfOpenInFlight - 1) else c;
      var c2 := c1.(failureCount := c1.failureCount + 1, lastFailureAt := Some(now));
      if probe || c2.failureCount >= opts.failureThreshold then
        c2.(mode := Open, openedAt := Some(now), halfOpenInFlight := 0, halfOpenCompleted := 0)
      else
        c2
  }

  /** One field of a circuit together with the value written to it. */
  datatype FieldWrite =
    | WriteMode(mode: Mode)
    | WriteFailureCount(n: int)
    | WriteOpenedAt(at: int)
    | WriteLastFailureAt(at: int)
    | WriteInFlight(n: int)
    | WriteCompleted(n: int)

  datatype Counter = FailureCount | InFlight | Completed

  function Apply(c: Circuit, w: FieldWrite): Circuit {
    match w
    case WriteMode(m) => c.(mode := m)
    case WriteFailureCount(n) => c.(failureCount := n)
    case WriteOpenedAt(t) => c.(openedAt := Some(t))
    case WriteLastFailureAt(t) => c.(lastFailureAt := Some(t))
    case WriteInFlight(n) => c.(halfOpenInFlight := n)
    case WriteCompleted(n) => c.(halfOpenCompleted := n)
  }

  function Read(c: Circuit, f: Counter): int {
    match f
    case FailureCount => c.failureCount
    case InFlight => c.halfOpenInFlight
    case Completed => c.halfOpenCompleted
  }

  function WriteCounter(f: Counter, n: int): FieldWrite {
    match f
    case FailureCount => WriteFailureCount(n)
    case InFlight => WriteInFlight(n)
    case Completed => WriteCompleted(n)
  }

  /** `after` is `before` with the circuit called `name` turned into `c`; every other circuit reads as it did. */
  ghost predicate OnlyChanged(before: map<string, Circuit>, after: map<string, Circuit>, name: string, c: Circuit) {
    Lookup(after, name) == c && forall n :: n != name ==> Lookup(after, n) == Lookup(before, n)
  }

  class CircuitStore {
    var circuits: map<string, Circuit>

    constructor ()
      ensures circuits == map[]
    {
      circuits := map[];
    }

    method ReadCircuit(name: string) returns (c: Circuit)
      ensures c == Lookup(circuits, name)
    {
      c := if name in circuits then circuits[name] else EMPTY;
    }

    method WriteField(name: string, w: FieldWrite)
      modifies this
      ensures circuits == old(circuits)[name := Apply(Lookup(old(circuits), name), w)]
    {
      var snap := ReadCircuit(name);
      circuits := circuits[name := Apply(snap, w)];
    }

    method IncrField(name: string, f: Counter, delta: int) returns (updated: int)
      modifies this
      ensures updated == Read(Lookup(old(circuits), name), f) + delta
      ensures circuits == old(circuits)[name := Apply(Lookup(old(circuits), name), WriteCounter(f, updated))]
    {
      var snap := ReadCircuit(name);
      updated := Read(snap, f) + delta;
      circuits := circuits[name := Apply(snap, WriteCounter(f, updated))];
    }

    method CloseCircuit(name: string)
      modifies this
      ensures circuits == old(circuits)[name := EMPTY]
    {
      circuits := circuits[name := Circuit(Closed, 0, None, None, 0, 0)];
    }

    /** The part of `execute` before the protected function runs. */
    method Admit(name: string, opts: Options, now: int) returns (v: Verdict)
      modifies this
      ensures v == AdmitOn(Lookup(old(circuits), name), opts, now).1
      ensures OnlyChanged(old(circuits), circuits, name, AdmitOn(Lookup(old(circuits), name), opts, now).0)
    {
      var snap := ReadCircuit(name);
      if snap.mode == Open {
        var openedAt := snap.openedAt.GetOr(now);
        if now - openedAt < opts.recoveryTimeout {
          return Rejected;
        }
        WriteField(name, WriteMode(HalfOpen));
        WriteField(name, WriteInFlight(0));
        WriteField(name, WriteCompleted(0));
        snap := snap.(mode := HalfOpen, halfOpenInFlight := 0, halfOpenCompleted := 0);
      }
      if snap.mode == HalfOpen && snap.halfOpenInFlight >= opts.halfOpenRequests {
        return Rejected;
      }
      if snap.mode == HalfOpen {
        var _ := IncrField(name, InFlight, 1);
      }
      return Admitted(snap.mode == HalfOpen);
    }

    method Succeed(name: string, opts: Options, probe: bool)
      modifies this
      ensures OnlyChanged(old(circuits), circuits, name, Settle(Lookup(old(circuits), name), opts, probe, true, 0))
    {
      if probe {
        var _ := IncrField(name, InFlight, -1);
        var completed := IncrField(name, Completed, 1);
        if completed >= opts.halfOpenRequests {
          CloseCircuit(name);
        }
      } else {
        WriteField(name, WriteFailureCount(0));
        WriteField(name, WriteLastFailureAt(0));
      }
    }

    method Fail(name: string, opts: Options, probe: bool, now: int)
      modifies this
      ensures OnlyChanged(old(circuits), circuits, name, Settle(Lookup(old(circuits), name), opts, probe, false, now))
    {
      if probe {
        var _ := IncrField(name, InFlight, -1);
      }
      var failures := IncrField(name, FailureCount, 1);
      WriteField(name, WriteLastFailureAt(now));
      if probe || failures >= opts.failureThreshold {
        WriteField(name, WriteMode(Open));
        WriteField(name, WriteOpenedAt(now));
        WriteField(name, WriteInFlight(0));
        WriteField(name, WriteCompleted(0));
      }
    }

    /** The part of `execute` after the protected function returned (`ok`) or threw. */
    method Finish(name: string, opts: Options, probe: bool, ok: bool, now: int)
      modifies this
      ensures OnlyChanged(old(circuits), circuits, name, Settle(Lookup(old(circuits), name), opts, probe, ok, now))
    {
      if ok {
        Succeed(name, opts, probe);
      } else {
        Fail(name, opts, probe, now);
      }
    }
  }
}
