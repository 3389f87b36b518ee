/**
 The bounded-concurrency helper: a fixed number of lanes share one cursor over the items. A lane runs until it awaits
 its worker; which worker resolves next is up to the environment, so a run is any sequence of working lanes.
 */
module LaneScheduler {

  datatype Lane = Unstarted | Working(index: nat) | Finished

  /** `started` logs the index given to each worker call, `reported` the values given to `onEach`. */
  datatype Pool = Pool(
    items: nat,
    lanes: seq<Lane>,
    cursor: nat,
    done: nat,
    started: seq<nat>,
    reported: seq<nat>)

  function LaneCount(items: nat, concurrency: int): nat {
    var wanted := if concurrency < 1 then 1 else concurrency;
    if wanted < items then wanted else items
  }

  /** Lane `k` is at the head of its loop: it takes the next item, or ends. */
  function TakeNext(p: Pool, k: nat): Pool
    requires k < |p.lanes|
  {
    if p.cursor < p.items then
      p.(lanes := p.lanes[k := Working(p.cursor)], cursor := p.cursor + 1, started := p.started + [p.cursor])
    else
      p.(lanes := p.lanes[k := Finished])
  }

  /** The worker of lane `k` has resolved. */
  function Resume(p: Pool, k: nat): Pool
    requires k < |p.lanes|
  {
    TakeNext(p.(done := p.done + 1, reported := p.reported + [p.done + 1]), k)
  }

  /** The lanes are created one after the other, each running up to its first await. */
  function StartLanes(p: Pool, k: nat): (q: Pool)
    requires k <= |p.lanes|
    ensures |q.lanes| == |p.lanes|
  {
    if k == 0 then p else TakeNext(StartLanes(p, k - 1), k - 1)
  }

  function Begin(items: nat, concurrency: int): Pool {
    var lanes := LaneCount(items, concurrency);
    StartLanes(Pool(items, seq(lanes, _ => Unstarted), 0, 0, [], []), lanes)
  }

  predicate Pending(p: Pool, k: nat) {
    k < |p.lanes| && p.lanes[k].Working?
  }

  /** The pool after the workers of the lanes in `schedule` resolved in that order. */
  function Play(p: Pool, schedule: seq<nat>): Pool {
    if |schedule| == 0 then p
    else
      var q := Play(p, schedule[..|schedule| - 1]);
      var k := schedule[|schedule| - 1];
      if Pending(q, k) then Resume(q, k) else q
  }

  /** Each lane in the schedule has a worker running when it is its turn. */
  ghost predicate Schedule(p: Pool, schedule: seq<nat>) {
    |schedule| == 0 ||
    (var before := schedule[..|schedule| - 1];
     Schedule(p, before) && Pending(Play(p, before), schedule[|schedule| - 1]))
  }

  /** How many workers are running. */
  function InFlight(lanes: seq<Lane>): nat {
    if |lanes| == 0 then 0
    else InFlight(lanes[..|lanes| - 1]) + if lanes[|lanes| - 1].Working? then 1 else 0
  }

  function UpTo(n: nat): seq<nat> {
    seq(n, i => i)
  }

  function OneTo(n: nat): seq<nat> {
    seq(n, i => i + 1)
  }

  /** What holds once lanes `0..k` are running. */
  ghost predicate Consistent(p: Pool, k: nat) {
    && k <= |p.lanes| <= p.items
    && p.cursor <= p.items
    && p.started == UpTo(p.cursor)
    && p.reported == OneTo(p.done)
    && p.done + InFlight(p.lanes) == p.cursor
    && (forall j :: k <= j < |p.lanes| ==> p.lanes[j].Unstarted?)
    && (forall j :: 0 <= j < k ==> !p.lanes[j].Unstarted?)
    && (p.cursor < p.items ==> forall j :: 0 <= j < k ==> p.lanes[j].Working?)
    && (forall j :: 0 <= j < k && p.lanes[j].Working? ==> p.lanes[j].index < p.cursor)
    && (forall i, j :: 0 <= i < j < k && p.lanes[i].Working? && p.lanes[j].Working? ==>
          p.lanes[i].index != p.lanes[j].index)
  }

  lemma {:induction false} InFlightAfterUpdate(lanes: seq<Lane>, k: nat, lane: Lane)
    requires k < |lanes|
    ensures InFlight(lanes[k := lane])
         == InFlight(lanes) + (if lane.Working? then 1 else 0) - if lanes[k].Working? then 1 else 0
  {
    var last := |lanes| - 1;
    if k < last {
      InFlightAfterUpdate(lanes[..last], k, lane);
      assert lanes[k := lane][..last] == lanes[..last][k := lane];
    } else {
      assert lanes[k := lane][..last] == lanes[..last];
    }
  }

  lemma {:induction false} InFlightRange(lanes: seq<Lane>)
    ensures InFlight(lanes) <= |lanes|
    ensures (forall j :: 0 <= j < |lanes| ==> lanes[j].Working?) ==> InFlight(lanes) == |lanes|
    ensures InFlight(lanes) == 0 <==> forall j :: 0 <= j < |lanes| ==> !lanes[j].Working?
  {
    if |lanes| == 0 {
    } else {
      InFlightRange(lanes[..|lanes| - 1]);
    }
  }

  lemma StartingOneIsConsistent(q: Pool, k: nat)
    requires k < |q.lanes| && Consistent(q, k) && q.cursor == k && q.done == 0
    ensures Consistent(TakeNext(q, k), k + 1) && TakeNext(q, k).cursor == k + 1
  {
    InFlightAfterUpdate(q.lanes, k, Working(q.cursor));
  }

  lemma {:induction false} StartingIsConsistent(p: Pool, k: nat)
    requires k <= |p.lanes| <= p.items && Consistent(p, 0) && p.cursor == 0 && p.done == 0
    ensures Consistent(StartLanes(p, k), k) && StartLanes(p, k).cursor == k
    ensures StartLanes(p, k).items == p.items && StartLanes(p, k).done == 0
  {
    if k == 0 {
    } else {
      StartingIsConsistent(p, k - 1);
      StartingOneIsConsistent(StartLanes(p, k - 1), k - 1);
    }
  }

  lemma ResumingIsConsistent(p: Pool, k: nat)
    requires Consistent(p, |p.lanes|) && Pending(p, k)
    ensures Consistent(Resume(p, k), |p.lanes|) && Resume(p, k).items == p.items
    ensures |Resume(p, k).lanes| == |p.lanes| && Resume(p, k).done == p.done + 1
  {
    InFlightAfterUpdate(p.lanes, k, if p.cursor < p.items then Working(p.cursor) else Finished);
  }

  lemma LanesAreTheSmallerCount(items: nat, concurrency: int)
    ensures |Begin(items, concurrency).lanes| == LaneCount(items, concurrency)
    ensures Begin(items, concurrency).items == items && Begin(items, concurrency).done == 0
    ensures Consistent(Begin(items, concurrency), LaneCount(items, concurrency))
  {
    var lanes := LaneCount(items, concurrency);
    var p := Pool(items, seq(lanes, _ => Unstarted), 0, 0, [], []);
    InFlightRange(p.lanes);
    StartingIsConsistent(p, lanes);
  }

  lemma {:induction false} EveryScheduleIsConsistent(items: nat, concurrency: int, schedule: seq<nat>)
    requires Schedule(Begin(items, concurrency), schedule)
    ensures
      var p := Play(Begin(items, concurrency), schedule);
      && |p.lanes| == LaneCount(items, concurrency) && p.items == items && p.done == |schedule|
      && Consistent(p, |p.lanes|)
  {
    if |schedule| == 0 {
      LanesAreTheSmallerCount(items, concurrency);
    } else {
      var before := schedule[..|schedule| - 1];
      EveryScheduleIsConsistent(items, concurrency, before);
      ResumingIsConsistent(Play(Begin(items, concurrency), before), schedule[|schedule| - 1]);
    }
  }

  lemma LanesAreFull(p: Pool)
    requires Consistent(p, |p.lanes|)
    ensures InFlight(p.lanes) == if |p.lanes| < p.items - p.done then |p.lanes| else p.items - p.done
  {
    InFlightRange(p.lanes);
  }

  /** `n` workers for this many items: one each, but at most `concurrency`, and at least one lane is always allowed. */
  predicate AsManyAsAllowed(n: nat, items: nat, concurrency: int) {
    var limit := if concurrency < 1 then 1 else concurrency;
    n <= items && n <= limit && (n == items || n == limit)
  }

  /**
   After `resolved` workers have resolved: worker calls have been made for the items in order, each once; `onEach` has
   been called with 1, 2, 3, …; and exactly as many workers are running as the limit and the remaining items allow.
   */
  predicate OnSchedule(p: Pool, items: nat, concurrency: int, resolved: nat) {
    && resolved <= items
    && p.started == UpTo(resolved + InFlight(p.lanes))
    && p.reported == OneTo(resolved)
    && AsManyAsAllowed(InFlight(p.lanes), items - resolved, concurrency)
  }

  lemma ConsistentIsOnSchedule(p: Pool, concurrency: int)
    requires Consistent(p, |p.lanes|) && |p.lanes| == LaneCount(p.items, concurrency)
    ensures OnSchedule(p, p.items, concurrency, p.done)
  {
    LanesAreFull(p);
  }

  /** Every interleaving is on schedule at every point. */
  lemma LanesStayFull(items: nat, concurrency: int, schedule: seq<nat>)
    requires Schedule(Begin(items, concurrency), schedule)
    ensures OnSchedule(Play(Begin(items, concurrency), schedule), items, concurrency, |schedule|)
  {
    EveryScheduleIsConsistent(items, concurrency, schedule);
    ConsistentIsOnSchedule(Play(Begin(items, concurrency), schedule), concurrency);
  }

  /** Every lane has ended, so the helper returns. */
  ghost predicate AllEnded(p: Pool) {
    forall k :: !Pending(p, k)
  }

  lemma EndedMeansNoneInFlight(p: Pool)
    ensures AllEnded(p) <==> InFlight(p.lanes) == 0
  {
    InFlightRange(p.lanes);
    if InFlight(p.lanes) > 0 {
      var k :| 0 <= k < |p.lanes| && p.lanes[k].Working?;
      assert Pending(p, k);
    }
  }

  /** No interleaving can stop early or run on: all lanes have ended exactly after `items` workers resolved. */
  lemma AllLanesEndTogetherWithTheItems(items: nat, concurrency: int, schedule: seq<nat>)
    requires Schedule(Begin(items, concurrency), schedule)
    ensures AllEnded(Play(Begin(items, concurrency), schedule)) <==> |schedule| == items
    ensures |schedule| == items ==>
      var p := Play(Begin(items, concurrency), schedule);
      p.started == UpTo(items) && p.reported == OneTo(items)
  {
    LanesStayFull(items, concurrency, schedule);
    EndedMeansNoneInFlight(Play(Begin(items, concurrency), schedule));
  }

  function Max(a: nat, b: nat): nat {
    if a < b then b else a
  }

  ghost predicate Running(p: Pool, items: nat, concurrency: int) {
    Consistent(p, |p.lanes|) && p.items == items && |p.lanes| == LaneCount(items, concurrency)
  }

  lemma ResumingKeepsRunning(p: Pool, k: nat, items: nat, concurrency: int)
    requires Running(p, items, concurrency) && Pending(p, k)
    ensures p.done < items && Running(Resume(p, k), items, concurrency)
    ensures Resume(p, k).done == p.done + 1 && InFlight(Resume(p, k).lanes) <= LaneCount(items, concurrency)
  {
    ResumingIsConsistent(p, k);
    LanesAreFull(Resume(p, k));
    LanesAreFull(p);
    EndedMeansNoneInFlight(p);
  }

  lemma WhenAllHaveEnded(p: Pool, items: nat, concurrency: int)
    requires Running(p, items, concurrency)
    ensures AllEnded(p) ==> p.started == UpTo(items) && p.reported == OneTo(items)
  {
    LanesAreFull(p);
    EndedMeansNoneInFlight(p);
  }

  /** The helper itself, the environment choosing which running worker resolves next. */
  method MapWithConcurrency(items: nat, concurrency: int)
    returns (started: seq<nat>, reported: seq<nat>, peak: nat)
    ensures started == UpTo(items)
    ensures reported == OneTo(items)
    ensures AsManyAsAllowed(peak, items, concurrency)
  {
    var p := Begin(items, concurrency);
    LanesAreTheSmallerCount(items, concurrency);
    LanesAreFull(p);
    peak := InFlight(p.lanes);
    while exists k :: 0 <= k < |p.lanes| && Pending(p, k)
      invariant Running(p, items, concurrency)
      invariant peak == LaneCount(items, concurrency)
      decreases items - p.done
    {
      var k: nat :| k < |p.lanes| && Pending(p, k);
      ResumingKeepsRunning(p, k, items, concurrency);
      p := Resume(p, k);
      peak := Max(peak, InFlight(p.lanes));
    }
    assert AllEnded(p);
    WhenAllHaveEnded(p, items, concurrency);
    started, reported := p.started, p.reported;
  }
}
