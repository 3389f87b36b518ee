/** The in-store backup: paging through one region's orders, and the point in time it continues from. */
module Watermark {
  import opened Wrappers

  const PAGE_SIZE: nat := 500

  /** `date` in milliseconds. */
  datatype Order = Order(id: int, date: int)

  datatype Overrides = Overrides(
    startDate: Option<int>,
    endDate: Option<int>,
    branchId: Option<int>,
    companyId: Option<int>,
    limit: Option<nat>)

  datatype Query = Query(companyId: Option<int>, branchId: Option<int>, start: Option<int>, end: Option<int>)

  /** The watermark is sent to the second. */
  function FloorSecond(ms: int): int {
    ms - ms % 1000
  }

  function QueryFor(companyId: Option<int>, lastSyncAt: Option<int>, overrides: Option<Overrides>): Query {
    var since := if lastSyncAt.Some? then Some(FloorSecond(lastSyncAt.value)) else None;
    match overrides
    case None => Query(companyId, None, since, None)
    case Some(o) =>
      Query(
        if o.companyId.Some? then o.companyId else companyId,
        o.branchId,
        if o.startDate.Some? then o.startDate else since,
        o.endDate)
  }

  /**
   What one run meets: the clock when it starts, what the server answers to a query, the request that fails if one does,
   and the orders that cannot be written.
   */
  datatype Run = Run(
    runAt: int,
    overrides: Option<Overrides>,
    answer: Query -> seq<Order>,
    failAt: Option<nat>,
    unwritable: set<int>)
  {
    predicate HasLimit() {
      overrides.Some? && overrides.value.limit.Some?
    }

    function Limit(): nat
      requires HasLimit()
    {
      overrides.value.limit.value
    }
  }

  datatype State = State(lastSyncAt: Option<int>, stored: map<int, Order>, fetched: set<Order>)

  datatype Report = Report(saved: nat, skipped: nat, orders: seq<Order>)

  function Min(a: nat, b: nat): nat {
    if a <= b then a else b
  }

  /** The records from `offset` on, at most `limit` of them. */
  function PageOf(all: seq<Order>, offset: nat, limit: nat): seq<Order> {
    all[Min(offset, |all|)..Min(offset + limit, |all|)]
  }

  // ----- what a run does, without its loops

  function AnswerTo(companyId: Option<int>, lastSyncAt: Option<int>, run: Run): seq<Order> {
    run.answer(QueryFor(companyId, lastSyncAt, run.overrides))
  }

  /** A run without a limit asks until it gets a short page; with one it asks once. */
  function Requests(all: seq<Order>, run: Run): nat {
    if run.HasLimit() then 1 else |all| / PAGE_SIZE + 1
  }

  predicate Fails(all: seq<Order>, run: Run) {
    run.failAt.Some? && run.failAt.value < Requests(all, run)
  }

  /** The orders received before the run ends or fails. */
  function Received(all: seq<Order>, run: Run): seq<Order> {
    if run.HasLimit() then
      if Fails(all, run) then [] else all[..Min(run.Limit(), |all|)]
    else
      if Fails(all, run) then all[..Min(run.failAt.value * PAGE_SIZE, |all|)] else all
  }

  /** The start asked for is the one given, or the watermark in whole seconds, at most one second before it. */
  ghost predicate StartsAt(lastSyncAt: Option<int>, given: Option<int>, start: Option<int>) {
    match start
    case None => given.None? && lastSyncAt.None?
    case Some(t) =>
      given == Some(t) || (given.None? && lastSyncAt.Some? && t % 1000 == 0 && t <= lastSyncAt.value < t + 1000)
  }

  /** A scheduled run asks from the watermark on; a manual one for what it is told, and as a scheduled one otherwise. */
  lemma AsksForWhatIsGiven(companyId: Option<int>, lastSyncAt: Option<int>, overrides: Option<Overrides>)
    ensures
      var q := QueryFor(companyId, lastSyncAt, overrides);
      match overrides
      case None =>
        && q.companyId == companyId && q.branchId == None && q.end == None
        && StartsAt(lastSyncAt, None, q.start)
      case Some(o) =>
        && (o.companyId.Some? ==> q.companyId == o.companyId)
        && (o.companyId.None? ==> q.companyId == companyId)
        && q.branchId == o.branchId && q.end == o.endDate
        && StartsAt(lastSyncAt, o.startDate, q.start)
  {
  }

  /** A run with a limit gets that many orders at once; any other gets pages of 500, until one comes short or fails. */
  lemma ReceivesWholePages(all: seq<Order>, run: Run)
    ensures run.HasLimit() ==>
      && (Fails(all, run) <==> run.failAt == Some(0))
      && Received(all, run) == if run.failAt == Some(0) then [] else PageOf(all, 0, run.Limit())
    ensures !run.HasLimit() ==>
      match run.failAt
      case None => !Fails(all, run) && Received(all, run) == all
      case Some(k) =>
        && (Fails(all, run) <==> 500 * k <= |all|)
        && Received(all, run) == PageOf(all, 0, if 500 * k <= |all| then 500 * k else |all|)
  {
  }

  function Written(stored: map<int, Order>, orders: seq<Order>, unwritable: set<int>): map<int, Order> {
    if |orders| == 0 then stored
    else
      var o := orders[|orders| - 1];
      var before := Written(stored, orders[..|orders| - 1], unwritable);
      if o.id in unwritable then before else before[o.id := o]
  }

  function Elements(orders: seq<Order>): set<Order> {
    set i | 0 <= i < |orders| :: orders[i]
  }

  /** Only a scheduled run that does not fail moves the watermark, and moves it to when it started. */
  function After(companyId: Option<int>, s: State, run: Run): State {
    var all := AnswerTo(companyId, s.lastSyncAt, run);
    var received := Received(all, run);
    State(
      if run.overrides.None? && !Fails(all, run) then Some(run.runAt) else s.lastSyncAt,
      Written(s.stored, received, run.unwritable),
      s.fetched + Elements(received))
  }

  // ----- the run as it is carried out

  /** `request` requests have brought the first `offset` orders, and none of them failed. */
  ghost predicate Reached(all: seq<Order>, run: Run, request: nat, offset: nat) {
    && offset <= |all|
    && offset == request * PAGE_SIZE
    && (run.HasLimit() ==> request == 0)
    && (run.failAt.Some? ==> request <= run.failAt.value)
  }

  lemma FailedHere(all: seq<Order>, run: Run, request: nat, offset: nat)
    requires Reached(all, run, request, offset) && run.failAt == Some(request)
    ensures Fails(all, run) && Received(all, run) == all[..offset]
  {
  }

  /** A page that is not the last takes the loop one request on; the last one completes what the run receives. */
  lemma OnePageOn(all: seq<Order>, run: Run, request: nat, offset: nat, pageSize: nat)
    requires Reached(all, run, request, offset) && run.failAt != Some(request)
    requires pageSize == if run.HasLimit() then run.Limit() else PAGE_SIZE
    ensures
      var page := PageOf(all, offset, pageSize);
      && all[..offset] + page == all[..offset + |page|]
      && (if |page| < pageSize || run.HasLimit()
          then !Fails(all, run) && all[..offset + |page|] == Received(all, run)
          else Reached(all, run, request + 1, offset + pageSize) && |page| == pageSize)
  {
  }

  class Backup {
    const companyId: Option<int>
    var lastSyncAt: Option<int>
    var stored: map<int, Order>
    ghost var fetched: set<Order>

    ghost function Abstract(): State
      reads this
    {
      State(lastSyncAt, stored, fetched)
    }

    constructor (companyId: Option<int>)
      ensures this.companyId == companyId && Abstract() == State(None, map[], {})
    {
      this.companyId := companyId;
      lastSyncAt, stored, fetched := None, map[], {};
    }

    /** One page written; a new order counts as saved, an update or a failure as skipped. */
    method SavePage(page: seq<Order>, unwritable: set<int>) returns (saved: nat, skipped: nat)
      modifies this`stored
      ensures stored == Written(old(stored), page, unwritable)
      ensures saved + skipped == |page|
      ensures |stored| == |old(stored)| + saved
    {
      saved, skipped := 0, 0;
      for i := 0 to |page|
        invariant stored == Written(old(stored), page[..i], unwritable)
        invariant saved + skipped == i && |stored| == |old(stored)| + saved
      {
        assert page[..i + 1][..i] == page[..i];
        var o := page[i];
        if o.id !in unwritable {
          if o.id !in stored {
            saved := saved + 1;
          } else {
            assert stored[o.id := o].Keys == stored.Keys;
            skipped := skipped + 1;
          }
          stored := stored[o.id := o];
        } else {
          skipped := skipped + 1;
        }
      }
      assert page[..|page|] == page;
    }

    /** Nothing is returned when a request fails; the pages before it stay written. */
    method BackupRegion(run: Run) returns (report: Option<Report>)
      modifies this
      ensures Abstract() == After(companyId, old(Abstract()), run)
      ensures report.None? <==> Fails(AnswerTo(companyId, old(lastSyncAt), run), run)
      ensures report.Some? ==>
        && report.value.orders == Received(AnswerTo(companyId, old(lastSyncAt), run), run)
        && report.value.saved + report.value.skipped == |report.value.orders|
        && report.value.saved == |stored| - |old(stored)|
    {
      hide Written, Elements;
      var pageSize := if run.HasLimit() then run.Limit() else PAGE_SIZE;
      var shouldPaginate := !run.HasLimit() || run.Limit() == 0;
      var offset, request := 0, 0;
      var saved, skipped := 0, 0;
      var orders: seq<Order> := [];
      ghost var all := AnswerTo(companyId, lastSyncAt, run);
      NothingReceived(stored, run.unwritable);
      while true
        invariant Reached(all, run, request, offset) && orders == all[..offset]
        invariant lastSyncAt == old(lastSyncAt)
        invariant stored == Written(old(stored), orders, run.unwritable)
        invariant fetched == old(fetched) + Elements(orders)
        invariant saved + skipped == |orders| && |stored| == |old(stored)| + saved
        decreases |all| - offset
      {
        if run.failAt == Some(request) {
          FailedHere(all, run, request, offset);
          return None;
        }
        var page := PageOf(run.answer(QueryFor(companyId, lastSyncAt, run.overrides)), offset, pageSize);
        OnePageOn(all, run, request, offset, pageSize);
        if |page| == 0 {
          assert orders == Received(all, run);
          break;
        }
        var s, k := SavePage(page, run.unwritable);
        WrittenInTwo(old(stored), orders, page, run.unwritable);
        ElementsInTwo(orders, page);
        saved, skipped := saved + s, skipped + k;
        orders := orders + page;
        fetched := fetched + Elements(page);
        if !shouldPaginate || |page| < pageSize {
          assert orders == Received(all, run);
          break;
        }
        offset := offset + pageSize;
        request := request + 1;
      }
      if run.overrides.None? {
        lastSyncAt := Some(run.runAt);
      }
      report := Some(Report(saved, skipped, orders));
    }
  }

  lemma NothingReceived(stored: map<int, Order>, unwritable: set<int>)
    ensures Written(stored, [], unwritable) == stored && Elements([]) == {}
  {
  }

  lemma {:induction false} WrittenInTwo(stored: map<int, Order>, a: seq<Order>, b: seq<Order>, unwritable: set<int>)
    ensures Written(stored, a + b, unwritable) == Written(Written(stored, a, unwritable), b, unwritable)
    decreases |b|
  {
    if |b| == 0 {
      assert a + b == a;
    } else {
      assert (a + b)[..|a + b| - 1] == a + b[..|b| - 1];
      WrittenInTwo(stored, a, b[..|b| - 1], unwritable);
    }
  }

  lemma ElementsInTwo(a: seq<Order>, b: seq<Order>)
    ensures Elements(a + b) == Elements(a) + Elements(b)
  {
    assert forall i :: 0 <= i < |a| ==> (a + b)[i] == a[i];
    assert forall i :: 0 <= i < |b| ==> (a + b)[|a| + i] == b[i];
    forall o | o in Elements(a) + Elements(b)
      ensures o in Elements(a + b)
    {
      if o in Elements(a) {
        var i :| 0 <= i < |a| && a[i] == o;
        assert (a + b)[i] == o;
      } else {
        var i :| 0 <= i < |b| && b[i] == o;
        assert (a + b)[|a| + i] == o;
      }
    }
  }

  // ----- over any number of runs

  function AfterAll(companyId: Option<int>, runs: seq<Run>): State {
    if |runs| == 0 then State(None, map[], {})
    else After(companyId, AfterAll(companyId, runs[..|runs| - 1]), runs[|runs| - 1])
  }

  /** A scheduled run is answered with every order that is due: dated from the start asked for until the run began. */
  ghost predicate Honest(run: Run, query: Query, world: set<Order>) {
    run.overrides.None? ==>
      forall o :: o in world && o.date <= run.runAt && (query.start.None? || query.start.value <= o.date) ==>
        o in run.answer(query)
  }

  /** The query the n-th run sends. */
  function QueryOf(companyId: Option<int>, runs: seq<Run>, n: nat): Query
    requires n < |runs|
  {
    QueryFor(companyId, AfterAll(companyId, runs[..n]).lastSyncAt, runs[n].overrides)
  }

  ghost predicate AllHonest(companyId: Option<int>, runs: seq<Run>, world: set<Order>) {
    forall n :: 0 <= n < |runs| ==> Honest(runs[n], QueryOf(companyId, runs, n), world)
  }

  ghost predicate NoGap(s: State, world: set<Order>) {
    s.lastSyncAt.Some? ==> forall o :: o in world && o.date <= s.lastSyncAt.value ==> o in s.fetched
  }

  lemma RunKeepsNoGap(companyId: Option<int>, s: State, run: Run, world: set<Order>)
    requires NoGap(s, world) && Honest(run, QueryFor(companyId, s.lastSyncAt, run.overrides), world)
    ensures NoGap(After(companyId, s, run), world)
  {
    var all := AnswerTo(companyId, s.lastSyncAt, run);
    if run.overrides.None? && !Fails(all, run) {
      forall o | o in world && o.date <= run.runAt
        ensures o in After(companyId, s, run).fetched
      {
        if s.lastSyncAt.None? || FloorSecond(s.lastSyncAt.value) <= o.date {
          var i :| 0 <= i < |all| && all[i] == o;
          assert o in Elements(all);
        }
      }
    }
  }

  lemma PrefixHonest(companyId: Option<int>, runs: seq<Run>, world: set<Order>)
    requires |runs| > 0 && AllHonest(companyId, runs, world)
    ensures AllHonest(companyId, runs[..|runs| - 1], world)
    ensures Honest(runs[|runs| - 1], QueryOf(companyId, runs, |runs| - 1), world)
  {
    hide Honest, AfterAll;
    var before := runs[..|runs| - 1];
    forall n | 0 <= n < |before|
      ensures Honest(before[n], QueryOf(companyId, before, n), world)
    {
      assert before[..n] == runs[..n];
      assert Honest(runs[n], QueryOf(companyId, runs, n), world);
    }
  }

  /**
   No gap: over scheduled, failed and manual runs in any mix, every order dated up to the watermark has been fetched.
   */
  lemma {:induction false} WatermarkLeavesNoGap(companyId: Option<int>, runs: seq<Run>, world: set<Order>)
    requires AllHonest(companyId, runs, world)
    ensures NoGap(AfterAll(companyId, runs), world)
  {
    if |runs| == 0 {
    } else {
      hide After;
      PrefixHonest(companyId, runs, world);
      WatermarkLeavesNoGap(companyId, runs[..|runs| - 1], world);
      RunKeepsNoGap(companyId, AfterAll(companyId, runs[..|runs| - 1]), runs[|runs| - 1], world);
    }
  }

  // ----- fetched is not stored

  lemma {:induction false} WrittenExactlyWhen(
    stored: map<int, Order>, orders: seq<Order>, unwritable: set<int>, id: int)
    ensures id in Written(stored, orders, unwritable) <==>
      id in stored || (id !in unwritable && exists i :: 0 <= i < |orders| && orders[i].id == id)
  {
    if |orders| == 0 {
    } else {
      var before := orders[..|orders| - 1];
      WrittenExactlyWhen(stored, before, unwritable, id);
      assert forall i :: 0 <= i < |before| ==> orders[i] == before[i];
      if i :| 0 <= i < |orders| && orders[i].id == id && i < |before| {
        assert before[i].id == id;
      }
    }
  }

  /** The orders the n-th run receives. */
  function ReceivedIn(companyId: Option<int>, runs: seq<Run>, n: nat): seq<Order>
    requires n < |runs|
  {
    Received(AnswerTo(companyId, AfterAll(companyId, runs[..n]).lastSyncAt, runs[n]), runs[n])
  }

  /** The n-th run receives the order and can write it. */
  ghost predicate WritesIn(companyId: Option<int>, runs: seq<Run>, n: nat, id: int) {
    n < |runs| && id !in runs[n].unwritable
    && exists i :: 0 <= i < |ReceivedIn(companyId, runs, n)| && ReceivedIn(companyId, runs, n)[i].id == id
  }

  lemma WritesInPrefix(companyId: Option<int>, runs: seq<Run>, n: nat, id: int)
    requires |runs| > 0 && n < |runs| - 1
    ensures WritesIn(companyId, runs[..|runs| - 1], n, id) == WritesIn(companyId, runs, n, id)
  {
    var before := runs[..|runs| - 1];
    assert before[..n] == runs[..n] && before[n] == runs[n];
    assert ReceivedIn(companyId, before, n) == ReceivedIn(companyId, runs, n);
  }

  /** An order is in the table exactly if some run received it and could write it. */
  lemma {:induction false} StoredExactlyWhen(companyId: Option<int>, runs: seq<Run>, id: int)
    ensures id in AfterAll(companyId, runs).stored <==> exists n: nat :: WritesIn(companyId, runs, n, id)
  {
    if |runs| > 0 {
      hide WritesIn, Received, AnswerTo, Written;
      var before, last := runs[..|runs| - 1], |runs| - 1;
      StoredExactlyWhen(companyId, before, id);
      forall n: nat | n < last
        ensures WritesIn(companyId, before, n, id) == WritesIn(companyId, runs, n, id)
      {
        WritesInPrefix(companyId, runs, n, id);
      }
      LastRunWrites(companyId, runs, id);
      NoRunPastTheEnd(companyId, runs, id);
      NoRunPastTheEnd(companyId, before, id);
    } else {
      NoRunPastTheEnd(companyId, runs, id);
    }
  }

  lemma NoRunPastTheEnd(companyId: Option<int>, runs: seq<Run>, id: int)
    ensures forall n: nat :: WritesIn(companyId, runs, n, id) ==> n < |runs|
  {
  }

  lemma LastRunWrites(companyId: Option<int>, runs: seq<Run>, id: int)
    requires |runs| > 0
    ensures id in AfterAll(companyId, runs).stored <==>
      id in AfterAll(companyId, runs[..|runs| - 1]).stored || WritesIn(companyId, runs, |runs| - 1, id)
  {
    hide Received, AnswerTo, Written;
    var s := AfterAll(companyId, runs[..|runs| - 1]);
    WrittenExactlyWhen(s.stored, ReceivedIn(companyId, runs, |runs| - 1), runs[|runs| - 1].unwritable, id);
  }

  /**
   An order received by a scheduled run that could not write it: the watermark moves past it all the same, and a
   later scheduled run of an honest server need not bring it again.
   */
  lemma UnwrittenOrderIsPassed(o: Order, later: int)
    requires o.date >= 0 && later > o.date + 1000
    ensures
      var first := Run(o.date + 1000, None, q => [o], None, {o.id});
      var second := Run(later, None, q => [], None, {});
      var runs := [first, second];
      && AllHonest(None, runs, {o})
      && AfterAll(None, runs).lastSyncAt == Some(later)
      && o in AfterAll(None, runs).fetched
      && o.id !in AfterAll(None, runs).stored
  {
    var first := Run(o.date + 1000, None, q => [o], None, {o.id});
    var second := Run(later, None, q => [], None, {});
    var runs := [first, second];
    assert runs[..1] == [first] && [first][..0] == [] && runs[..0] == [];
    var s := After(None, State(None, map[], {}), first);
    assert AfterAll(None, [first]) == s;
    assert [o][..0] == [];
    assert Written(map[], [o], {o.id}) == map[];
    assert [o][0] == o;
    assert s.lastSyncAt == Some(o.date + 1000);
    assert FloorSecond(o.date + 1000) > o.date;
  }

  // ----- which version is stored

  /** The last order with this id. */
  ghost predicate IsLast(orders: seq<Order>, i: nat, id: int) {
    i < |orders| && orders[i].id == id && forall j :: i < j < |orders| ==> orders[j].id != id
  }

  lemma {:induction false} WrittenIsTheLast(
    stored: map<int, Order>, orders: seq<Order>, unwritable: set<int>, id: int, i: nat)
    requires IsLast(orders, i, id) && id !in unwritable
    ensures id in Written(stored, orders, unwritable) && Written(stored, orders, unwritable)[id] == orders[i]
  {
    if i == |orders| - 1 {
    } else {
      WrittenIsTheLast(stored, orders[..|orders| - 1], unwritable, id, i);
    }
  }

  lemma {:induction false} NotWrittenStays(stored: map<int, Order>, orders: seq<Order>, unwritable: set<int>, id: int)
    requires id in stored
    requires id in unwritable || forall i :: 0 <= i < |orders| ==> orders[i].id != id
    ensures id in Written(stored, orders, unwritable) && Written(stored, orders, unwritable)[id] == stored[id]
  {
    if |orders| == 0 {
    } else {
      NotWrittenStays(stored, orders[..|orders| - 1], unwritable, id);
    }
  }

  lemma {:induction false} SomeLast(orders: seq<Order>, id: int) returns (i: nat)
    requires exists j :: 0 <= j < |orders| && orders[j].id == id
    ensures IsLast(orders, i, id)
  {
    if orders[|orders| - 1].id == id {
      i := |orders| - 1;
    } else {
      var before := orders[..|orders| - 1];
      var j :| 0 <= j < |orders| && orders[j].id == id;
      assert before[j].id == id;
      i := SomeLast(before, id);
    }
  }

  ghost predicate LastToWrite(companyId: Option<int>, runs: seq<Run>, n: nat, id: int) {
    WritesIn(companyId, runs, n, id) && forall m: nat :: n < m ==> !WritesIn(companyId, runs, m, id)
  }

  /** Over any number of runs: what is stored under an id is the last version the last run to write it received. */
  lemma {:induction false} StoredIsTheLatest(companyId: Option<int>, runs: seq<Run>, id: int, n: nat)
    requires LastToWrite(companyId, runs, n, id)
    ensures id in AfterAll(companyId, runs).stored
    ensures exists i: nat :: IsLast(ReceivedIn(companyId, runs, n), i, id)
              && AfterAll(companyId, runs).stored[id] == ReceivedIn(companyId, runs, n)[i]
  {
    hide Received, AnswerTo, Written;
    var before, last := runs[..|runs| - 1], |runs| - 1;
    var s := AfterAll(companyId, before);
    var received := ReceivedIn(companyId, runs, last);
    assert AfterAll(companyId, runs).stored == Written(s.stored, received, runs[last].unwritable);
    if n == last {
      var i := SomeLast(received, id);
      WrittenIsTheLast(s.stored, received, runs[last].unwritable, id, i);
    } else {
      forall m: nat | m < last
        ensures WritesIn(companyId, before, m, id) == WritesIn(companyId, runs, m, id)
      {
        WritesInPrefix(companyId, runs, m, id);
      }
      NoRunPastTheEnd(companyId, before, id);
      StoredIsTheLatest(companyId, before, id, n);
      assert before[..n] == runs[..n] && before[n] == runs[n];
      assert !WritesIn(companyId, runs, last, id);
      NotWrittenStays(s.stored, received, runs[last].unwritable, id);
    }
  }
}
