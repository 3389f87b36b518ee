/** Pulling every order of a date window out of an Odoo endpoint, page by page. */
module Paging {
  import opened Wrappers

  /** Only numeric ids take part in the duplicate checks. */
  datatype OrderId = Number(n: int) | Other(text: string)

  datatype Order = Order(id: OrderId, body: string)

  datatype Response = Response(orders: seq<Order>, total: Option<nat>)

  /**
   An endpoint either honours `offset`, or returns the head of the result set whatever the offset, at most `maxLimit`
   records at a time. Either kind may or may not advertise the size of the result set.
   */
  datatype Server =
    | HonoursOffset(advertises: bool)
    | IgnoresOffset(advertises: bool, maxLimit: nat)

  function Least(a: nat, b: nat): nat {
    if a < b then a else b
  }

  function Respond(server: Server, data: seq<Order>, offset: nat, limit: nat): Response {
    var total := if server.advertises then Some(|data|) else None;
    match server
    case HonoursOffset(_) =>
      var start := Least(offset, |data|);
      Response(data[start..Least(start + limit, |data|)], total)
    case IgnoresOffset(_, maxLimit) =>
      Response(data[..Least(Least(limit, maxLimit), |data|)], total)
  }

  function NumericIds(orders: seq<Order>): seq<int> {
    if orders == [] then []
    else (if orders[0].id.Number? then [orders[0].id.n] else []) + NumericIds(orders[1..])
  }

  function CountSeen(ids: seq<int>, seen: set<int>): nat {
    if ids == [] then 0 else (if ids[0] in seen then 1 else 0) + CountSeen(ids[1..], seen)
  }

  function Elements(ids: seq<int>): set<int> {
    set id | id in ids
  }

  /** The orders whose id is not a number, or a number not in `seen`. */
  function Unseen(orders: seq<Order>, seen: set<int>): seq<Order> {
    if orders == [] then []
    else (if orders[0].id.Number? && orders[0].id.n in seen then [] else [orders[0]]) + Unseen(orders[1..], seen)
  }

  ghost predicate DistinctNumericIds(data: seq<Order>) {
    && (forall i :: 0 <= i < |data| ==> data[i].id.Number?)
    && (forall i, j :: 0 <= i < j < |data| ==> data[i].id != data[j].id)
  }

  /** How many leading records reach the caller. */
  function Reach(server: Server, size: nat, pageSize: nat): nat {
    match server
    case HonoursOffset(_) => size
    case IgnoresOffset(advertises, maxLimit) =>
      if advertises then Least(size, maxLimit) else Least(size, Least(pageSize, maxLimit))
  }

  lemma NumericIdsAre(orders: seq<Order>)
    requires forall i :: 0 <= i < |orders| ==> orders[i].id.Number?
    ensures |NumericIds(orders)| == |orders|
    ensures forall i :: 0 <= i < |orders| ==> NumericIds(orders)[i] == orders[i].id.n
  {
    if orders == [] {
    } else {
      NumericIdsAre(orders[1..]);
    }
  }

  lemma CountSeenRange(ids: seq<int>, seen: set<int>)
    ensures CountSeen(ids, seen) <= |ids|
    ensures CountSeen(ids, seen) == |ids| <==> forall i :: 0 <= i < |ids| ==> ids[i] in seen
  {
    if ids == [] {
    } else {
      CountSeenRange(ids[1..], seen);
      assert ids == [ids[0]] + ids[1..];
    }
  }

  /** A page is taken for a repeat of the previous one exactly if all its ids were on it. */
  lemma RepeatMeansAllSeen(data: seq<Order>, from: nat, to: nat, page: seq<Order>)
    requires DistinctNumericIds(data) && from <= to <= |data|
    requires forall i :: 0 <= i < |page| ==> page[i].id.Number?
    ensures
      var ids := NumericIds(page);
      var seen := Elements(NumericIds(data[from..to]));
      CountSeen(ids, seen) == |ids| <==>
        forall i :: 0 <= i < |page| ==> exists j :: from <= j < to && data[j].id == page[i].id
  {
    var ids := NumericIds(page);
    var part := data[from..to];
    var seen := Elements(NumericIds(part));
    NumericIdsAre(page);
    NumericIdsAre(part);
    CountSeenRange(ids, seen);
    forall i | 0 <= i < |page|
      ensures ids[i] in seen <==> exists j :: from <= j < to && data[j].id == page[i].id
    {
      if ids[i] in seen {
        var k :| 0 <= k < |part| && NumericIds(part)[k] == ids[i];
        assert data[from + k].id == page[i].id;
      }
      if j :| from <= j < to && data[j].id == page[i].id {
        assert NumericIds(part)[j - from] == ids[i];
      }
    }
  }

  lemma {:induction false} UnseenSplits(xs: seq<Order>, ys: seq<Order>, seen: set<int>)
    ensures Unseen(xs + ys, seen) == Unseen(xs, seen) + Unseen(ys, seen)
  {
    if xs == [] {
      assert xs + ys == ys;
    } else {
      var head := if xs[0].id.Number? && xs[0].id.n in seen then [] else [xs[0]];
      assert (xs + ys)[1..] == xs[1..] + ys;
      assert Unseen(xs + ys, seen) == head + Unseen(xs[1..] + ys, seen);
      UnseenSplits(xs[1..], ys, seen);
    }
  }

  lemma UnseenOfUniform(orders: seq<Order>, seen: set<int>)
    requires forall i :: 0 <= i < |orders| ==> orders[i].id.Number?
    ensures (forall i :: 0 <= i < |orders| ==> orders[i].id.n in seen) ==> Unseen(orders, seen) == []
    ensures (forall i :: 0 <= i < |orders| ==> orders[i].id.n !in seen) ==> Unseen(orders, seen) == orders
  {
    if orders == [] {
    } else {
      UnseenOfUniform(orders[1..], seen);
    }
  }

  /** Dropping what is already known from a longer head of the data leaves the rest of that head, in order. */
  lemma UnseenIsTheRest(data: seq<Order>, known: nat, end: nat)
    requires DistinctNumericIds(data) && known <= end <= |data|
    ensures Unseen(data[..end], Elements(NumericIds(data[..known]))) == data[known..end]
  {
    var seen := Elements(NumericIds(data[..known]));
    NumericIdsAre(data[..known]);
    assert data[..end] == data[..known] + data[known..end];
    UnseenSplits(data[..known], data[known..end], seen);
    forall i | 0 <= i < known
      ensures data[i].id.n in seen
    {
      assert NumericIds(data[..known])[i] == data[i].id.n;
    }
    UnseenOfUniform(data[..known], seen);
    forall i | known <= i < end
      ensures data[i].id.n !in seen
    {
      forall k | 0 <= k < known
        ensures NumericIds(data[..known])[k] != data[i].id.n
      {
        assert data[k].id != data[i].id;
      }
    }
    UnseenOfUniform(data[known..end], seen);
  }

  lemma NewPageIsNoRepeat(data: seq<Order>, from: nat, to: nat, end: nat)
    requires DistinctNumericIds(data) && from <= to < end <= |data|
    ensures
      var ids := NumericIds(data[to..end]);
      CountSeen(ids, Elements(NumericIds(data[from..to]))) < |ids|
  {
    var page := data[to..end];
    NumericIdsAre(page);
    RepeatMeansAllSeen(data, from, to, page);
    CountSeenRange(NumericIds(page), Elements(NumericIds(data[from..to])));
    assert page[0].id == data[to].id;
  }

  lemma SamePageIsARepeat(page: seq<Order>)
    ensures CountSeen(NumericIds(page), Elements(NumericIds(page))) == |NumericIds(page)|
  {
    CountSeenRange(NumericIds(page), Elements(NumericIds(page)));
  }

  lemma PageHasIds(data: seq<Order>, from: nat, to: nat)
    requires DistinctNumericIds(data) && from < to <= |data|
    ensures Elements(NumericIds(data[from..to])) != {}
  {
    NumericIdsAre(data[from..to]);
    assert NumericIds(data[from..to])[0] in Elements(NumericIds(data[from..to]));
  }

  /** The loop variables at the head of the loop, against an endpoint that honours `offset`. */
  ghost predicate Walking(
    data: seq<Order>, pageSize: nat, allOrders: seq<Order>, seen: set<int>, page: seq<Order>, offset: nat)
  {
    && offset <= |data|
    && allOrders == data[..offset]
    && page == data[offset..Least(offset + pageSize, |data|)]
    && (if offset == 0 then seen == {}
        else pageSize <= offset && seen == Elements(NumericIds(data[offset - pageSize..offset])))
  }

  /** The same against one that ignores `offset`: `offset` 0 is the first round, and there is at most one more. */
  ghost predicate Stuck(
    server: Server, data: seq<Order>, pageSize: nat, allOrders: seq<Order>, seen: set<int>, page: seq<Order>,
    offset: nat)
    requires server.IgnoresOffset?
  {
    && page == data[..Least(Least(pageSize, server.maxLimit), |data|)]
    && (if offset == 0 then allOrders == [] && seen == {}
        else
          && allOrders == page != []
          && seen == Elements(NumericIds(page))
          && (if server.advertises then |page| < |data| else |page| == pageSize))
  }

  function ExpectMore(total: Option<nat>, fetched: nat, page: nat, pageSize: nat): bool {
    if total.Some? then fetched < total.value else page >= pageSize
  }

  lemma WalkingRound(
    server: Server, data: seq<Order>, pageSize: nat, allOrders: seq<Order>, seen: set<int>, page: seq<Order>,
    offset: nat)
    requires DistinctNumericIds(data) && pageSize > 0 && server.HonoursOffset?
    requires Walking(data, pageSize, allOrders, seen, page, offset)
    ensures offset > 0 ==> seen != {}
    ensures offset > 0 && |page| > 0 ==> CountSeen(NumericIds(page), seen) != |NumericIds(page)|
    ensures
      var next := Respond(server, data, offset + pageSize, pageSize).orders;
      if ExpectMore(Respond(server, data, 0, pageSize).total, |allOrders| + |page|, |page|, pageSize)
      then Walking(data, pageSize, allOrders + page, Elements(NumericIds(page)), next, offset + pageSize) && page != []
      else allOrders + page == data
  {
    hide CountSeen, NumericIds, Elements, DistinctNumericIds;
    if offset > 0 {
      PageHasIds(data, offset - pageSize, offset);
      if |page| > 0 {
        NewPageIsNoRepeat(data, offset - pageSize, offset, Least(offset + pageSize, |data|));
      }
    }
    assert allOrders + page == data[..Least(offset + pageSize, |data|)];
  }

  lemma StuckRound(
    server: Server, data: seq<Order>, pageSize: nat, allOrders: seq<Order>, seen: set<int>, page: seq<Order>,
    offset: nat)
    requires DistinctNumericIds(data) && pageSize > 0 && server.IgnoresOffset? && server.maxLimit > 0
    requires Stuck(server, data, pageSize, allOrders, seen, page, offset)
    ensures offset > 0 ==>
      && seen != {} && CountSeen(NumericIds(page), seen) == |NumericIds(page)|
      && var full := Respond(server, data, 0, |data|).orders;
         var rest := if server.advertises then Unseen(full, Elements(NumericIds(allOrders))) else [];
         allOrders + rest == data[..Reach(server, |data|, pageSize)]
    ensures offset == 0 ==>
      if ExpectMore(Respond(server, data, 0, pageSize).total, |page|, |page|, pageSize)
      then page != [] && Stuck(server, data, pageSize, page, Elements(NumericIds(page)), page, pageSize)
      else page == data[..Reach(server, |data|, pageSize)]
  {
    if offset > 0 {
      assert page == data[0..|page|];
      PageHasIds(data, 0, |page|);
      SamePageIsARepeat(page);
      if server.advertises {
        var full := Respond(server, data, 0, |data|).orders;
        UnseenIsTheRest(data, |page|, |full|);
      }
    }
  }

  /** The loop variables at the head of the loop. */
  datatype Loop = Loop(allOrders: seq<Order>, seen: set<int>, page: seq<Order>, offset: nat)

  datatype Round = Finished(orders: seq<Order>) | Another(loop: Loop)

  /** One round: a repeated page ends the walk, with a full refetch when more is known to exist. */
  function NextRound(server: Server, data: seq<Order>, pageSize: nat, l: Loop): Round {
    var total := Respond(server, data, 0, pageSize).total;
    var ids := NumericIds(l.page);
    var comparable := l.seen != {} && |l.page| > 0;
    if comparable && CountSeen(ids, l.seen) == |ids| then
      if total.Some? && total.value > |l.allOrders| then
        Finished(l.allOrders
                 + Unseen(Respond(server, data, 0, total.value).orders, Elements(NumericIds(l.allOrders))))
      else Finished(l.allOrders)
    else if ExpectMore(total, |l.allOrders| + |l.page|, |l.page|, pageSize) then
      Another(Loop(l.allOrders + l.page, if comparable then Elements(ids) else l.seen + Elements(ids),
                   Respond(server, data, l.offset + pageSize, pageSize).orders, l.offset + pageSize))
    else Finished(l.allOrders + l.page)
  }

  /** What the loop delivers from `l` on, if it ends within `rounds` rounds. */
  function Deliver(server: Server, data: seq<Order>, pageSize: nat, l: Loop, rounds: nat): Option<seq<Order>>
    decreases rounds
  {
    if rounds == 0 then None
    else
      match NextRound(server, data, pageSize, l)
      case Finished(orders) => Some(orders)
      case Another(next) => Deliver(server, data, pageSize, next, rounds - 1)
  }

  function Start(server: Server, data: seq<Order>, pageSize: nat): Loop {
    Loop([], {}, Respond(server, data, 0, pageSize).orders, 0)
  }

  ghost predicate AtHead(server: Server, data: seq<Order>, pageSize: nat, l: Loop) {
    if server.HonoursOffset? then Walking(data, pageSize, l.allOrders, l.seen, l.page, l.offset)
    else Stuck(server, data, pageSize, l.allOrders, l.seen, l.page, l.offset)
  }

  ghost predicate Supported(server: Server, data: seq<Order>, pageSize: nat) {
    DistinctNumericIds(data) && pageSize > 0 && (server.IgnoresOffset? ==> server.maxLimit > 0)
  }

  lemma SeenAfterFirst(seen: set<int>, ids: seq<int>)
    ensures seen == {} ==> seen + Elements(ids) == Elements(ids)
  {
  }

  lemma WalkingAdvances(server: Server, data: seq<Order>, pageSize: nat, l: Loop)
    requires Supported(server, data, pageSize) && AtHead(server, data, pageSize, l) && server.HonoursOffset?
    ensures
      match NextRound(server, data, pageSize, l)
      case Finished(orders) => orders == data
      case Another(next) => AtHead(server, data, pageSize, next) && |l.allOrders| < |next.allOrders|
  {
    hide CountSeen, NumericIds, Unseen, Elements, DistinctNumericIds, Least;
    SeenAfterFirst(l.seen, NumericIds(l.page));
    WalkingRound(server, data, pageSize, l.allOrders, l.seen, l.page, l.offset);
  }

  lemma StuckAdvances(server: Server, data: seq<Order>, pageSize: nat, l: Loop)
    requires Supported(server, data, pageSize) && AtHead(server, data, pageSize, l) && server.IgnoresOffset?
    ensures
      match NextRound(server, data, pageSize, l)
      case Finished(orders) => orders == data[..Reach(server, |data|, pageSize)]
      case Another(next) => AtHead(server, data, pageSize, next) && |l.allOrders| < |next.allOrders|
  {
    hide CountSeen, NumericIds, Unseen, Elements, DistinctNumericIds, Least;
    SeenAfterFirst(l.seen, NumericIds(l.page));
    StuckRound(server, data, pageSize, l.allOrders, l.seen, l.page, l.offset);
    if l.offset == 0 {
      assert l.allOrders + l.page == l.page;
    } else {
      assert l.allOrders + [] == l.allOrders;
    }
  }

  lemma HeadIsWithinData(server: Server, data: seq<Order>, pageSize: nat, l: Loop)
    requires AtHead(server, data, pageSize, l)
    ensures |l.allOrders| <= |data|
  {
  }

  lemma {:induction false} EveryRoundAdvances(server: Server, data: seq<Order>, pageSize: nat, l: Loop, rounds: nat)
    requires Supported(server, data, pageSize) && AtHead(server, data, pageSize, l)
    requires rounds + |l.allOrders| > |data| && rounds > 0
    ensures Deliver(server, data, pageSize, l, rounds) == Some(data[..Reach(server, |data|, pageSize)])
    decreases rounds
  {
    assert data[..|data|] == data;
    HeadIsWithinData(server, data, pageSize, l);
    if server.HonoursOffset? {
      WalkingAdvances(server, data, pageSize, l);
    } else {
      StuckAdvances(server, data, pageSize, l);
    }
    match NextRound(server, data, pageSize, l)
    case Finished(_) =>
    case Another(next) =>
      HeadIsWithinData(server, data, pageSize, next);
      EveryRoundAdvances(server, data, pageSize, next, rounds - 1);
  }

  /** The most records one page can hold. */
  function PageRoom(server: Server, pageSize: nat): nat {
    match server
    case HonoursOffset(_) => pageSize
    case IgnoresOffset(_, maxLimit) => Least(pageSize, maxLimit)
  }

  /** Pages can hold records, or the loop learns from the first one that there is nothing to wait for. */
  predicate CanEnd(server: Server, data: seq<Order>, pageSize: nat) {
    PageRoom(server, pageSize) > 0 || !ExpectMore(Respond(server, data, 0, pageSize).total, 0, 0, pageSize)
  }

  lemma EmptyPages(server: Server, data: seq<Order>, pageSize: nat, offset: nat)
    requires PageRoom(server, pageSize) == 0
    ensures Respond(server, data, offset, pageSize).orders == []
  {
  }

  /** When no page can hold a record, every round leaves the loop where it was, but for the offset. */
  lemma {:induction false} EmptyPagesNeverEnd(server: Server, data: seq<Order>, pageSize: nat, offset: nat, rounds: nat)
    requires !CanEnd(server, data, pageSize)
    ensures Deliver(server, data, pageSize, Loop([], {}, [], offset), rounds) == None
    decreases rounds
  {
    if rounds == 0 {
    } else {
      assert Elements([]) == {};
      EmptyPages(server, data, pageSize, offset + pageSize);
      assert NextRound(server, data, pageSize, Loop([], {}, [], offset))
          == Another(Loop([], {}, [], offset + pageSize));
      EmptyPagesNeverEnd(server, data, pageSize, offset + pageSize, rounds - 1);
    }
  }

  /**
   The loop ends within |data| + 1 rounds. All of the data arrives, each order once and in order, unless the endpoint
   ignores `offset` and either hides the total or refuses a limit that large; then exactly the head given by `Reach`
   arrives.
   */
  lemma LoopDeliversTheReach(server: Server, data: seq<Order>, pageSize: nat)
    requires DistinctNumericIds(data) && CanEnd(server, data, pageSize)
    ensures Deliver(server, data, pageSize, Start(server, data, pageSize), |data| + 1)
         == Some(data[..Reach(server, |data|, pageSize)])
  {
    if PageRoom(server, pageSize) > 0 {
      EveryRoundAdvances(server, data, pageSize, Start(server, data, pageSize), |data| + 1);
    } else {
      EmptyPages(server, data, pageSize, 0);
      assert NextRound(server, data, pageSize, Start(server, data, pageSize)) == Finished([]);
    }
  }

  lemma EverythingArrivesExactlyWhen(server: Server, data: seq<Order>, pageSize: nat)
    requires DistinctNumericIds(data) && CanEnd(server, data, pageSize)
    ensures Deliver(server, data, pageSize, Start(server, data, pageSize), |data| + 1) == Some(data) <==>
      || server.HonoursOffset?
      || (|data| <= server.maxLimit && (server.advertises || |data| <= pageSize))
  {
    LoopDeliversTheReach(server, data, pageSize);
    var reach := Reach(server, |data|, pageSize);
    if reach == |data| {
      assert data[..reach] == data;
    } else {
      assert |data[..reach]| != |data|;
    }
  }

  ghost predicate Ends(server: Server, data: seq<Order>, pageSize: nat) {
    exists rounds: nat :: Deliver(server, data, pageSize, Start(server, data, pageSize), rounds).Some?
  }

  /**
   The loop ends exactly if a page can hold a record, or the endpoint advertises that there is none, or it advertises
   nothing and an empty page is shorter than asked for.
   */
  lemma EndsExactlyWhen(server: Server, data: seq<Order>, pageSize: nat)
    requires DistinctNumericIds(data)
    ensures Ends(server, data, pageSize) <==>
      || PageRoom(server, pageSize) > 0
      || if server.advertises then data == [] else pageSize > 0
  {
    hide Deliver, DistinctNumericIds;
    if CanEnd(server, data, pageSize) {
      LoopDeliversTheReach(server, data, pageSize);
      var rounds: nat := |data| + 1;
      assert Deliver(server, data, pageSize, Start(server, data, pageSize), rounds).Some?;
    } else {
      EmptyPages(server, data, pageSize, 0);
      forall rounds: nat
        ensures Deliver(server, data, pageSize, Start(server, data, pageSize), rounds) == None
      {
        EmptyPagesNeverEnd(server, data, pageSize, 0, rounds);
      }
    }
  }

  lemma DeliverInRounds(
    server: Server, data: seq<Order>, pageSize: nat, l: Loop, rounds: nat, goal: seq<Order>)
    requires Deliver(server, data, pageSize, l, rounds) == Some(goal)
    ensures rounds > 0
    ensures
      match NextRound(server, data, pageSize, l)
      case Finished(orders) => orders == goal
      case Another(next) => Deliver(server, data, pageSize, next, rounds - 1) == Some(goal)
  {
  }

  /** The pagination loop. */
  method PullAll(server: Server, data: seq<Order>, pageSize: nat) returns (allOrders: seq<Order>)
    requires DistinctNumericIds(data) && CanEnd(server, data, pageSize)
    ensures Some(allOrders) == Deliver(server, data, pageSize, Start(server, data, pageSize), |data| + 1)
    ensures allOrders == data[..Reach(server, |data|, pageSize)]
  {
    hide CountSeen, NumericIds, Unseen, Deliver, Elements;
    LoopDeliversTheReach(server, data, pageSize);
    ghost var goal := data[..Reach(server, |data|, pageSize)];
    var first := Respond(server, data, 0, pageSize);
    var totalExpected := first.total;
    allOrders := [];
    var prevPageIds: set<int> := {};
    var currentPage := first.orders;
    var currentOffset: nat, nextOffset: nat := 0, pageSize;
    ghost var rounds: nat := |data| + 1;

    while true
      invariant nextOffset == currentOffset + pageSize
      invariant Deliver(server, data, pageSize, Loop(allOrders, prevPageIds, currentPage, currentOffset), rounds)
             == Some(goal)
      decreases rounds
    {
      DeliverInRounds(
        server, data, pageSize, Loop(allOrders, prevPageIds, currentPage, currentOffset), rounds, goal);
      var currentIds := NumericIds(currentPage);
      var comparable := prevPageIds != {} && |currentPage| > 0;
      if comparable && CountSeen(currentIds, prevPageIds) == |currentIds| {
        if totalExpected.Some? && totalExpected.value > |allOrders| {
          var full := Respond(server, data, 0, totalExpected.value);
          var remaining := Unseen(full.orders, Elements(NumericIds(allOrders)));
          allOrders := allOrders + remaining;
        }
        break;
      }
      prevPageIds := if comparable then Elements(currentIds) else prevPageIds + Elements(currentIds);

      var fetchedAfterThisPage := |allOrders| + |currentPage|;
      var expectMore := ExpectMore(totalExpected, fetchedAfterThisPage, |currentPage|, pageSize);
      allOrders := allOrders + currentPage;
      if !expectMore {
        break;
      }
      currentPage := Respond(server, data, nextOffset, pageSize).orders;
      currentOffset := nextOffset;
      nextOffset := nextOffset + pageSize;
      rounds := rounds - 1;
    }
  }
}
