/**
 The per-order path as it is run for a batch: a limited number of lanes, each taking the next order and upserting it in
 separate steps: look the order up, write its header, replace its lines, replace its payments. The database serves the
 lanes in any order; a second insert under one order id is refused by the unique index, and that order is skipped.
 */
module PerOrderRaces {
  import opened Wrappers
  import opened BulkUpsert

  /** How far the upsert of one order has come. */
  datatype Task =
    | Waiting
    | Started
    | Seen(found: Option<nat>)
    | Saved(parent: nat)
    | Lined(parent: nat)
    | Done(ok: bool)
  {
    predicate Running() {
      !Waiting? && !Done?
    }

    predicate WroteHeader() {
      Saved? || Lined? || (Done? && ok)
    }

    predicate Wrote(k: Kind) {
      (Lined? && k == Lines) || (Done? && ok)
    }
  }

  datatype Fallback = Fallback(db: Db, tasks: seq<Task>)

  function CountRunning(tasks: seq<Task>): nat {
    if |tasks| == 0 then 0
    else CountRunning(tasks[..|tasks| - 1]) + if tasks[|tasks| - 1].Running() then 1 else 0
  }

  /** Orders are taken in turn, while fewer than `lanes` upserts are running. */
  predicate Enabled(s: Fallback, lanes: nat, i: nat) {
    && i < |s.tasks|
    && !s.tasks[i].Done?
    && (s.tasks[i].Waiting? ==> CountRunning(s.tasks) < lanes && forall j :: 0 <= j < i ==> !s.tasks[j].Waiting?)
  }

  function LookUp(db: Db, id: int): Option<nat> {
    if id in db.orders then Some(db.orders[id].id) else None
  }

  function WithChildren(db: Db, o: Order, parent: nat, k: Kind): Db {
    match k
    case Lines => db.(lines := ReplaceChildren(db.lines, o.id, parent, o.lines))
    case Payments => db.(payments := ReplaceChildren(db.payments, o.id, parent, o.payments))
  }

  /** The next step of the upsert of order `i`. */
  function Step(s: Fallback, batch: seq<Order>, i: nat): Fallback
    requires i < |s.tasks| == |batch|
  {
    var o, db := batch[i], s.db;
    match s.tasks[i]
    case Waiting => s.(tasks := s.tasks[i := Started])
    case Started => s.(tasks := s.tasks[i := Seen(LookUp(db, o.id))])
    case Seen(None) =>
      if o.id in db.orders then s.(tasks := s.tasks[i := Done(false)])
      else
        Fallback(db.(orders := db.orders[o.id := Header(db.nextId, o.columns)], nextId := db.nextId + 1),
                 s.tasks[i := Saved(db.nextId)])
    case Seen(Some(id)) =>
      Fallback(db.(orders := db.orders[o.id := Header(id, o.columns)]), s.tasks[i := Saved(id)])
    case Saved(id) => Fallback(WithChildren(db, o, id, Lines), s.tasks[i := Lined(id)])
    case Lined(id) => Fallback(WithChildren(db, o, id, Payments), s.tasks[i := Done(true)])
    case Done(_) => s
  }

  function Begin(db: Db, batch: seq<Order>): Fallback {
    Fallback(db, seq(|batch|, _ => Waiting))
  }

  /** The tables and tasks after the database served the lanes in this order. */
  function Play(db: Db, batch: seq<Order>, lanes: nat, es: seq<nat>): (s: Fallback)
    ensures |s.tasks| == |batch|
  {
    if |es| == 0 then Begin(db, batch)
    else
      var s := Play(db, batch, lanes, es[..|es| - 1]);
      if Enabled(s, lanes, es[|es| - 1]) then Step(s, batch, es[|es| - 1]) else s
  }

  ghost predicate Schedule(db: Db, batch: seq<Order>, lanes: nat, es: seq<nat>) {
    |es| == 0 ||
    (var before := es[..|es| - 1];
     Schedule(db, batch, lanes, before) && Enabled(Play(db, batch, lanes, before), lanes, es[|es| - 1]))
  }

  ghost predicate Settled(s: Fallback) {
    forall i :: 0 <= i < |s.tasks| ==> s.tasks[i].Done?
  }

  /** Some interleaving of the fallback over the batch ends with these tables. */
  ghost predicate CanEndAs(db: Db, batch: seq<Order>, lanes: nat, after: Db) {
    exists es :: EndsAs(db, batch, lanes, es, after)
  }

  ghost predicate EndsAs(db: Db, batch: seq<Order>, lanes: nat, es: seq<nat>, after: Db) {
    var s := Play(db, batch, lanes, es);
    Schedule(db, batch, lanes, es) && Settled(s) && s.db == after
  }

  // ----- what every interleaving keeps

  predicate TaskFits(db: Db, now: Db, o: Order, t: Task) {
    match t
    case Waiting => true
    case Started => true
    case Seen(Some(id)) => LookUp(now, o.id) == Some(id)
    case Seen(None) => o.id !in db.orders
    case Saved(id) => LookUp(now, o.id) == Some(id)
    case Lined(id) => LookUp(now, o.id) == Some(id)
    case Done(ok) => o.id in now.orders && (!ok ==> o.id !in db.orders)
  }

  /** Order `i` of the batch has this id and has written its header. */
  predicate HeaderBy(batch: seq<Order>, tasks: seq<Task>, i: int, id: int) {
    0 <= i < |batch| && i < |tasks| && batch[i].id == id && tasks[i].WroteHeader()
  }

  predicate ChildrenBy(batch: seq<Order>, tasks: seq<Task>, i: int, id: int, k: Kind) {
    0 <= i < |batch| && i < |tasks| && batch[i].id == id && tasks[i].Wrote(k) && Embedded(batch[i], k) != []
  }

  predicate HeadedAs(batch: seq<Order>, now: Db, i: int, id: int) {
    0 <= i < |batch| && id in now.orders && now.orders[id].columns == batch[i].columns
  }

  predicate WroteAs(batch: seq<Order>, now: Db, i: int, id: int, k: Kind) {
    0 <= i < |batch| && DataOf(Table(now, k), id) == Embedded(batch[i], k)
  }

  /** A header is as it was and none of its orders has written it, or one of them wrote it as it is. */
  ghost predicate HeaderFrom(db: Db, batch: seq<Order>, s: Fallback, id: int)
    requires id in s.db.orders
  {
    || (id in db.orders && s.db.orders[id].columns == db.orders[id].columns
        && forall i :: !HeaderBy(batch, s.tasks, i, id))
    || exists i :: HeaderBy(batch, s.tasks, i, id) && HeadedAs(batch, s.db, i, id)
  }

  ghost predicate ChildrenFrom(db: Db, batch: seq<Order>, s: Fallback, k: Kind, id: int) {
    || (DataOf(Table(s.db, k), id) == DataOf(Table(db, k), id) && forall i :: !ChildrenBy(batch, s.tasks, i, id, k))
    || exists i :: ChildrenBy(batch, s.tasks, i, id, k) && WroteAs(batch, s.db, i, id, k)
  }

  /** No header is lost, new ones are the batch's, and ids stay. */
  ghost predicate Grown(db: Db, batch: seq<Order>, now: Db) {
    && Linked(now) && db.nextId <= now.nextId
    && db.orders.Keys <= now.orders.Keys <= db.orders.Keys + Ids(batch)
    && forall id :: id in now.orders ==>
      if id in db.orders then now.orders[id].id == db.orders[id].id else now.orders[id].id >= db.nextId
  }

  ghost predicate TasksFit(db: Db, batch: seq<Order>, s: Fallback) {
    |s.tasks| == |batch| && forall i :: 0 <= i < |batch| ==> TaskFits(db, s.db, batch[i], s.tasks[i])
  }

  ghost predicate Inv(db: Db, batch: seq<Order>, s: Fallback) {
    && Grown(db, batch, s.db)
    && TasksFit(db, batch, s)
    && (forall id :: id in s.db.orders ==> HeaderFrom(db, batch, s, id))
    && (forall k, id :: ChildrenFrom(db, batch, s, k, id))
  }

  lemma BeginKeepsInv(db: Db, batch: seq<Order>)
    requires Linked(db)
    ensures Inv(db, batch, Begin(db, batch))
  {
  }

  /** A step that writes nothing: start, look up, or be refused. */
  lemma MovingKeepsInv(db: Db, batch: seq<Order>, s: Fallback, i: nat, t: Task)
    requires Inv(db, batch, s) && i < |batch|
    requires !s.tasks[i].WroteHeader() && !t.WroteHeader() && TaskFits(db, s.db, batch[i], t)
    requires forall k :: !s.tasks[i].Wrote(k) && !t.Wrote(k)
    ensures Inv(db, batch, s.(tasks := s.tasks[i := t]))
  {
    hide Grown, TaskFits, DataOf;
    var u := s.(tasks := s.tasks[i := t]);
    forall j, id
      ensures HeaderBy(batch, u.tasks, j, id) == HeaderBy(batch, s.tasks, j, id)
    {
    }
    forall j, id, k
      ensures ChildrenBy(batch, u.tasks, j, id, k) == ChildrenBy(batch, s.tasks, j, id, k)
    {
    }
    forall id | id in u.db.orders
      ensures HeaderFrom(db, batch, u, id)
    {
      assert HeaderFrom(db, batch, s, id);
    }
    forall k, id
      ensures ChildrenFrom(db, batch, u, k, id)
    {
      assert ChildrenFrom(db, batch, s, k, id);
    }
  }

  /** The header of order `i` is written under the id its row has or gets. */
  function WithHeader(now: Db, o: Order, id: nat): Db {
    now.(orders := now.orders[o.id := Header(id, o.columns)],
         nextId := if o.id in now.orders then now.nextId else now.nextId + 1)
  }

  lemma HeaderKeepsLinked(now: Db, o: Order, id: nat)
    requires Linked(now) && (LookUp(now, o.id) == Some(id) || (o.id !in now.orders && id == now.nextId))
    ensures Linked(WithHeader(now, o, id))
  {
    hide PointInto, IdsBelow, IdsDiffer;
    var h := Header(id, o.columns);
    HeaderKeepsPointing(now.lines, now.orders, o.id, h);
    HeaderKeepsPointing(now.payments, now.orders, o.id, h);
    HeaderKeepsIds(now.orders, now.nextId, o.id, h);
  }

  lemma HeaderKeepsPointing(rows: seq<Child>, headers: map<int, Header>, orderId: int, h: Header)
    requires PointInto(rows, headers) && (orderId in headers ==> headers[orderId].id == h.id)
    ensures PointInto(rows, headers[orderId := h])
  {
  }

  lemma HeaderKeepsIds(headers: map<int, Header>, n: nat, orderId: int, h: Header)
    requires IdsBelow(headers, n) && IdsDiffer(headers)
    requires if orderId in headers then headers[orderId].id == h.id else h.id == n
    ensures IdsBelow(headers[orderId := h], if orderId in headers then n else n + 1)
    ensures IdsDiffer(headers[orderId := h])
  {
  }

  lemma HeaderKeepsGrown(db: Db, batch: seq<Order>, now: Db, i: nat, id: nat)
    requires Grown(db, batch, now) && i < |batch|
    requires LookUp(now, batch[i].id) == Some(id) || (batch[i].id !in now.orders && id == now.nextId)
    ensures Grown(db, batch, WithHeader(now, batch[i], id))
  {
    hide Linked;
    HeaderKeepsLinked(now, batch[i], id);
    assert batch[i].id in Ids(batch);
  }

  lemma SavingKeepsTasks(db: Db, batch: seq<Order>, s: Fallback, i: nat, id: nat)
    requires TasksFit(db, batch, s) && i < |batch| && s.tasks[i].Seen?
    requires LookUp(s.db, batch[i].id) == Some(id) || (batch[i].id !in s.db.orders && id == s.db.nextId)
    ensures TasksFit(db, batch, Fallback(WithHeader(s.db, batch[i], id), s.tasks[i := Saved(id)]))
  {
    forall j | 0 <= j < |batch|
      ensures TaskFits(db, WithHeader(s.db, batch[i], id), batch[j], s.tasks[i := Saved(id)][j])
    {
      assert TaskFits(db, s.db, batch[j], s.tasks[j]);
    }
  }

  lemma SavingKeepsInv(db: Db, batch: seq<Order>, s: Fallback, i: nat, id: nat)
    requires Inv(db, batch, s) && i < |batch| && s.tasks[i].Seen?
    requires LookUp(s.db, batch[i].id) == Some(id) || (batch[i].id !in s.db.orders && id == s.db.nextId)
    ensures Inv(db, batch, Fallback(WithHeader(s.db, batch[i], id), s.tasks[i := Saved(id)]))
  {
    var o, u := batch[i], Fallback(WithHeader(s.db, batch[i], id), s.tasks[i := Saved(id)]);
    HeaderKeepsGrown(db, batch, s.db, i, id);
    hide Grown, DataOf;
    SavingKeepsTasks(db, batch, s, i, id);
    hide TaskFits;
    forall j, x
      ensures HeaderBy(batch, u.tasks, j, x) == (HeaderBy(batch, s.tasks, j, x) || (j == i && x == o.id))
    {
    }
    forall j, x, k
      ensures ChildrenBy(batch, u.tasks, j, x, k) == ChildrenBy(batch, s.tasks, j, x, k)
    {
    }
    forall x | x in u.db.orders
      ensures HeaderFrom(db, batch, u, x)
    {
      if x == o.id {
        assert HeaderBy(batch, u.tasks, i, x);
      } else {
        assert HeaderFrom(db, batch, s, x);
      }
    }
    forall k, x
      ensures ChildrenFrom(db, batch, u, k, x)
    {
      assert ChildrenFrom(db, batch, s, k, x);
    }
  }

  lemma ChildrenKeepGrown(db: Db, batch: seq<Order>, now: Db, o: Order, id: nat, k: Kind)
    requires Grown(db, batch, now) && LookUp(now, o.id) == Some(id)
    ensures Grown(db, batch, WithChildren(now, o, id, k))
  {
    ReplaceChildrenPointInto(Table(now, k), o, now.orders, now.orders[o.id], k);
    assert now.orders[o.id := now.orders[o.id]] == now.orders;
  }

  lemma ChildrenData(now: Db, o: Order, id: nat, k: Kind, l: Kind, x: int)
    ensures WithChildren(now, o, id, k).orders == now.orders
    ensures DataOf(Table(WithChildren(now, o, id, k), l), x)
         == if k == l && x == o.id && Embedded(o, k) != [] then Embedded(o, k) else DataOf(Table(now, l), x)
  {
    ReplaceChildrenEffect(Table(now, k), o, id, k, x);
  }

  /** The step of a task from which kind `k` is written, and where it leaves the task. */
  predicate Replaces(was: Task, now: Task, id: nat, k: Kind) {
    match k
    case Lines => was == Saved(id) && now == Lined(id)
    case Payments => was == Lined(id) && now == Done(true)
  }

  lemma ReplacesWrites(was: Task, now: Task, id: nat, k: Kind)
    requires Replaces(was, now, id, k)
    ensures was.WroteHeader() && now.WroteHeader()
    ensures forall l :: now.Wrote(l) <==> was.Wrote(l) || l == k
  {
  }

  lemma OneMoreWrote(batch: seq<Order>, tasks: seq<Task>, i: nat, k: Kind, t: Task, id: nat, l: Kind, x: int, j: int)
    requires i < |batch| == |tasks| && Replaces(tasks[i], t, id, k)
    ensures HeaderBy(batch, tasks[i := t], j, x) == HeaderBy(batch, tasks, j, x)
    ensures ChildrenBy(batch, tasks[i := t], j, x, l) ==
      (ChildrenBy(batch, tasks, j, x, l) || (j == i && l == k && batch[i].id == x && Embedded(batch[i], k) != []))
  {
    hide Replaces, Embedded;
    ReplacesWrites(tasks[i], t, id, k);
  }

  lemma ReplacingKeepsChildren(
    db: Db, batch: seq<Order>, s: Fallback, i: nat, id: nat, k: Kind, t: Task, l: Kind, x: int)
    requires |s.tasks| == |batch| && i < |batch| && Replaces(s.tasks[i], t, id, k) && ChildrenFrom(db, batch, s, l, x)
    ensures ChildrenFrom(db, batch, Fallback(WithChildren(s.db, batch[i], id, k), s.tasks[i := t]), l, x)
  {
    hide DataOf, WithChildren, Replaces, Embedded, ChildrenBy;
    var after := s.tasks[i := t];
    forall j: int
      ensures ChildrenBy(batch, after, j, x, l) ==
        (ChildrenBy(batch, s.tasks, j, x, l) || (j == i && l == k && batch[i].id == x && Embedded(batch[i], k) != []))
    {
      OneMoreWrote(batch, s.tasks, i, k, t, id, l, x, j);
    }
    ChildrenData(s.db, batch[i], id, k, l, x);
    if l == k && x == batch[i].id && Embedded(batch[i], k) != [] {
      assert ChildrenBy(batch, after, i, x, l);
    } else if j :| ChildrenBy(batch, s.tasks, j, x, l) && WroteAs(batch, s.db, j, x, l) {
      assert ChildrenBy(batch, after, j, x, l);
    }
  }

  lemma ReplacingKeepsHeader(db: Db, batch: seq<Order>, s: Fallback, i: nat, id: nat, k: Kind, t: Task, x: int)
    requires |s.tasks| == |batch| && i < |batch| && Replaces(s.tasks[i], t, id, k)
    requires x in s.db.orders && HeaderFrom(db, batch, s, x)
    ensures
      var u := Fallback(WithChildren(s.db, batch[i], id, k), s.tasks[i := t]);
      x in u.db.orders && HeaderFrom(db, batch, u, x)
  {
    hide WithChildren, Replaces, HeaderBy;
    var after := s.tasks[i := t];
    forall j: int
      ensures HeaderBy(batch, after, j, x) == HeaderBy(batch, s.tasks, j, x)
    {
      OneMoreWrote(batch, s.tasks, i, k, t, id, k, x, j);
    }
    ChildrenData(s.db, batch[i], id, k, k, x);
    if j :| HeaderBy(batch, s.tasks, j, x) && HeadedAs(batch, s.db, j, x) {
      assert HeaderBy(batch, after, j, x);
    }
  }

  lemma ReplacingKeepsFit(db: Db, batch: seq<Order>, s: Fallback, i: nat, id: nat, k: Kind, t: Task)
    requires TasksFit(db, batch, s) && i < |batch| && Replaces(s.tasks[i], t, id, k)
    ensures TasksFit(db, batch, Fallback(WithChildren(s.db, batch[i], id, k), s.tasks[i := t]))
  {
    hide WithChildren;
    ChildrenData(s.db, batch[i], id, k, k, 0);
    assert TaskFits(db, s.db, batch[i], s.tasks[i]);
  }

  /** Lines or payments of order `i` are replaced. */
  lemma ReplacingKeepsInv(db: Db, batch: seq<Order>, s: Fallback, i: nat, id: nat, k: Kind, t: Task)
    requires Inv(db, batch, s) && i < |batch| && LookUp(s.db, batch[i].id) == Some(id)
    requires Replaces(s.tasks[i], t, id, k)
    ensures Inv(db, batch, Fallback(WithChildren(s.db, batch[i], id, k), s.tasks[i := t]))
  {
    hide Grown, DataOf, WithChildren, TasksFit, HeaderFrom, ChildrenFrom, LookUp, Replaces;
    SameLength(db, batch, s);
    var u := Fallback(WithChildren(s.db, batch[i], id, k), s.tasks[i := t]);
    ChildrenKeepGrown(db, batch, s.db, batch[i], id, k);
    ReplacingKeepsFit(db, batch, s, i, id, k, t);
    ChildrenData(s.db, batch[i], id, k, k, 0);
    forall x | x in u.db.orders
      ensures HeaderFrom(db, batch, u, x)
    {
      ReplacingKeepsHeader(db, batch, s, i, id, k, t, x);
    }
    forall l, x
      ensures ChildrenFrom(db, batch, u, l, x)
    {
      ReplacingKeepsChildren(db, batch, s, i, id, k, t, l, x);
    }
  }

  lemma SameLength(db: Db, batch: seq<Order>, s: Fallback)
    requires TasksFit(db, batch, s)
    ensures |s.tasks| == |batch|
  {
  }

  lemma StepKeepsInv(db: Db, batch: seq<Order>, s: Fallback, i: nat)
    requires Inv(db, batch, s) && i < |batch|
    ensures Inv(db, batch, Step(s, batch, i))
  {
    hide HeaderFrom, ChildrenFrom, WithChildren, Grown;
    assert TaskFits(db, s.db, batch[i], s.tasks[i]);
    match s.tasks[i]
    case Waiting => MovingKeepsInv(db, batch, s, i, Started);
    case Started =>
      KnownIsKept(db, batch, s.db);
      MovingKeepsInv(db, batch, s, i, Seen(LookUp(s.db, batch[i].id)));
    case Seen(found) =>
      if found.None? && batch[i].id in s.db.orders {
        MovingKeepsInv(db, batch, s, i, Done(false));
      } else {
        SavingKeepsInv(db, batch, s, i, if found.Some? then found.value else s.db.nextId);
      }
    case Saved(id) => ReplacingKeepsInv(db, batch, s, i, id, Lines, Lined(id));
    case Lined(id) => ReplacingKeepsInv(db, batch, s, i, id, Payments, Done(true));
    case Done(_) =>
  }

  lemma KnownIsKept(db: Db, batch: seq<Order>, now: Db)
    requires Grown(db, batch, now)
    ensures forall id :: id in db.orders ==> id in now.orders
  {
  }

  lemma {:induction false} EveryInterleavingKeepsInv(db: Db, batch: seq<Order>, lanes: nat, es: seq<nat>)
    requires Linked(db)
    ensures Inv(db, batch, Play(db, batch, lanes, es))
  {
    hide Inv, Step;
    if |es| == 0 {
      BeginKeepsInv(db, batch);
    } else {
      EveryInterleavingKeepsInv(db, batch, lanes, es[..|es| - 1]);
      var s := Play(db, batch, lanes, es[..|es| - 1]);
      if Enabled(s, lanes, es[|es| - 1]) {
        StepKeepsInv(db, batch, s, es[|es| - 1]);
      }
    }
  }
}
