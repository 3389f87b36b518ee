/** What the per-order path can leave for a whole batch, and when that is what a sequential loop would leave. */
module FallbackOutcomes {
  import opened Wrappers
  import opened BulkUpsert
  import opened PerOrderRaces

  // ----- whatever happens

  ghost predicate HeaderOfSome(batch: seq<Order>, now: Db, id: int) {
    exists i :: 0 <= i < |batch| && batch[i].id == id && HeadedAs(batch, now, i, id)
  }

  ghost predicate ChildrenOfSome(batch: seq<Order>, now: Db, k: Kind, id: int) {
    exists i :: 0 <= i < |batch| && batch[i].id == id && WroteAs(batch, now, i, id, k)
  }

  /**
   One header per order id, ids that existed kept, the columns those of some duplicate in the batch, and the children
   those of some duplicate or what there was; what the batch does not name is as it was.
   */
  ghost predicate RaceEffect(db: Db, batch: seq<Order>, after: Db) {
    && Grown(db, batch, after)
    && Ids(batch) <= after.orders.Keys
    && (forall id :: id in after.orders ==>
          if id in Ids(batch) then HeaderOfSome(batch, after, id)
          else id in db.orders && after.orders[id].columns == db.orders[id].columns)
    && (forall k, id :: ChildrenOfSome(batch, after, k, id) || DataOf(Table(after, k), id) == DataOf(Table(db, k), id))
  }

  lemma SettledHasAll(db: Db, batch: seq<Order>, s: Fallback, id: int) returns (i: nat)
    requires Inv(db, batch, s) && Settled(s) && id in Ids(batch)
    ensures i < |batch| && batch[i].id == id && id in s.db.orders && s.tasks[i].Done?
    ensures id in db.orders ==> HeaderBy(batch, s.tasks, i, id)
  {
    i :| i < |batch| && batch[i].id == id;
    assert TaskFits(db, s.db, batch[i], s.tasks[i]);
  }

  lemma SettledHeader(db: Db, batch: seq<Order>, s: Fallback, id: int) returns (i: int)
    requires Inv(db, batch, s) && Settled(s) && id in Ids(batch)
    ensures id in s.db.orders && HeaderBy(batch, s.tasks, i, id) && HeadedAs(batch, s.db, i, id)
  {
    hide Grown, ChildrenFrom, HeadedAs;
    var _ := SettledHasAll(db, batch, s, id);
    assert HeaderFrom(db, batch, s, id);
    i :| HeaderBy(batch, s.tasks, i, id) && HeadedAs(batch, s.db, i, id);
  }

  lemma SettledIsRace(db: Db, batch: seq<Order>, s: Fallback)
    requires Inv(db, batch, s) && Settled(s)
    ensures RaceEffect(db, batch, s.db)
  {
    hide DataOf;
    forall id | id in Ids(batch)
      ensures id in s.db.orders && HeaderOfSome(batch, s.db, id)
    {
      var i := SettledHeader(db, batch, s, id);
    }
    forall id | id in s.db.orders && id !in Ids(batch)
      ensures id in db.orders && s.db.orders[id].columns == db.orders[id].columns
    {
      assert HeaderFrom(db, batch, s, id);
      NoneBy(batch, s.tasks, id);
    }
    forall k, id
      ensures ChildrenOfSome(batch, s.db, k, id) || DataOf(Table(s.db, k), id) == DataOf(Table(db, k), id)
    {
      assert ChildrenFrom(db, batch, s, k, id);
    }
  }

  lemma NoneBy(batch: seq<Order>, tasks: seq<Task>, id: int)
    requires id !in Ids(batch)
    ensures forall i :: !HeaderBy(batch, tasks, i, id)
  {
    assert forall i :: 0 <= i < |batch| ==> batch[i].id in Ids(batch);
  }

  predicate SameColumns(a: Db, b: Db, id: int) {
    id in a.orders && id in b.orders && a.orders[id].columns == b.orders[id].columns
  }

  lemma SomeOfTheFirst(a: seq<Order>, b: seq<Order>, mid: Db, now: Db, k: Kind, id: int)
    ensures HeaderOfSome(a, mid, id) && SameColumns(mid, now, id) ==> HeaderOfSome(a + b, now, id)
    ensures ChildrenOfSome(a, mid, k, id) && DataOf(Table(now, k), id) == DataOf(Table(mid, k), id) ==>
      ChildrenOfSome(a + b, now, k, id)
  {
    hide DataOf, Embedded;
    if i :| 0 <= i < |a| && a[i].id == id && HeadedAs(a, mid, i, id) {
      assert (a + b)[i] == a[i];
      assert SameColumns(mid, now, id) ==> HeadedAs(a + b, now, i, id);
    }
    if i :| 0 <= i < |a| && a[i].id == id && WroteAs(a, mid, i, id, k) {
      assert (a + b)[i] == a[i];
      assert DataOf(Table(now, k), id) == DataOf(Table(mid, k), id) ==> WroteAs(a + b, now, i, id, k);
    }
  }

  lemma SomeOfTheSecond(a: seq<Order>, b: seq<Order>, now: Db, k: Kind, id: int)
    ensures HeaderOfSome(b, now, id) ==> HeaderOfSome(a + b, now, id)
    ensures ChildrenOfSome(b, now, k, id) ==> ChildrenOfSome(a + b, now, k, id)
  {
    hide DataOf, Embedded;
    if i :| 0 <= i < |b| && b[i].id == id && HeadedAs(b, now, i, id) {
      assert (a + b)[|a| + i] == b[i];
      assert HeadedAs(a + b, now, |a| + i, id);
    }
    if i :| 0 <= i < |b| && b[i].id == id && WroteAs(b, now, i, id, k) {
      assert (a + b)[|a| + i] == b[i];
      assert WroteAs(a + b, now, |a| + i, id, k);
    }
  }

  /** Two batches one after the other. */
  lemma RaceEffectsCompose(db: Db, a: seq<Order>, mid: Db, b: seq<Order>, after: Db)
    requires RaceEffect(db, a, mid) && RaceEffect(mid, b, after)
    ensures RaceEffect(db, a + b, after)
  {
    hide DataOf, Linked, HeaderOfSome, ChildrenOfSome, Ids;
    IdsOfConcat(a, b);
    forall id | id in after.orders
      ensures if id in Ids(a + b) then HeaderOfSome(a + b, after, id)
        else id in db.orders && after.orders[id].columns == db.orders[id].columns
    {
      SomeOfTheFirst(a, b, mid, after, Lines, id);
      SomeOfTheSecond(a, b, after, Lines, id);
    }
    forall k, id
      ensures ChildrenOfSome(a + b, after, k, id) || DataOf(Table(after, k), id) == DataOf(Table(db, k), id)
    {
      SomeOfTheFirst(a, b, mid, after, k, id);
      SomeOfTheSecond(a, b, after, k, id);
      assert ChildrenOfSome(a, mid, k, id) || DataOf(Table(mid, k), id) == DataOf(Table(db, k), id);
    }
  }

  /** Either policy, carried out in full, is one of these outcomes. */
  lemma EffectIsRace(db: Db, batch: seq<Order>, after: Db, keepOld: bool)
    requires Effect(db, batch, after, keepOld)
    ensures RaceEffect(db, batch, after)
  {
    hide DataOf, Linked;
    forall id | id in after.orders
      ensures if id in Ids(batch) then HeaderOfSome(batch, after, id)
        else id in db.orders && after.orders[id].columns == db.orders[id].columns
    {
      LastColumnsAreSome(ColumnsOf(db.orders, id), batch, id);
    }
    forall k, id
      ensures ChildrenOfSome(batch, after, k, id) || DataOf(Table(after, k), id) == DataOf(Table(db, k), id)
    {
      ExpectedIsSome(DataOf(Table(db, k), id), batch, id, k, keepOld);
    }
  }

  lemma {:induction false} LastColumnsAreSome(columns: string, batch: seq<Order>, id: int)
    ensures
      if id in Ids(batch)
      then exists i :: 0 <= i < |batch| && batch[i].id == id && LastColumns(columns, batch, id) == batch[i].columns
      else LastColumns(columns, batch, id) == columns
  {
    if |batch| == 0 {
    } else {
      var before := batch[..|batch| - 1];
      IdsOfSnoc(batch);
      LastColumnsAreSome(columns, before, id);
      assert forall i :: 0 <= i < |before| ==> before[i] == batch[i];
    }
  }

  /** The children expected are those of some duplicate, or what is stored; with `keepOld` some rather than none. */
  lemma {:induction false} ExpectedIsSome(stored: seq<string>, batch: seq<Order>, id: int, k: Kind, keepOld: bool)
    ensures
      var e := Expected(stored, batch, id, k, keepOld);
      || (exists i :: 0 <= i < |batch| && batch[i].id == id && e == Embedded(batch[i], k)
            && (keepOld ==> Embedded(batch[i], k) != []))
      || (e == stored
          && (keepOld ==> forall i :: 0 <= i < |batch| && batch[i].id == id ==> Embedded(batch[i], k) == []))
  {
    if |batch| == 0 {
    } else {
      var before, last := batch[..|batch| - 1], |batch| - 1;
      ExpectedIsSome(stored, before, id, k, keepOld);
      assert forall i :: 0 <= i < |before| ==> before[i] == batch[i];
      if batch[last].id == id && (Embedded(batch[last], k) != [] || !keepOld) {
        assert Expected(stored, batch, id, k, keepOld) == Embedded(batch[last], k);
      }
    }
  }

  // ----- what the number of lanes rules out

  function Occurs(batch: seq<Order>, id: int): nat {
    if |batch| == 0 then 0
    else Occurs(batch[..|batch| - 1], id) + if batch[|batch| - 1].id == id then 1 else 0
  }

  /** Order `i` can be on a lane together with every earlier duplicate of it. */
  predicate InReach(batch: seq<Order>, lanes: nat, i: nat) {
    i < |batch| && Occurs(batch[..i + 1], batch[i].id) <= lanes
  }

  predicate FoundNone(t: Task) {
    t == Seen(None) || t == Done(false)
  }

  ghost predicate HeaderInReach(batch: seq<Order>, lanes: nat, tasks: seq<Task>, id: int) {
    exists j: nat :: HeaderBy(batch, tasks, j, id) && InReach(batch, lanes, j)
  }

  /** Lanes are taken in turn and never too many; only orders in reach find none stored, so one of them inserts it. */
  ghost predicate LaneInv(db: Db, batch: seq<Order>, lanes: nat, s: Fallback) {
    && |s.tasks| == |batch| && CountRunning(s.tasks) <= lanes
    && (forall i, j :: 0 <= i < j < |batch| && s.tasks[i].Waiting? ==> s.tasks[j].Waiting?)
    && (forall i :: 0 <= i < |batch| && FoundNone(s.tasks[i]) ==> InReach(batch, lanes, i))
    && (forall id :: id in s.db.orders && id !in db.orders ==> HeaderInReach(batch, lanes, s.tasks, id))
  }

  lemma {:induction false} CountRunningAfter(tasks: seq<Task>, i: nat, t: Task)
    requires i < |tasks|
    ensures CountRunning(tasks[i := t])
         == CountRunning(tasks) - (if tasks[i].Running() then 1 else 0) + (if t.Running() then 1 else 0)
  {
    var before := tasks[..|tasks| - 1];
    if i == |tasks| - 1 {
      assert tasks[i := t][..|tasks| - 1] == before;
    } else {
      CountRunningAfter(before, i, t);
      assert tasks[i := t][..|tasks| - 1] == before[i := t];
    }
  }

  /** As many tasks are running as duplicates of an order up to `i`, if all of those are. */
  lemma {:induction false} RunningDuplicates(batch: seq<Order>, tasks: seq<Task>, i: nat, id: int)
    requires i <= |batch| == |tasks|
    requires forall j :: 0 <= j < i && batch[j].id == id ==> tasks[j].Running()
    ensures Occurs(batch[..i], id) <= CountRunning(tasks)
    decreases |batch|
  {
    if |batch| == 0 {
    } else {
      var before := batch[..|batch| - 1];
      if i == |batch| {
        RunningDuplicates(before, tasks[..|tasks| - 1], i - 1, id);
        assert batch[..i] == batch && before[..i - 1] == before;
      } else {
        RunningDuplicates(before, tasks[..|tasks| - 1], i, id);
        assert batch[..i] == before[..i];
      }
    }
  }

  /** An order that is looked up before any duplicate has inserted it is in reach. */
  lemma NoneFoundInReach(db: Db, batch: seq<Order>, lanes: nat, s: Fallback, i: nat)
    requires TasksFit(db, batch, s) && LaneInv(db, batch, lanes, s)
    requires i < |batch| && s.tasks[i].Started? && batch[i].id !in s.db.orders && batch[i].id !in db.orders
    ensures InReach(batch, lanes, i)
  {
    var id := batch[i].id;
    forall j | 0 <= j < i + 1 && batch[j].id == id
      ensures s.tasks[j].Running()
    {
      assert TaskFits(db, s.db, batch[j], s.tasks[j]);
    }
    RunningDuplicates(batch, s.tasks, i + 1, id);
  }

  /** What a step does to its task: it starts it, moves it on while it runs, or ends it. */
  lemma StepOfTask(db: Db, batch: seq<Order>, lanes: nat, s: Fallback, i: nat)
    requires Inv(db, batch, s) && LaneInv(db, batch, lanes, s) && Enabled(s, lanes, i)
    ensures
      var u := Step(s, batch, i);
      && u.tasks == s.tasks[i := u.tasks[i]] && !u.tasks[i].Waiting?
      && (s.tasks[i].WroteHeader() ==> u.tasks[i].WroteHeader())
      && (FoundNone(u.tasks[i]) ==> InReach(batch, lanes, i))
      && (forall id :: id in u.db.orders ==> id in s.db.orders || (id == batch[i].id && s.tasks[i] == Seen(None)))
      && (s.tasks[i] == Seen(None) ==> u.tasks[i].WroteHeader() || u.db == s.db)
  {
    hide Grown, HeaderFrom, ChildrenFrom, ReplaceChildren, InReach, CountRunning;
    assert TaskFits(db, s.db, batch[i], s.tasks[i]);
    if s.tasks[i].Started? && batch[i].id !in s.db.orders {
      KnownIsKept(db, batch, s.db);
      NoneFoundInReach(db, batch, lanes, s, i);
    }
  }

  lemma StepKeepsLaneInv(db: Db, batch: seq<Order>, lanes: nat, s: Fallback, i: nat)
    requires Inv(db, batch, s) && LaneInv(db, batch, lanes, s) && Enabled(s, lanes, i)
    ensures LaneInv(db, batch, lanes, Step(s, batch, i))
  {
    hide Inv, Step, InReach, CountRunning;
    StepOfTask(db, batch, lanes, s, i);
    var u := Step(s, batch, i);
    CountRunningAfter(s.tasks, i, u.tasks[i]);
    forall id | id in u.db.orders && id !in db.orders
      ensures HeaderInReach(batch, lanes, u.tasks, id)
    {
      if id in s.db.orders {
        var j: nat :| HeaderBy(batch, s.tasks, j, id) && InReach(batch, lanes, j);
        assert HeaderBy(batch, u.tasks, j, id);
      } else {
        assert HeaderBy(batch, u.tasks, i, id);
      }
    }
  }

  lemma {:induction false} NoneRuns(tasks: seq<Task>)
    requires forall i :: 0 <= i < |tasks| ==> !tasks[i].Running()
    ensures CountRunning(tasks) == 0
  {
    if |tasks| == 0 {
    } else {
      NoneRuns(tasks[..|tasks| - 1]);
    }
  }

  lemma {:induction false} EveryInterleavingKeepsLaneInv(db: Db, batch: seq<Order>, lanes: nat, es: seq<nat>)
    requires Linked(db)
    ensures LaneInv(db, batch, lanes, Play(db, batch, lanes, es))
  {
    hide Inv, Step, LaneInv;
    if |es| == 0 {
      BeginKeepsLaneInv(db, batch, lanes);
    } else {
      EveryInterleavingKeepsLaneInv(db, batch, lanes, es[..|es| - 1]);
      EveryInterleavingKeepsInv(db, batch, lanes, es[..|es| - 1]);
      var s := Play(db, batch, lanes, es[..|es| - 1]);
      if Enabled(s, lanes, es[|es| - 1]) {
        StepKeepsLaneInv(db, batch, lanes, s, es[|es| - 1]);
      }
    }
  }

  lemma BeginKeepsLaneInv(db: Db, batch: seq<Order>, lanes: nat)
    ensures LaneInv(db, batch, lanes, Begin(db, batch))
  {
    NoneRuns(Begin(db, batch).tasks);
  }

  // ----- when the order does not matter

  /** The same children, or none on one side. */
  predicate AgreeOnChildren(a: Order, b: Order, k: Kind) {
    Embedded(a, k) == Embedded(b, k) || Embedded(a, k) == [] || Embedded(b, k) == []
  }

  /** Two duplicates of one order write the same, as far as they write. */
  predicate Agree(a: Order, b: Order) {
    a.columns == b.columns && forall k :: AgreeOnChildren(a, b, k)
  }

  predicate DuplicatesAgree(batch: seq<Order>) {
    forall i, j :: 0 <= i < j < |batch| && batch[i].id == batch[j].id ==> Agree(batch[i], batch[j])
  }

  predicate EmbedsSome(batch: seq<Order>, i: nat, id: int, k: Kind) {
    i < |batch| && batch[i].id == id && Embedded(batch[i], k) != []
  }

  predicate EmbedsNone(batch: seq<Order>, i: nat, id: int, k: Kind) {
    i < |batch| && batch[i].id == id && Embedded(batch[i], k) == []
  }

  /**
   All duplicates that embed children of this kind, and there are some, can be refused: they and one that embeds none
   are all in reach.
   */
  ghost predicate CanDrop(batch: seq<Order>, lanes: nat, id: int, k: Kind) {
    && (exists q: nat :: EmbedsNone(batch, q, id, k) && InReach(batch, lanes, q))
    && (exists p: nat :: EmbedsSome(batch, p, id, k))
    && (forall p: nat :: EmbedsSome(batch, p, id, k) ==> InReach(batch, lanes, p))
  }

  ghost predicate NothingDropped(db: Db, batch: seq<Order>, lanes: nat) {
    forall id, k :: id !in db.orders ==> !CanDrop(batch, lanes, id, k)
  }

  /** Order `i` says what the order is to end with. */
  ghost predicate SaysTheLast(db: Db, batch: seq<Order>, i: nat)
    requires i < |batch|
  {
    var o := batch[i];
    && o.columns == LastColumns(ColumnsOf(db.orders, o.id), batch, o.id)
    && forall k :: Embedded(o, k) == [] || Embedded(o, k) == Expected(DataOf(Table(db, k), o.id), batch, o.id, k, true)
  }

  ghost predicate AllSayTheLast(db: Db, batch: seq<Order>) {
    forall i :: 0 <= i < |batch| ==> SaysTheLast(db, batch, i)
  }

  lemma NewHasNoChildren(db: Db, id: int)
    requires Linked(db) && id !in db.orders
    ensures forall k :: DataOf(Table(db, k), id) == []
  {
    forall k
      ensures DataOf(Table(db, k), id) == []
    {
      Unnamed(Table(db, k), id);
    }
  }

  lemma {:induction false} Unnamed(rows: seq<Child>, id: int)
    requires forall row :: row in rows ==> row.orderId != id
    ensures DataOf(rows, id) == []
  {
    if rows == [] {
    } else {
      assert rows[0] in rows;
      Unnamed(rows[1..], id);
    }
  }

  lemma AgreementMeansTheLast(db: Db, batch: seq<Order>, i: nat)
    requires DuplicatesAgree(batch) && i < |batch|
    ensures SaysTheLast(db, batch, i)
  {
    hide DataOf, Embedded, Agree;
    var o := batch[i];
    assert o.id in Ids(batch);
    forall j | 0 <= j < |batch| && batch[j].id == o.id
      ensures batch[j].columns == o.columns
      ensures forall k :: AgreeOnChildren(batch[j], o, k)
    {
      AgreeingPair(batch, i, j);
    }
    LastColumnsAreSome(ColumnsOf(db.orders, o.id), batch, o.id);
    forall k
      ensures Embedded(o, k) == [] || Embedded(o, k) == Expected(DataOf(Table(db, k), o.id), batch, o.id, k, true)
    {
      ExpectedIsSome(DataOf(Table(db, k), o.id), batch, o.id, k, true);
      var e := Expected(DataOf(Table(db, k), o.id), batch, o.id, k, true);
      if j :| 0 <= j < |batch| && batch[j].id == o.id && e == Embedded(batch[j], k) && Embedded(batch[j], k) != [] {
        assert AgreeOnChildren(batch[j], o, k);
      }
    }
  }

  lemma AgreeingPair(batch: seq<Order>, i: nat, j: nat)
    requires DuplicatesAgree(batch) && i < |batch| && j < |batch| && batch[i].id == batch[j].id
    ensures batch[j].columns == batch[i].columns
    ensures forall k :: AgreeOnChildren(batch[j], batch[i], k)
  {
    hide Embedded;
    assert i < j ==> Agree(batch[i], batch[j]);
    assert j < i ==> Agree(batch[j], batch[i]);
    forall k
      ensures AgreeOnChildren(batch[j], batch[i], k)
    {
      assert i < j ==> AgreeOnChildren(batch[i], batch[j], k);
    }
  }

  lemma AllSayTheLastExactlyWhen(db: Db, batch: seq<Order>)
    ensures AllSayTheLast(db, batch) <==> DuplicatesAgree(batch)
  {
    hide DataOf;
    if DuplicatesAgree(batch) {
      forall i | 0 <= i < |batch|
        ensures SaysTheLast(db, batch, i)
      {
        AgreementMeansTheLast(db, batch, i);
      }
    }
    if AllSayTheLast(db, batch) {
      forall i, j | 0 <= i < j < |batch| && batch[i].id == batch[j].id
        ensures Agree(batch[i], batch[j])
      {
        assert SaysTheLast(db, batch, i) && SaysTheLast(db, batch, j);
      }
    }
  }

  /** Once every lane has ended, some duplicate that embeds children has written them, if there is one. */
  lemma SomeoneWrote(db: Db, batch: seq<Order>, lanes: nat, s: Fallback, i: nat, k: Kind)
    requires Inv(db, batch, s) && LaneInv(db, batch, lanes, s) && Settled(s) && NothingDropped(db, batch, lanes)
    requires i < |batch| && Embedded(batch[i], k) != []
    ensures exists j :: ChildrenBy(batch, s.tasks, j, batch[i].id, k)
  {
    hide DataOf, Grown, InReach, CountRunning, HeaderFrom, ChildrenFrom, Embedded;
    var id := batch[i].id;
    assert TaskFits(db, s.db, batch[i], s.tasks[i]);
    if s.tasks[i] == Done(true) {
      assert ChildrenBy(batch, s.tasks, i, id, k);
    } else {
      assert FoundNone(s.tasks[i]) && id !in db.orders;
      assert EmbedsSome(batch, i, id, k);
      if p: nat :| EmbedsSome(batch, p, id, k) && !InReach(batch, lanes, p) {
        assert !FoundNone(s.tasks[p]);
        assert ChildrenBy(batch, s.tasks, p, id, k);
      } else {
        var q: nat :| HeaderBy(batch, s.tasks, q, id) && InReach(batch, lanes, q);
        assert !CanDrop(batch, lanes, id, k);
        assert !EmbedsNone(batch, q, id, k);
        assert ChildrenBy(batch, s.tasks, q, id, k);
      }
    }
  }

  /** The children of one order once every lane has ended. */
  lemma SettledChildren(db: Db, batch: seq<Order>, lanes: nat, s: Fallback, k: Kind, id: int)
    requires Inv(db, batch, s) && LaneInv(db, batch, lanes, s) && Settled(s)
    requires AllSayTheLast(db, batch) && NothingDropped(db, batch, lanes)
    ensures DataOf(Table(s.db, k), id) == Expected(DataOf(Table(db, k), id), batch, id, k, true)
  {
    hide DataOf, Grown, HeaderFrom, LaneInv, NothingDropped, LastColumns;
    ExpectedIsSome(DataOf(Table(db, k), id), batch, id, k, true);
    assert ChildrenFrom(db, batch, s, k, id);
    if i :| 0 <= i < |batch| && batch[i].id == id && Embedded(batch[i], k) != [] {
      SomeoneWrote(db, batch, lanes, s, i, k);
      var j :| ChildrenBy(batch, s.tasks, j, id, k) && WroteAs(batch, s.db, j, id, k);
      assert SaysTheLast(db, batch, j);
    }
  }

  lemma SettledIsEffect(db: Db, batch: seq<Order>, lanes: nat, s: Fallback)
    requires Inv(db, batch, s) && LaneInv(db, batch, lanes, s) && Settled(s)
    requires AllSayTheLast(db, batch) && NothingDropped(db, batch, lanes)
    ensures Effect(db, batch, s.db, true)
  {
    SettledIsRace(db, batch, s);
    hide DataOf, Inv, LaneInv, NothingDropped, Linked, Settled, LastColumns, Expected;
    forall id | id in s.db.orders
      ensures s.db.orders[id].columns == LastColumns(ColumnsOf(db.orders, id), batch, id)
    {
      LastColumnsAreSome(ColumnsOf(db.orders, id), batch, id);
      if id in Ids(batch) {
        var i :| 0 <= i < |batch| && batch[i].id == id && HeadedAs(batch, s.db, i, id);
        assert SaysTheLast(db, batch, i);
      }
    }
    forall k, id
      ensures DataOf(Table(s.db, k), id) == Expected(DataOf(Table(db, k), id), batch, id, k, true)
    {
      SettledChildren(db, batch, lanes, s, k, id);
    }
  }
}
