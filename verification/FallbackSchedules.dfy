/** Which outcomes the lanes of the per-order path can bring about, and so when duplicates in a batch do harm. */
module FallbackSchedules {
  import opened Wrappers
  import opened BulkUpsert
  import opened PerOrderRaces
  import opened FallbackOutcomes

  lemma Extend(db: Db, batch: seq<Order>, lanes: nat, es: seq<nat>, i: nat)
    requires Schedule(db, batch, lanes, es) && Enabled(Play(db, batch, lanes, es), lanes, i)
    ensures Schedule(db, batch, lanes, es + [i])
    ensures Play(db, batch, lanes, es + [i]) == Step(Play(db, batch, lanes, es), batch, i)
  {
    assert (es + [i])[..|es|] == es;
  }

  // ----- one lane

  function ParentOfUpsert(db: Db, o: Order): nat {
    if o.id in db.orders then db.orders[o.id].id else db.nextId
  }

  /** The tables when the upsert of `o`, begun on `base`, has come as far as `t`. */
  function PartWay(base: Db, o: Order, t: Task): Db {
    var id := ParentOfUpsert(base, o);
    match t
    case Saved(_) => WithHeader(base, o, id)
    case Lined(_) => WithChildren(WithHeader(base, o, id), o, id, Lines)
    case Done(_) => UpsertOne(base, o)
    case _ => base
  }

  predicate OnItsWay(base: Db, o: Order, t: Task) {
    match t
    case Seen(found) => found == LookUp(base, o.id)
    case Saved(id) => id == ParentOfUpsert(base, o)
    case Lined(id) => id == ParentOfUpsert(base, o)
    case Done(_) => false
    case _ => true
  }

  /** The first `r` orders are upserted, one after the other, and only the next one may be on its way. */
  ghost predicate Sequential(db: Db, batch: seq<Order>, s: Fallback, r: nat) {
    && r <= |batch| == |s.tasks|
    && (forall j :: 0 <= j < r ==> s.tasks[j] == Done(true))
    && (forall j :: r < j < |batch| ==> s.tasks[j].Waiting?)
    && var base := OneByOne(db, batch[..r]);
       if r == |batch| then s.db == base
       else OnItsWay(base, batch[r], s.tasks[r]) && s.db == PartWay(base, batch[r], s.tasks[r])
  }

  lemma {:induction false} SomeoneRuns(tasks: seq<Task>, i: nat)
    requires i < |tasks| && tasks[i].Running()
    ensures CountRunning(tasks) > 0
  {
    if i == |tasks| - 1 {
    } else {
      SomeoneRuns(tasks[..|tasks| - 1], i);
    }
  }

  lemma OnlyTheNextMoves(db: Db, batch: seq<Order>, s: Fallback, r: nat, i: nat)
    requires Sequential(db, batch, s, r) && Enabled(s, 1, i)
    ensures i == r < |batch|
  {
    if i > r && s.tasks[r].Running() {
      SomeoneRuns(s.tasks, r);
    }
  }

  lemma UpsertInSteps(base: Db, o: Order)
    ensures
      var id := ParentOfUpsert(base, o);
      UpsertOne(base, o)
      == WithChildren(WithChildren(WithHeader(base, o, id), o, id, Lines), o, id, Payments)
  {
  }

  lemma MovingOn(base: Db, batch: seq<Order>, s: Fallback, i: nat)
    requires i < |batch| == |s.tasks|
    requires OnItsWay(base, batch[i], s.tasks[i]) && s.db == PartWay(base, batch[i], s.tasks[i])
    ensures
      var u := Step(s, batch, i);
      && u.tasks == s.tasks[i := u.tasks[i]] && u.db == PartWay(base, batch[i], u.tasks[i])
      && (OnItsWay(base, batch[i], u.tasks[i]) || u.tasks[i] == Done(true))
  {
    hide ReplaceChildren;
    UpsertInSteps(base, batch[i]);
  }

  lemma SequentialStep(db: Db, batch: seq<Order>, s: Fallback, r: nat, i: nat) returns (q: nat)
    requires Sequential(db, batch, s, r) && Enabled(s, 1, i)
    ensures Sequential(db, batch, Step(s, batch, i), q)
  {
    hide Step, PartWay, OnItsWay, UpsertOne;
    OnlyTheNextMoves(db, batch, s, r, i);
    var base := OneByOne(db, batch[..r]);
    MovingOn(base, batch, s, r);
    if Step(s, batch, i).tasks[r] == Done(true) {
      q := r + 1;
      assert batch[..r + 1][..r] == batch[..r];
      StartingOut(base, batch[r], UpsertOne(base, batch[r]));
      if q < |batch| {
        StartingOut(UpsertOne(base, batch[r]), batch[q], base);
      }
    } else {
      q := r;
    }
  }

  lemma StartingOut(base: Db, o: Order, done: Db)
    ensures OnItsWay(base, o, Waiting) && PartWay(base, o, Waiting) == base
    ensures PartWay(base, o, Done(true)) == UpsertOne(base, o)
  {
  }

  lemma {:induction false} OneLaneIsSequential(db: Db, batch: seq<Order>, es: seq<nat>) returns (r: nat)
    requires Schedule(db, batch, 1, es)
    ensures Sequential(db, batch, Play(db, batch, 1, es), r)
  {
    if |es| == 0 {
      r := 0;
      assert batch[..0] == [];
    } else {
      r := OneLaneIsSequential(db, batch, es[..|es| - 1]);
      r := SequentialStep(db, batch, Play(db, batch, 1, es[..|es| - 1]), r, es[|es| - 1]);
    }
  }

  /** With one lane the path is the loop over the batch. */
  lemma OneLaneEndsAsTheLoop(db: Db, batch: seq<Order>, after: Db)
    requires CanEndAs(db, batch, 1, after)
    ensures after == OneByOne(db, batch)
  {
    hide Sequential, Schedule, Play;
    var es :| EndsAs(db, batch, 1, es, after);
    var r := OneLaneIsSequential(db, batch, es);
    SettledSequence(db, batch, Play(db, batch, 1, es), r);
  }

  lemma SettledSequence(db: Db, batch: seq<Order>, s: Fallback, r: nat)
    requires Sequential(db, batch, s, r) && Settled(s)
    ensures s.db == OneByOne(db, batch)
    ensures forall i :: 0 <= i < |s.tasks| ==> s.tasks[i] == Done(true)
  {
    assert r == |batch|;
    assert batch[..r] == batch;
  }

  // ----- building schedules

  /** Order `x` and its children are in `b` as they are in `a`. */
  ghost predicate Untouched(a: Db, b: Db, x: int) {
    && (x in a.orders <==> x in b.orders)
    && (x in a.orders ==> a.orders[x] == b.orders[x])
    && forall k :: DataOf(Table(a, k), x) == DataOf(Table(b, k), x)
  }

  /** An order that embeds none of a kind leaves what is stored of it. */
  lemma StepKeepsOthersChildren(s: Fallback, batch: seq<Order>, i: nat, k: Kind, x: int)
    requires i < |batch| == |s.tasks| && (batch[i].id == x ==> Embedded(batch[i], k) == [])
    ensures DataOf(Table(Step(s, batch, i).db, k), x) == DataOf(Table(s.db, k), x)
  {
    hide DataOf, ReplaceChildren;
    forall l, id
      ensures DataOf(Table(WithChildren(s.db, batch[i], id, l), k), x) == DataOf(Table(s.db, k), x)
    {
      ChildrenData(s.db, batch[i], id, l, k, x);
    }
  }

  lemma StepTouchesItsOrder(s: Fallback, batch: seq<Order>, i: nat, x: int)
    requires i < |batch| == |s.tasks| && batch[i].id != x
    ensures Untouched(s.db, Step(s, batch, i).db, x)
  {
    hide DataOf, ReplaceChildren;
    forall k, l, id
      ensures DataOf(Table(WithChildren(s.db, batch[i], id, k), l), x) == DataOf(Table(s.db, l), x)
    {
      ChildrenData(s.db, batch[i], id, k, l, x);
    }
  }

  function Remaining(t: Task): nat {
    match t
    case Waiting => 5
    case Started => 4
    case Seen(_) => 3
    case Saved(_) => 2
    case Lined(_) => 1
    case Done(_) => 0
  }

  lemma StepMoves(s: Fallback, batch: seq<Order>, i: nat)
    requires i < |batch| == |s.tasks| && !s.tasks[i].Done?
    ensures
      var u := Step(s, batch, i);
      u.tasks == s.tasks[i := u.tasks[i]] && Remaining(u.tasks[i]) < Remaining(s.tasks[i]) && !u.tasks[i].Waiting?
  {
  }

  /** From `s` to `t` only task `i` has moved, to its end; it touches its own order alone, and there what it embeds. */
  ghost predicate Ended(s: Fallback, t: Fallback, batch: seq<Order>, i: nat) {
    && i < |batch| == |s.tasks| == |t.tasks|
    && t.tasks == s.tasks[i := t.tasks[i]] && t.tasks[i].Done?
    && (forall x :: x != batch[i].id ==> Untouched(s.db, t.db, x))
    && forall k :: Embedded(batch[i], k) == [] ==> KeepsChildren(s.db, t.db, k, batch[i].id)
  }

  predicate KeepsChildren(a: Db, b: Db, k: Kind, x: int) {
    DataOf(Table(a, k), x) == DataOf(Table(b, k), x)
  }

  /** A task that has started, or may start, is served until it ends. */
  lemma {:induction false} End(db: Db, batch: seq<Order>, lanes: nat, es: seq<nat>, i: nat) returns (fs: seq<nat>)
    requires Schedule(db, batch, lanes, es) && Enabled(Play(db, batch, lanes, es), lanes, i)
    ensures Schedule(db, batch, lanes, fs)
    ensures Ended(Play(db, batch, lanes, es), Play(db, batch, lanes, fs), batch, i)
    decreases Remaining(Play(db, batch, lanes, es).tasks[i])
  {
    hide Step, Schedule, Play, DataOf;
    var s := Play(db, batch, lanes, es);
    Extend(db, batch, lanes, es, i);
    StepMoves(s, batch, i);
    var u := Step(s, batch, i);
    forall x | x != batch[i].id
      ensures Untouched(s.db, u.db, x)
    {
      StepTouchesItsOrder(s, batch, i, x);
    }
    forall k | Embedded(batch[i], k) == []
      ensures KeepsChildren(s.db, u.db, k, batch[i].id)
    {
      StepKeepsOthersChildren(s, batch, i, k, batch[i].id);
    }
    if u.tasks[i].Done? {
      fs := es + [i];
    } else {
      fs := End(db, batch, lanes, es + [i], i);
      EndedThrough(s, u, Play(db, batch, lanes, fs), batch, i);
    }
  }

  lemma EndedThrough(s: Fallback, u: Fallback, t: Fallback, batch: seq<Order>, i: nat)
    requires i < |batch| == |s.tasks| == |u.tasks|
    requires u.tasks == s.tasks[i := u.tasks[i]] && Ended(u, t, batch, i)
    requires forall x :: x != batch[i].id ==> Untouched(s.db, u.db, x)
    requires forall k :: Embedded(batch[i], k) == [] ==> KeepsChildren(s.db, u.db, k, batch[i].id)
    ensures Ended(s, t, batch, i)
  {
    hide Untouched;
    forall x | x != batch[i].id
      ensures Untouched(s.db, t.db, x)
    {
      UntouchedThrough(s.db, u.db, t.db, x);
    }
  }

  /** `now` holds the columns of `o`, its children where it embeds some, and otherwise what `before` holds. */
  ghost predicate Upserted(before: Db, now: Db, o: Order) {
    && o.id in now.orders && now.orders[o.id].columns == o.columns
    && forall k ::
      DataOf(Table(now, k), o.id) == if Embedded(o, k) != [] then Embedded(o, k) else DataOf(Table(before, k), o.id)
  }

  lemma LastSteps(s: Fallback, batch: seq<Order>, i: nat)
    requires i < |batch| == |s.tasks| && s.tasks[i] == Seen(LookUp(s.db, batch[i].id))
    ensures
      var a := Step(s, batch, i);
      var b := Step(a, batch, i);
      var c := Step(b, batch, i);
      && a.tasks[i].Saved? && b.tasks[i].Lined? && c.tasks[i] == Done(true)
      && Upserted(s.db, c.db, batch[i])
      && (batch[i].id in s.db.orders ==> c.db.orders[batch[i].id].id == s.db.orders[batch[i].id].id)
  {
    hide DataOf, ReplaceChildren;
    var o, a := batch[i], Step(s, batch, i);
    var id := a.tasks[i].parent;
    forall k
      ensures DataOf(Table(WithChildren(WithChildren(a.db, o, id, Lines), o, id, Payments), k), o.id)
        == if Embedded(o, k) != [] then Embedded(o, k) else DataOf(Table(s.db, k), o.id)
    {
      ChildrenData(a.db, o, id, Lines, k, o.id);
      ChildrenData(WithChildren(a.db, o, id, Lines), o, id, Payments, k, o.id);
      assert Table(a.db, k) == Table(s.db, k);
    }
  }

  /** An order looked up before, and still as it was found, is written in full. */
  lemma EndUpserting(db: Db, batch: seq<Order>, lanes: nat, es: seq<nat>, i: nat) returns (fs: seq<nat>)
    requires Schedule(db, batch, lanes, es)
    requires
      var s := Play(db, batch, lanes, es);
      i < |batch| && s.tasks[i] == Seen(LookUp(s.db, batch[i].id))
    ensures Schedule(db, batch, lanes, fs)
    ensures
      var s, t, x := Play(db, batch, lanes, es), Play(db, batch, lanes, fs), batch[i].id;
      && t.tasks == s.tasks[i := Done(true)] && Upserted(s.db, t.db, batch[i])
      && (x in s.db.orders ==> t.db.orders[x].id == s.db.orders[x].id)
  {
    hide Step, Schedule, Play, Upserted;
    var s := Play(db, batch, lanes, es);
    LastSteps(s, batch, i);
    StepMoves(s, batch, i);
    var a := Step(s, batch, i);
    StepMoves(a, batch, i);
    var b := Step(a, batch, i);
    StepMoves(b, batch, i);
    Extend(db, batch, lanes, es, i);
    Extend(db, batch, lanes, es + [i], i);
    Extend(db, batch, lanes, es + [i] + [i], i);
    fs := es + [i] + [i] + [i];
  }

  /** An order looked up before another lane inserted it is refused. */
  lemma EndRefused(db: Db, batch: seq<Order>, lanes: nat, es: seq<nat>, i: nat)
    requires Schedule(db, batch, lanes, es)
    requires
      var s := Play(db, batch, lanes, es);
      i < |batch| && s.tasks[i] == Seen(None) && batch[i].id in s.db.orders
    ensures Schedule(db, batch, lanes, es + [i])
    ensures
      var s := Play(db, batch, lanes, es);
      Play(db, batch, lanes, es + [i]) == s.(tasks := s.tasks[i := Done(false)])
  {
    Extend(db, batch, lanes, es, i);
  }

  // ----- every duplicate can prevail

  lemma {:induction false} OccursLater(batch: seq<Order>, r: nat, m: nat, x: int)
    requires r <= m < |batch| && batch[m].id == x
    ensures Occurs(batch[..r], x) < Occurs(batch[..m + 1], x)
    decreases m - r
  {
    assert batch[..m + 1][..m] == batch[..m];
    OccursMonotone(batch[..m], r, x);
    assert batch[..m][..r] == batch[..r];
  }

  lemma {:induction false} OccursMonotone(batch: seq<Order>, r: nat, x: int)
    requires r <= |batch|
    ensures Occurs(batch[..r], x) <= Occurs(batch, x)
  {
    if r == |batch| {
      assert batch[..r] == batch;
    } else {
      assert batch[..|batch| - 1][..r] == batch[..r];
      OccursMonotone(batch[..|batch| - 1], r, x);
    }
  }

  /** Of the first `r` orders those of order `x` have been looked up and no more, and the others have ended. */
  ghost predicate Held(db: Db, batch: seq<Order>, s: Fallback, r: nat, x: int) {
    && r <= |batch| == |s.tasks| && Untouched(db, s.db, x)
    && (forall j :: 0 <= j < r ==> if batch[j].id == x then s.tasks[j] == Seen(LookUp(db, x)) else s.tasks[j].Done?)
    && (forall j :: r <= j < |batch| ==> s.tasks[j].Waiting?)
  }

  lemma {:induction false} RunningAreHeld(batch: seq<Order>, tasks: seq<Task>, r: nat, x: int)
    requires r <= |batch| == |tasks|
    requires forall j :: 0 <= j < r ==> (tasks[j].Running() <==> batch[j].id == x)
    requires forall j :: r <= j < |batch| ==> !tasks[j].Running()
    ensures CountRunning(tasks) == Occurs(batch[..r], x)
    decreases |batch|
  {
    if |batch| == 0 {
    } else {
      var before := batch[..|batch| - 1];
      if r == |batch| {
        RunningAreHeld(before, tasks[..|tasks| - 1], r - 1, x);
        assert batch[..r][..r - 1] == before[..r - 1];
      } else {
        RunningAreHeld(before, tasks[..|tasks| - 1], r, x);
        assert batch[..r] == before[..r];
      }
    }
  }

  lemma HeldMayStart(db: Db, batch: seq<Order>, lanes: nat, s: Fallback, r: nat, m: nat, x: int)
    requires Held(db, batch, s, r, x) && r <= m < |batch| && batch[m].id == x && Occurs(batch[..m + 1], x) <= lanes
    ensures Enabled(s, lanes, r)
  {
    hide Occurs, CountRunning, Untouched;
    RunningAreHeld(batch, s.tasks, r, x);
    OccursLater(batch, r, m, x);
  }

  lemma UntouchedThrough(a: Db, b: Db, c: Db, x: int)
    requires Untouched(a, b, x) && Untouched(b, c, x)
    ensures Untouched(a, c, x) && LookUp(a, x) == LookUp(c, x)
  {
    hide DataOf;
  }

  /** Take the orders in turn, ending each but those of order `x`, which are held once they have been looked up. */
  lemma {:induction false} Hold(db: Db, batch: seq<Order>, lanes: nat, r: nat, m: nat, x: int) returns (es: seq<nat>)
    requires r <= m + 1 <= |batch| && batch[m].id == x && Occurs(batch[..m + 1], x) <= lanes
    ensures Schedule(db, batch, lanes, es) && Held(db, batch, Play(db, batch, lanes, es), r, x)
    decreases r
  {
    if r == 0 {
      es := [];
    } else {
      hide Schedule, Play, Untouched, Enabled, Occurs;
      var i := r - 1;
      es := Hold(db, batch, lanes, i, m, x);
      var s := Play(db, batch, lanes, es);
      HeldMayStart(db, batch, lanes, s, i, m, x);
      if batch[i].id == x {
        Extend(db, batch, lanes, es, i);
        var u := Step(s, batch, i);
        StartedMayGoOn(u, lanes, i);
        Extend(db, batch, lanes, es + [i], i);
        SameIsUntouched(s.db, x);
        UntouchedThrough(db, s.db, s.db, x);
        es := es + [i] + [i];
      } else {
        var fs := End(db, batch, lanes, es, i);
        UntouchedThrough(db, s.db, Play(db, batch, lanes, fs).db, x);
        es := fs;
      }
    }
  }

  lemma StartedMayGoOn(s: Fallback, lanes: nat, i: nat)
    requires i < |s.tasks| && s.tasks[i].Running()
    ensures Enabled(s, lanes, i)
  {
  }

  lemma SameIsUntouched(a: Db, x: int)
    ensures Untouched(a, a, x)
  {
  }

  /** Tasks `r` to `m` of order `x`, but for `q`, are held; all other tasks up to `m` have ended. */
  ghost predicate Releasing(batch: seq<Order>, s: Fallback, r: nat, m: nat, q: nat, x: int) {
    && r <= m + 1 <= |batch| == |s.tasks|
    && (forall j :: 0 <= j <= m ==>
          if batch[j].id == x && r <= j && j != q then s.tasks[j] == Seen(None) else s.tasks[j].Done?)
    && (forall j :: m < j < |batch| ==> s.tasks[j].Waiting?)
  }

  /** The held tasks had found nothing, and are refused one after the other. */
  lemma {:induction false} Release(
    db: Db, batch: seq<Order>, lanes: nat, es: seq<nat>, r: nat, m: nat, q: nat, x: int) returns (fs: seq<nat>)
    requires Schedule(db, batch, lanes, es) && Releasing(batch, Play(db, batch, lanes, es), r, m, q, x)
    requires x in Play(db, batch, lanes, es).db.orders
    ensures Schedule(db, batch, lanes, fs) && Releasing(batch, Play(db, batch, lanes, fs), m + 1, m, q, x)
    ensures Play(db, batch, lanes, fs).db == Play(db, batch, lanes, es).db
    decreases m + 1 - r
  {
    hide Schedule, Play;
    if r == m + 1 {
      fs := es;
    } else if batch[r].id != x || r == q {
      fs := Release(db, batch, lanes, es, r + 1, m, q, x);
    } else {
      EndRefused(db, batch, lanes, es, r);
      fs := Release(db, batch, lanes, es + [r], r + 1, m, q, x);
    }
  }

  /** The first `r` orders have ended and no other has begun. */
  ghost predicate EndedUpTo(s: Fallback, batch: seq<Order>, r: nat) {
    && r <= |batch| == |s.tasks|
    && (forall j :: 0 <= j < r ==> s.tasks[j].Done?)
    && (forall j :: r <= j < |batch| ==> s.tasks[j].Waiting?)
  }

  /** No order from `r` on embeds children of this kind for order `x`. */
  predicate EmbedNoMore(batch: seq<Order>, r: nat, k: Kind, x: int) {
    forall j :: r <= j < |batch| && batch[j].id == x ==> Embedded(batch[j], k) == []
  }

  lemma {:induction false} EndTheRest(db: Db, batch: seq<Order>, lanes: nat, es: seq<nat>, r: nat, x: int)
    returns (fs: seq<nat>)
    requires Schedule(db, batch, lanes, es) && EndedUpTo(Play(db, batch, lanes, es), batch, r) && lanes > 0
    ensures Schedule(db, batch, lanes, fs) && Settled(Play(db, batch, lanes, fs))
    ensures (forall j :: r <= j < |batch| ==> batch[j].id != x) ==>
      Untouched(Play(db, batch, lanes, es).db, Play(db, batch, lanes, fs).db, x)
    ensures forall k :: EmbedNoMore(batch, r, k, x) ==>
      KeepsChildren(Play(db, batch, lanes, es).db, Play(db, batch, lanes, fs).db, k, x)
    decreases |batch| - r
  {
    hide Schedule, Play, Untouched, Embedded, KeepsChildren;
    var s := Play(db, batch, lanes, es);
    SameIsUntouched(s.db, x);
    UntouchedKeeps(s.db, s.db, x);
    if r == |batch| {
      fs := es;
    } else {
      NoneRuns(s.tasks);
      var next := End(db, batch, lanes, es, r);
      var t := Play(db, batch, lanes, next);
      fs := EndTheRest(db, batch, lanes, next, r + 1, x);
      var u := Play(db, batch, lanes, fs);
      if batch[r].id != x {
        UntouchedKeeps(s.db, t.db, x);
      }
      if forall j :: r <= j < |batch| ==> batch[j].id != x {
        UntouchedThrough(s.db, t.db, u.db, x);
      }
      forall k | EmbedNoMore(batch, r, k, x)
        ensures KeepsChildren(s.db, u.db, k, x)
      {
        assert EmbedNoMore(batch, r + 1, k, x);
        KeepsThrough(s.db, t.db, u.db, k, x);
      }
    }
  }

  lemma UntouchedKeeps(a: Db, b: Db, x: int)
    requires Untouched(a, b, x)
    ensures forall k :: KeepsChildren(a, b, k, x)
  {
  }

  lemma KeepsThrough(a: Db, b: Db, c: Db, k: Kind, x: int)
    requires KeepsChildren(a, b, k, x) && KeepsChildren(b, c, k, x)
    ensures KeepsChildren(a, c, k, x)
  {
  }

  // ----- what duplicates of an order can bring about

  /** The tables hold the columns of this order and the children it embeds. */
  ghost predicate Prevails(now: Db, o: Order) {
    && o.id in now.orders && now.orders[o.id].columns == o.columns
    && forall k :: Embedded(o, k) != [] ==> DataOf(Table(now, k), o.id) == Embedded(o, k)
  }

  /** Orders before `q` have ended, and `q` has been taken but not yet looked up; orders from `r` on have not begun. */
  ghost predicate AllButOne(s: Fallback, batch: seq<Order>, r: nat, q: nat) {
    && q < r <= |batch| == |s.tasks| && s.tasks[q].Started?
    && (forall j :: 0 <= j < r && j != q ==> s.tasks[j].Done?)
    && (forall j :: r <= j < |batch| ==> s.tasks[j].Waiting?)
  }

  lemma {:induction false} EndTheFirst(db: Db, batch: seq<Order>, lanes: nat, r: nat) returns (es: seq<nat>)
    requires r <= |batch| && lanes > 0
    ensures Schedule(db, batch, lanes, es) && EndedUpTo(Play(db, batch, lanes, es), batch, r)
  {
    if r == 0 {
      es := [];
    } else {
      hide Schedule, Play;
      es := EndTheFirst(db, batch, lanes, r - 1);
      NoneRuns(Play(db, batch, lanes, es).tasks);
      es := End(db, batch, lanes, es, r - 1);
    }
  }

  lemma {:induction false} OneRuns(tasks: seq<Task>, q: nat)
    requires q < |tasks| && forall j :: 0 <= j < |tasks| && j != q ==> !tasks[j].Running()
    ensures CountRunning(tasks) <= 1
  {
    if q == |tasks| - 1 {
      NoneRuns(tasks[..|tasks| - 1]);
    } else {
      OneRuns(tasks[..|tasks| - 1], q);
    }
  }

  lemma {:induction false} EndAllButOne(db: Db, batch: seq<Order>, lanes: nat, es: seq<nat>, r: nat, q: nat)
    returns (fs: seq<nat>)
    requires Schedule(db, batch, lanes, es) && AllButOne(Play(db, batch, lanes, es), batch, r, q) && lanes > 1
    ensures Schedule(db, batch, lanes, fs) && AllButOne(Play(db, batch, lanes, fs), batch, |batch|, q)
    decreases |batch| - r
  {
    hide Schedule, Play;
    if r == |batch| {
      fs := es;
    } else {
      OneRuns(Play(db, batch, lanes, es).tasks, q);
      var next := End(db, batch, lanes, es, r);
      fs := EndAllButOne(db, batch, lanes, next, r + 1, q);
    }
  }

  /** On two lanes any order can be written last: one lane takes it, and all others end on the other. */
  lemma AnyDuplicateCanPrevail(db: Db, batch: seq<Order>, lanes: nat, q: nat) returns (after: Db)
    requires q < |batch| && lanes > 1
    ensures CanEndAs(db, batch, lanes, after) && Prevails(after, batch[q])
  {
    hide Schedule, Play, Upserted, Prevails;
    var es := EndTheFirst(db, batch, lanes, q);
    NoneRuns(Play(db, batch, lanes, es).tasks);
    Extend(db, batch, lanes, es, q);
    var held := EndAllButOne(db, batch, lanes, es + [q], q + 1, q);
    StartedMayGoOn(Play(db, batch, lanes, held), lanes, q);
    Extend(db, batch, lanes, held, q);
    var fs := EndUpserting(db, batch, lanes, held + [q], q);
    after := Play(db, batch, lanes, fs).db;
    UpsertedPrevails(Play(db, batch, lanes, held).db, after, batch[q]);
    assert EndsAs(db, batch, lanes, fs, after);
  }

  lemma UpsertedPrevails(before: Db, now: Db, o: Order)
    requires Upserted(before, now, o)
    ensures Prevails(now, o)
  {
  }

  /** A new order is held by all duplicates up to `m`; `q` inserts it, and the others are refused. */
  lemma InsertedAlone(db: Db, batch: seq<Order>, lanes: nat, q: nat, m: nat) returns (es: seq<nat>)
    requires q <= m < |batch| && batch[m].id == batch[q].id && batch[q].id !in db.orders
    requires Linked(db) && InReach(batch, lanes, m)
    ensures Schedule(db, batch, lanes, es) && EndedUpTo(Play(db, batch, lanes, es), batch, m + 1)
    ensures
      var now := Play(db, batch, lanes, es).db;
      Prevails(now, batch[q]) && forall k :: DataOf(Table(now, k), batch[q].id) == Embedded(batch[q], k)
  {
    hide Schedule, Play, Upserted, Occurs, Linked;
    var x := batch[q].id;
    var held := Hold(db, batch, lanes, m + 1, m, x);
    var s := Play(db, batch, lanes, held);
    NothingHeld(db, s.db, x);
    hide Untouched;
    var inserted := EndUpserting(db, batch, lanes, held, q);
    var now := Play(db, batch, lanes, inserted).db;
    UpsertedPrevails(s.db, now, batch[q]);
    UpsertedExactly(s.db, now, batch[q]);
    es := Release(db, batch, lanes, inserted, 0, m, q, x);
  }

  lemma NothingHeld(db: Db, now: Db, x: int)
    requires Linked(db) && Untouched(db, now, x) && x !in db.orders
    ensures LookUp(db, x) == LookUp(now, x) == None && forall k :: DataOf(Table(now, k), x) == []
  {
    NewHasNoChildren(db, x);
  }

  lemma UpsertedExactly(before: Db, now: Db, o: Order)
    requires Upserted(before, now, o) && forall k :: DataOf(Table(before, k), o.id) == []
    ensures forall k :: DataOf(Table(now, k), o.id) == Embedded(o, k)
  {
    hide DataOf;
  }

  /** The last order that is `q` or embeds children for the order of `q`. */
  lemma {:induction false} LastToHold(batch: seq<Order>, q: nat, k: Kind, n: nat) returns (m: nat)
    requires q < n <= |batch| && EmbedNoMore(batch, n, k, batch[q].id)
    ensures q <= m < n && (m == q || EmbedsSome(batch, m, batch[q].id, k)) && EmbedNoMore(batch, m + 1, k, batch[q].id)
    decreases n
  {
    if n - 1 == q || EmbedsSome(batch, n - 1, batch[q].id, k) {
      m := n - 1;
    } else {
      m := LastToHold(batch, q, k, n - 1);
    }
  }

  /** Children that can be dropped are: those that embed them are refused, and nobody else writes any. */
  lemma DroppedChildren(db: Db, batch: seq<Order>, lanes: nat, x: int, k: Kind) returns (after: Db)
    requires Linked(db) && x !in db.orders && CanDrop(batch, lanes, x, k)
    ensures CanEndAs(db, batch, lanes, after) && DataOf(Table(after, k), x) == []
  {
    hide Schedule, Play, Linked, Occurs, Prevails, Settled, DataOf;
    var q: nat :| EmbedsNone(batch, q, x, k) && InReach(batch, lanes, q);
    var m := LastToHold(batch, q, k, |batch|);
    assert InReach(batch, lanes, m);
    SomeLane(batch, lanes, m);
    var es := InsertedAlone(db, batch, lanes, q, m);
    var fs := EndTheRest(db, batch, lanes, es, m + 1, x);
    after := Play(db, batch, lanes, fs).db;
    assert KeepsChildren(Play(db, batch, lanes, es).db, after, k, x);
    assert EndsAs(db, batch, lanes, fs, after);
  }

  lemma SomeLane(batch: seq<Order>, lanes: nat, m: nat)
    requires InReach(batch, lanes, m)
    ensures lanes > 0
  {
    assert batch[..m + 1][..m] == batch[..m];
  }

  // ----- exactly when duplicates do no harm

  ghost predicate AlwaysEffect(db: Db, batch: seq<Order>, lanes: nat) {
    forall after :: CanEndAs(db, batch, lanes, after) ==> Effect(db, batch, after, true)
  }

  lemma EndsInRace(db: Db, batch: seq<Order>, lanes: nat, after: Db)
    requires Linked(db) && CanEndAs(db, batch, lanes, after)
    ensures RaceEffect(db, batch, after)
  {
    hide Inv, RaceEffect, Schedule, Play;
    var es :| EndsAs(db, batch, lanes, es, after);
    EveryInterleavingKeepsInv(db, batch, lanes, es);
    SettledIsRace(db, batch, Play(db, batch, lanes, es));
  }

  lemma OneLaneIsEnough(db: Db, batch: seq<Order>)
    requires Linked(db)
    ensures AlwaysEffect(db, batch, 1)
  {
    hide Effect, CanEndAs, OneByOne, Linked;
    forall after | CanEndAs(db, batch, 1, after)
      ensures Effect(db, batch, after, true)
    {
      OneLaneEndsAsTheLoop(db, batch, after);
      OneByOneEffect(db, batch);
    }
  }

  /** Duplicates that agree and of which nothing can be dropped end as in the loop. */
  lemma AgreementIsEnough(db: Db, batch: seq<Order>, lanes: nat)
    requires Linked(db) && DuplicatesAgree(batch) && NothingDropped(db, batch, lanes)
    ensures AlwaysEffect(db, batch, lanes)
  {
    hide Inv, LaneInv, Effect, Schedule, Play, Linked, DuplicatesAgree, AllSayTheLast, NothingDropped;
    forall after | CanEndAs(db, batch, lanes, after)
      ensures Effect(db, batch, after, true)
    {
      var es :| EndsAs(db, batch, lanes, es, after);
      AllSayTheLastExactlyWhen(db, batch);
      EveryInterleavingKeepsInv(db, batch, lanes, es);
      EveryInterleavingKeepsLaneInv(db, batch, lanes, es);
      SettledIsEffect(db, batch, lanes, Play(db, batch, lanes, es));
    }
  }

  lemma PrevailingSaysTheLast(db: Db, batch: seq<Order>, after: Db, q: nat)
    requires q < |batch| && Prevails(after, batch[q]) && Effect(db, batch, after, true)
    ensures SaysTheLast(db, batch, q)
  {
    hide DataOf, Linked, LastColumns, Expected;
  }

  lemma DroppingIsNoEffect(db: Db, batch: seq<Order>, lanes: nat, x: int, k: Kind, after: Db)
    requires CanDrop(batch, lanes, x, k) && DataOf(Table(after, k), x) == []
    ensures !Effect(db, batch, after, true)
  {
    hide Linked, InReach, LastColumns;
    KeepsOldExactlyWhen(DataOf(Table(db, k), x), batch, x, k);
    var p: nat :| EmbedsSome(batch, p, x, k);
  }

  /**
   Every interleaving ends as the loop over the batch would, exactly if there is one lane, or duplicates of an order
   agree, as far as they write, and no new order can lose all the children its duplicates embed.
   */
  lemma RacesAreHarmlessExactlyWhen(db: Db, batch: seq<Order>, lanes: nat)
    requires Linked(db) && lanes > 0
    ensures AlwaysEffect(db, batch, lanes) <==>
      lanes == 1 || (DuplicatesAgree(batch) && NothingDropped(db, batch, lanes))
  {
    hide Effect, Linked, DuplicatesAgree, SaysTheLast, Prevails, CanEndAs, CanDrop, DataOf;
    if lanes == 1 {
      OneLaneIsEnough(db, batch);
    } else if AlwaysEffect(db, batch, lanes) {
      forall q | 0 <= q < |batch|
        ensures SaysTheLast(db, batch, q)
      {
        var after := AnyDuplicateCanPrevail(db, batch, lanes, q);
        PrevailingSaysTheLast(db, batch, after, q);
      }
      AllSayTheLastExactlyWhen(db, batch);
      forall id, k | id !in db.orders
        ensures !CanDrop(batch, lanes, id, k)
      {
        if CanDrop(batch, lanes, id, k) {
          var after := DroppedChildren(db, batch, lanes, id, k);
          DroppingIsNoEffect(db, batch, lanes, id, k, after);
        }
      }
    } else if DuplicatesAgree(batch) && NothingDropped(db, batch, lanes) {
      AgreementIsEnough(db, batch, lanes);
    }
  }

  /** Two duplicates of a new order on two lanes or more: the first one's row can stay, the second one being refused. */
  lemma TheFirstDuplicateCanStay(a: Order, b: Order, lanes: nat) returns (after: Db)
    requires a.id == b.id && a.columns != b.columns && lanes >= 2
    ensures CanEndAs(Db(map[], [], [], 0), [a, b], lanes, after)
    ensures a.id in after.orders && after.orders[a.id].columns == a.columns
    ensures DataOf(after.lines, a.id) == a.lines && DataOf(after.payments, a.id) == a.payments
    ensures !SameUpToNewIds(Db(map[], [], [], 0), after, OneByOne(Db(map[], [], [], 0), [a, b]))
  {
    hide Schedule, Play;
    var db, batch := Db(map[], [], [], 0), [a, b];
    assert Occurs(batch[..2], a.id) == 2 by {
      assert batch[..2] == batch && batch[..1] == [a] && [a][..0] == [];
      assert Occurs([a], a.id) == 1;
    }
    var es := InsertedAlone(db, batch, lanes, 0, 1);
    after := Play(db, batch, lanes, es).db;
    assert EndsAs(db, batch, lanes, es, after);
    assert DataOf(Table(after, Lines), a.id) == Embedded(a, Lines);
    assert DataOf(Table(after, Payments), a.id) == Embedded(a, Payments);
    OneByOneEffect(db, batch);
    assert LastColumns("", batch, a.id) == b.columns;
  }
}
