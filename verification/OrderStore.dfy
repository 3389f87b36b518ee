/** The backup tables of orders, lines and payments, and the three ways in which fetched orders are stored in them. */
module OrderStore {
  import opened Wrappers
  import opened BulkUpsert
  import opened PerOrderRaces
  import opened FallbackOutcomes
  import opened FallbackSchedules

  // ----- serving the lanes

  function Work(tasks: seq<Task>): nat {
    if |tasks| == 0 then 0 else Work(tasks[..|tasks| - 1]) + Remaining(tasks[|tasks| - 1])
  }

  function CountDone(tasks: seq<Task>, ok: bool): nat {
    if |tasks| == 0 then 0 else CountDone(tasks[..|tasks| - 1], ok) + if tasks[|tasks| - 1] == Done(ok) then 1 else 0
  }

  lemma {:induction false} AfterOneTask(tasks: seq<Task>, i: nat, t: Task, ok: bool)
    requires i < |tasks|
    ensures Work(tasks[i := t]) == Work(tasks) - Remaining(tasks[i]) + Remaining(t)
    ensures CountDone(tasks[i := t], ok)
         == CountDone(tasks, ok) - (if tasks[i] == Done(ok) then 1 else 0) + (if t == Done(ok) then 1 else 0)
  {
    var before := tasks[..|tasks| - 1];
    if i == |tasks| - 1 {
      assert tasks[i := t][..|tasks| - 1] == before;
    } else {
      AfterOneTask(before, i, t, ok);
      assert tasks[i := t][..|tasks| - 1] == before[i := t];
    }
  }

  lemma ServedOnce(s: Fallback, batch: seq<Order>, lanes: nat, i: nat)
    requires |s.tasks| == |batch| && Enabled(s, lanes, i)
    ensures
      var u := Step(s, batch, i);
      && |u.tasks| == |batch| && Work(u.tasks) < Work(s.tasks)
      && forall ok :: CountDone(u.tasks, ok) == CountDone(s.tasks, ok) + if u.tasks[i] == Done(ok) then 1 else 0
  {
    hide Step, Work, CountDone, Remaining;
    StepMoves(s, batch, i);
    AfterOneTask(s.tasks, i, Step(s, batch, i).tasks[i], true);
    AfterOneTask(s.tasks, i, Step(s, batch, i).tasks[i], false);
  }

  /** As long as a task has not ended, the database has one to serve. */
  lemma SomeoneCanMove(s: Fallback, lanes: nat)
    requires lanes > 0 && exists i :: 0 <= i < |s.tasks| && !s.tasks[i].Done?
    ensures exists i: nat :: i < |s.tasks| && Enabled(s, lanes, i)
  {
    if i: nat :| i < |s.tasks| && s.tasks[i].Running() {
      assert Enabled(s, lanes, i);
    } else {
      NoneRuns(s.tasks);
      var i :| 0 <= i < |s.tasks| && s.tasks[i].Waiting?;
      var first := FirstWaiting(s.tasks, i);
      assert Enabled(s, lanes, first);
    }
  }

  lemma {:induction false} FirstWaiting(tasks: seq<Task>, i: nat) returns (first: nat)
    requires i < |tasks| && tasks[i].Waiting?
    ensures first <= i && tasks[first].Waiting? && forall j :: 0 <= j < first ==> !tasks[j].Waiting?
  {
    if j: nat :| j < i && tasks[j].Waiting? {
      first := FirstWaiting(tasks, j);
    } else {
      first := i;
    }
  }

  lemma NothingServed(db: Db, batch: seq<Order>, lanes: nat)
    ensures Schedule(db, batch, lanes, []) && Play(db, batch, lanes, []) == Begin(db, batch)
    ensures CountDone(Begin(db, batch).tasks, true) == 0 == CountDone(Begin(db, batch).tasks, false)
  {
    NoneDone(|batch|, true);
    NoneDone(|batch|, false);
  }

  lemma {:induction false} NoneDone(n: nat, ok: bool)
    ensures CountDone(seq(n, _ => Waiting), ok) == 0
  {
    if n == 0 {
    } else {
      assert seq(n, _ => Waiting)[..n - 1] == seq(n - 1, _ => Waiting);
      NoneDone(n - 1, ok);
    }
  }

  lemma {:induction false} AllCounted(tasks: seq<Task>)
    requires forall i :: 0 <= i < |tasks| ==> tasks[i].Done?
    ensures CountDone(tasks, true) + CountDone(tasks, false) == |tasks|
  {
    if |tasks| == 0 {
    } else {
      AllCounted(tasks[..|tasks| - 1]);
    }
  }

  lemma {:induction false} CountNone(tasks: seq<Task>)
    requires forall i :: 0 <= i < |tasks| ==> tasks[i] != Done(false)
    ensures CountDone(tasks, false) == 0
  {
    if |tasks| == 0 {
    } else {
      CountNone(tasks[..|tasks| - 1]);
    }
  }

  /** On one lane, or without duplicates, no order is refused. */
  lemma NoneRefused(db: Db, batch: seq<Order>, lanes: nat, es: seq<nat>)
    requires Linked(db) && Schedule(db, batch, lanes, es) && Settled(Play(db, batch, lanes, es))
    requires lanes == 1 || DistinctIds(batch)
    ensures CountDone(Play(db, batch, lanes, es).tasks, false) == 0
  {
    hide Schedule, Play, Inv, Sequential, CountDone;
    var s := Play(db, batch, lanes, es);
    if lanes == 1 {
      var r := OneLaneIsSequential(db, batch, es);
      SettledSequence(db, batch, s, r);
    } else {
      EveryInterleavingKeepsInv(db, batch, lanes, es);
      forall i | 0 <= i < |s.tasks|
        ensures s.tasks[i] != Done(false)
      {
        OnlyDuplicatesAreRefused(db, batch, s, i);
      }
    }
    CountNone(s.tasks);
  }

  lemma OnlyDuplicatesAreRefused(db: Db, batch: seq<Order>, s: Fallback, i: nat)
    requires Inv(db, batch, s) && Settled(s) && i < |batch| && DistinctIds(batch)
    ensures s.tasks[i] != Done(false)
  {
    hide Grown, ChildrenFrom;
    assert batch[i].id in Ids(batch);
    var j := SettledHeader(db, batch, s, batch[i].id);
    assert j == i;
  }

  // ----- batches

  /** Duplicates that are the same in everything; none at all, for one. */
  predicate DuplicatesIdentical(batch: seq<Order>) {
    forall i, j :: 0 <= i < j < |batch| && batch[i].id == batch[j].id ==> batch[i] == batch[j]
  }

  /** The fallback does no harm to this batch, whatever is stored. */
  ghost predicate SafeFallback(batch: seq<Order>, lanes: nat) {
    lanes == 1 || (DuplicatesAgree(batch) && forall id, k :: !CanDrop(batch, lanes, id, k))
  }

  lemma AreIdentical(batch: seq<Order>, i: nat, j: nat)
    requires DuplicatesIdentical(batch) && i < |batch| && j < |batch| && batch[i].id == batch[j].id
    ensures batch[i] == batch[j]
  {
    assert i < j || j < i ==> batch[i] == batch[j];
  }

  lemma IdenticalDuplicatesAreSafe(batch: seq<Order>, lanes: nat)
    requires DuplicatesIdentical(batch)
    ensures SafeFallback(batch, lanes)
  {
    hide Embedded, InReach;
    forall id, k
      ensures !CanDrop(batch, lanes, id, k)
    {
      if CanDrop(batch, lanes, id, k) {
        var q: nat :| EmbedsNone(batch, q, id, k);
        var p: nat :| EmbedsSome(batch, p, id, k);
        AreIdentical(batch, p, q);
      }
    }
  }

  function EndOf(all: seq<Order>, i: nat, batchSize: nat): nat
    requires i <= |all|
  {
    if i + batchSize < |all| then i + batchSize else |all|
  }

  /** Of the batches from `i` on, each that falls back does so unharmed. */
  ghost predicate SafeFallbacks(all: seq<Order>, i: nat, batchSize: nat, lanes: nat, commits: nat -> bool)
    requires batchSize > 0 && i <= |all|
    decreases |all| - i
  {
    i < |all| ==>
      && (commits(i) || SafeFallback(all[i..EndOf(all, i, batchSize)], lanes))
      && SafeFallbacks(all, EndOf(all, i, batchSize), batchSize, lanes, commits)
  }

  /** What a batch leaves, by whichever path. */
  lemma BatchOutcome(db: Db, batch: seq<Order>, lanes: nat, commits: bool, after: Db)
    requires Linked(db) && (after == Bulk(db, batch) || (!commits && CanEndAs(db, batch, lanes, after)))
    ensures RaceEffect(db, batch, after) && Linked(after)
    ensures commits || SafeFallback(batch, lanes) ==>
      HeaderEffect(db, batch, after) && ChildrenPossible(db, batch, after)
  {
    hide RaceEffect, HeaderEffect, ChildrenPossible, CanEndAs, Bulk;
    if after == Bulk(db, batch) {
      BulkEffect(db, batch);
      EffectIsRace(db, batch, after, false);
      EffectIsPossible(db, batch, after, false);
    } else {
      EndsInRace(db, batch, lanes, after);
      if SafeFallback(batch, lanes) {
        SafetyIsEnough(db, batch, lanes);
        EffectIsPossible(db, batch, after, true);
      }
    }
    RaceStaysLinked(db, batch, after);
  }

  lemma SafetyIsEnough(db: Db, batch: seq<Order>, lanes: nat)
    requires Linked(db) && SafeFallback(batch, lanes)
    ensures AlwaysEffect(db, batch, lanes)
  {
    hide Linked, DuplicatesAgree, CanDrop, AlwaysEffect;
    if lanes == 1 {
      OneLaneIsEnough(db, batch);
    } else {
      AgreementIsEnough(db, batch, lanes);
    }
  }

  lemma RaceStaysLinked(db: Db, batch: seq<Order>, after: Db)
    requires RaceEffect(db, batch, after)
    ensures Linked(after)
  {
  }

  lemma NothingRaces(db: Db)
    requires Linked(db)
    ensures RaceEffect(db, [], db)
  {
  }

  // ----- the service

  lemma WithoutNoParents(rows: seq<Child>)
    ensures WithoutParents(rows, {}) == rows
  {
  }

  method CollectLatest(batch: seq<Order>) returns (list: seq<Order>)
    ensures list == LatestById(batch)
  {
    list := [];
    assert batch[..0] == [];
    for i := 0 to |batch|
      invariant list == LatestById(batch[..i])
    {
      list := Put(list, batch[i]);
      assert batch[..i + 1][..i] == batch[..i];
    }
    assert batch[..|batch|] == batch;
  }

  method BindHeaders(orders: map<int, Header>, nextId: nat, list: seq<Order>)
    returns (headers: map<int, Header>, next: nat)
    ensures (headers, next) == Assign(orders, nextId, list)
  {
    headers, next := orders, nextId;
    assert list[..0] == [];
    for i := 0 to |list|
      invariant (headers, next) == Assign(orders, nextId, list[..i])
    {
      assert list[..i + 1][..i] == list[..i];
      if list[i].id in orders {
        headers := headers[list[i].id := Header(orders[list[i].id].id, list[i].columns)];
      } else {
        headers := headers[list[i].id := Header(next, list[i].columns)];
        next := next + 1;
      }
    }
    assert list[..|list|] == list;
  }

  method BindRows(headers: map<int, Header>, list: seq<Order>, kind: Kind) returns (rows: seq<Child>)
    ensures rows == AllRows(headers, list, kind)
  {
    rows := [];
    assert list[..0] == [];
    for i := 0 to |list|
      invariant rows == AllRows(headers, list[..i], kind)
    {
      assert list[..i + 1][..i] == list[..i];
      rows := rows + Rows(list[i].id, ParentOf(headers, list[i].id), Embedded(list[i], kind));
    }
    assert list[..|list|] == list;
  }

  class BackupTables {
    var orders: map<int, Header>
    var lines: seq<Child>
    var payments: seq<Child>
    var nextId: nat

    ghost function State(): Db
      reads this
    {
      Db(orders, lines, payments, nextId)
    }

    constructor ()
      ensures State() == Db(map[], [], [], 0)
    {
      orders, lines, payments, nextId := map[], [], [], 0;
    }

    method UpsertOrder(o: Order)
      modifies this
      ensures State() == UpsertOne(old(State()), o)
    {
      var parentId: nat;
      if o.id in orders {
        parentId := orders[o.id].id;
      } else {
        parentId := nextId;
        nextId := nextId + 1;
      }
      orders := orders[o.id := Header(parentId, o.columns)];
      if |o.lines| > 0 {
        lines := WithoutOrder(lines, o.id) + Rows(o.id, parentId, o.lines);
      }
      if |o.payments| > 0 {
        payments := WithoutOrder(payments, o.id) + Rows(o.id, parentId, o.payments);
      }
    }

    /** The batch upserted order by order on `lanes` lanes; whose step the database serves next is left open. */
    method PerOrder(batch: seq<Order>, lanes: nat) returns (saved: nat, skipped: nat)
      requires lanes > 0
      modifies this
      ensures CanEndAs(old(State()), batch, lanes, State())
      ensures saved + skipped == |batch|
      ensures Linked(old(State())) && (lanes == 1 || DistinctIds(batch)) ==> skipped == 0
    {
      hide Schedule, Play, Step, Enabled, CountRunning, Linked;
      ghost var start := State();
      var s := Begin(Db(orders, lines, payments, nextId), batch);
      ghost var es: seq<nat> := [];
      NothingServed(start, batch, lanes);
      saved, skipped := 0, 0;
      while exists i :: 0 <= i < |s.tasks| && !s.tasks[i].Done?
        invariant |s.tasks| == |batch| && Schedule(start, batch, lanes, es) && s == Play(start, batch, lanes, es)
        invariant saved == CountDone(s.tasks, true) && skipped == CountDone(s.tasks, false)
        decreases Work(s.tasks)
      {
        SomeoneCanMove(s, lanes);
        var i: nat :| i < |s.tasks| && Enabled(s, lanes, i);
        Extend(start, batch, lanes, es, i);
        ServedOnce(s, batch, lanes, i);
        s := Step(s, batch, i);
        es := es + [i];
        if s.tasks[i] == Done(true) {
          saved := saved + 1;
        } else if s.tasks[i] == Done(false) {
          skipped := skipped + 1;
        }
      }
      AllCounted(s.tasks);
      orders, lines, payments, nextId := s.db.orders, s.db.lines, s.db.payments, s.db.nextId;
      assert State() == s.db;
      assert EndsAs(start, batch, lanes, es, s.db);
      if Linked(start) && (lanes == 1 || DistinctIds(batch)) {
        NoneRefused(start, batch, lanes, es);
      }
    }

    /** One transaction: when it cannot be committed, nothing has changed. */
    method BulkUpsertOrders(batch: seq<Order>, commits: bool) returns (saved: Option<nat>)
      modifies this
      ensures State() == if saved.Some? then Bulk(old(State()), batch) else old(State())
      ensures saved.Some? ==> saved.value == |LatestById(batch)|
      ensures commits ==> saved.Some?
    {
      var list := CollectLatest(batch);
      if |list| == 0 {
        WithoutNoParents(lines);
        WithoutNoParents(payments);
        assert ParentIds(orders, list) == {};
        return Some(0);
      }
      var headers, next := BindHeaders(orders, nextId, list);
      var parents := ParentIds(headers, list);
      var newLines := BindRows(headers, list, Lines);
      var newPayments := BindRows(headers, list, Payments);
      if !commits {
        return None;
      }
      orders, nextId := headers, next;
      lines := WithoutParents(lines, parents) + newLines;
      payments := WithoutParents(payments, parents) + newPayments;
      return Some(|list|);
    }

    /** One batch: the bulk path when it commits, the per-order path otherwise. */
    method PersistBatch(batch: seq<Order>, lanes: nat, commits: bool) returns (saved: nat)
      requires lanes > 0
      modifies this
      ensures State() == Bulk(old(State()), batch) || (!commits && CanEndAs(old(State()), batch, lanes, State()))
    {
      hide CanEndAs, Bulk;
      var outcome := BulkUpsertOrders(batch, commits);
      if outcome.Some? {
        saved := outcome.value;
      } else {
        var skipped;
        saved, skipped := PerOrder(batch, lanes);
      }
    }

    /**
     Whatever the batch size, the lanes and the interleaving, and whichever batches fall back: one header per order, ids
     that existed kept, and columns and children each those of some duplicate. If each batch that falls back does so
     unharmed: the last duplicate wins, and each order's children are those of its last duplicate, or, where that embeds
     none, nothing or what there was; with nothing to lose, that is what the sequential loop over all of the orders
     leaves.
     */
    method PersistOrders(all: seq<Order>, batchSize: nat, lanes: nat, commits: nat -> bool) returns (saved: nat)
      requires batchSize > 0 && lanes > 0
      requires Linked(State())
      modifies this
      ensures RaceEffect(old(State()), all, State())
      ensures SafeFallbacks(all, 0, batchSize, lanes, commits) ==>
        HeaderEffect(old(State()), all, State()) && ChildrenPossible(old(State()), all, State())
      ensures SafeFallbacks(all, 0, batchSize, lanes, commits) && NothingToLose(old(State()), all) ==>
        SameUpToNewIds(old(State()), State(), OneByOne(old(State()), all))
    {
      hide HeaderEffect, ChildrenPossible, NothingToLose, SameUpToNewIds, Bulk, OneByOne, Linked, CanEndAs, RaceEffect;
      saved := 0;
      var i := 0;
      ghost var start := State();
      ghost var safe := SafeFallbacks(all, 0, batchSize, lanes, commits);
      NothingDoesNothing(start);
      NothingRaces(start);
      assert all[..0] == [];
      while i < |all|
        invariant i <= |all| && Linked(State())
        invariant RaceEffect(start, all[..i], State())
        invariant safe ==> SafeFallbacks(all, i, batchSize, lanes, commits)
        invariant safe ==> HeaderEffect(start, all[..i], State()) && ChildrenPossible(start, all[..i], State())
      {
        var end := EndOf(all, i, batchSize);
        var batch := all[i..end];
        ghost var mid := State();
        var n := PersistBatch(batch, lanes, commits(i));
        BatchOutcome(mid, batch, lanes, commits(i), State());
        RaceEffectsCompose(start, all[..i], mid, batch, State());
        if safe {
          HeaderEffectsCompose(start, all[..i], mid, batch, State());
          ChildrenCompose(start, all[..i], mid, batch, State());
        }
        assert all[..i] + batch == all[..end];
        saved, i := saved + n, end;
      }
      assert all[..|all|] == all;
      if safe && NothingToLose(start, all) {
        MixturesAgree(start, all, State());
      }
    }
  }
}
