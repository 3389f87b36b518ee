/**
 The concurrent upserts of a chunk of folded rows. Each row's task first looks up the id stored under its conflict
 key, then writes; a write whose connection drops, before or after it took effect, is tried once more. The database
 serves the tasks in any order.
 */
module ItemUpserts {
  import opened Wrappers
  import opened Text
  import opened ItemImport

  datatype Stored = Stored(id: nat, item: Item)

  type Table = map<Key, Stored>

  datatype Task = Waiting | Keyed(id: nat, retried: bool) | Upserted | Refused

  /** `nextId` and everything above it are ids never used yet. */
  datatype Import = Import(table: Table, tasks: seq<Task>, nextId: nat)

  datatype Event = Look(task: nat) | Lose(task: nat, applied: bool) | Write(task: nat)

  /** Oracle stores an empty string as NULL, which the key columns reject. */
  predicate MissingRequired(item: Item) {
    item.key.itemId == "" || item.key.region == ""
  }

  predicate Enabled(s: Import, e: Event) {
    && e.task < |s.tasks|
    && match e
       case Look(i) => s.tasks[i].Waiting?
       case Lose(i, _) => s.tasks[i].Keyed? && !s.tasks[i].retried
       case Write(i) => s.tasks[i].Keyed?
  }

  function Step(s: Import, items: seq<Item>, e: Event): Import
    requires Enabled(s, e) && |items| == |s.tasks|
  {
    var item := items[e.task];
    match e
    case Look(i) =>
      if MissingRequired(item) then s.(tasks := s.tasks[i := Refused])
      else if item.key in s.table then s.(tasks := s.tasks[i := Keyed(s.table[item.key].id, false)])
      else s.(tasks := s.tasks[i := Keyed(s.nextId, false)], nextId := s.nextId + 1)
    case Lose(i, applied) =>
      var id := s.tasks[i].id;
      s.(table := if applied then s.table[item.key := Stored(id, item)] else s.table,
         tasks := s.tasks[i := Keyed(id, true)])
    case Write(i) =>
      s.(table := s.table[item.key := Stored(s.tasks[i].id, item)], tasks := s.tasks[i := Upserted])
  }

  function Begin(table: Table, nextId: nat, items: seq<Item>): Import {
    Import(table, seq(|items|, _ => Waiting), nextId)
  }

  ghost predicate Settled(s: Import) {
    forall i :: 0 <= i < |s.tasks| ==> s.tasks[i].Upserted? || s.tasks[i].Refused?
  }

  /** The import after the database served `es` in that order. */
  function Play(start: Import, items: seq<Item>, es: seq<Event>): (s: Import)
    requires |items| == |start.tasks|
    ensures |s.tasks| == |items|
  {
    if |es| == 0 then start
    else
      var s := Play(start, items, es[..|es| - 1]);
      if Enabled(s, es[|es| - 1]) then Step(s, items, es[|es| - 1]) else s
  }

  /** Every event of `es` is possible when it comes. */
  ghost predicate Schedule(start: Import, items: seq<Item>, es: seq<Event>)
    requires |items| == |start.tasks|
  {
    |es| == 0 ||
    (Schedule(start, items, es[..|es| - 1]) && Enabled(Play(start, items, es[..|es| - 1]), es[|es| - 1]))
  }

  /** A row without a complete key is refused; any other gets the id of its key, or the next one, and may still fail. */
  lemma LookingUp(s: Import, items: seq<Item>, i: nat)
    requires |items| == |s.tasks| && Enabled(s, Look(i))
    ensures
      var t, key := Step(s, items, Look(i)), items[i].key;
      && t.table == s.table
      && (t.tasks[i].Refused? <==> key.itemId == "" || key.region == "")
      && (t.tasks[i].Keyed? <==> key.itemId != "" && key.region != "")
      && (t.tasks[i].Keyed? ==>
            && t.tasks[i].id == (if key in s.table then s.table[key].id else s.nextId)
            && Enabled(t, Write(i)) && forall applied :: Enabled(t, Lose(i, applied)))
  {
  }

  /** A dropped write leaves the row in the table or the table as it was, and is tried once more and no more. */
  lemma LosingAWrite(s: Import, items: seq<Item>, i: nat, applied: bool)
    requires |items| == |s.tasks| && Enabled(s, Lose(i, applied))
    ensures
      var t := Step(s, items, Lose(i, applied));
      && (if applied then items[i].key in t.table && t.table[items[i].key] == Stored(s.tasks[i].id, items[i])
          else t.table == s.table)
      && (forall k :: k != items[i].key ==> SameAt(s.table, t.table, k))
      && Enabled(t, Write(i)) && forall again :: !Enabled(t, Lose(i, again))
  {
  }

  // ----- invariant

  ghost predicate IdsBelow(t: Table, n: nat) {
    forall k :: k in t ==> t[k].id < n
  }

  ghost predicate IdsDiffer(t: Table) {
    forall a, b :: a in t && b in t && a != b ==> t[a].id != t[b].id
  }

  ghost predicate DistinctKeys(items: seq<Item>) {
    forall i, j :: 0 <= i < j < |items| ==> items[i].key != items[j].key
  }

  predicate SameAt(a: Table, b: Table, k: Key) {
    if k in a then k in b && a[k] == b[k] else k !in b
  }

  /** The id a row may have: the one stored before the import, or a new one. */
  predicate RightId(base: Table, first: nat, k: Key, id: nat) {
    if k in base then id == base[k].id else id >= first
  }

  ghost predicate Foreign(items: seq<Item>, k: Key) {
    forall i :: 0 <= i < |items| ==> items[i].key != k
  }

  ghost predicate TaskFits(base: Table, first: nat, t: Table, nextId: nat, item: Item, task: Task) {
    match task
    case Waiting => SameAt(base, t, item.key)
    case Refused => MissingRequired(item) && SameAt(base, t, item.key)
    case Keyed(id, _) =>
      && !MissingRequired(item) && id < nextId && RightId(base, first, item.key, id)
      && (SameAt(base, t, item.key) || (item.key in t && t[item.key] == Stored(id, item)))
      && forall k :: k in t && k != item.key ==> t[k].id != id
    case Upserted =>
      !MissingRequired(item) && item.key in t && t[item.key].item == item
      && RightId(base, first, item.key, t[item.key].id)
  }

  ghost predicate Inv(base: Table, first: nat, items: seq<Item>, s: Import) {
    && |s.tasks| == |items| && first <= s.nextId
    && IdsBelow(s.table, s.nextId) && IdsDiffer(s.table)
    && (forall i :: 0 <= i < |items| ==> TaskFits(base, first, s.table, s.nextId, items[i], s.tasks[i]))
    && (forall k :: Foreign(items, k) ==> SameAt(base, s.table, k))
    && (forall i, j :: 0 <= i < j < |items| && s.tasks[i].Keyed? && s.tasks[j].Keyed? ==>
          s.tasks[i].id != s.tasks[j].id)
  }

  lemma LookKeepsInv(base: Table, first: nat, items: seq<Item>, s: Import, i: nat)
    requires DistinctKeys(items) && IdsBelow(base, first) && Inv(base, first, items, s) && Enabled(s, Look(i))
    ensures Inv(base, first, items, Step(s, items, Look(i)))
  {
  }

  lemma PutKeepsInv(base: Table, first: nat, items: seq<Item>, s: Import, i: nat, task: Task)
    requires DistinctKeys(items) && Inv(base, first, items, s)
    requires i < |items| && s.tasks[i].Keyed?
    requires task == Upserted || task == Keyed(s.tasks[i].id, true)
    ensures
      var t := s.table[items[i].key := Stored(s.tasks[i].id, items[i])];
      Inv(base, first, items, s.(table := t, tasks := s.tasks[i := task]))
  {
    var t := s.table[items[i].key := Stored(s.tasks[i].id, items[i])];
    var after := s.(table := t, tasks := s.tasks[i := task]);
    assert TaskFits(base, first, s.table, s.nextId, items[i], s.tasks[i]);
    assert IdsDiffer(t);
    forall j | 0 <= j < |items|
      ensures TaskFits(base, first, t, s.nextId, items[j], after.tasks[j])
    {
      assert TaskFits(base, first, s.table, s.nextId, items[j], s.tasks[j]);
    }
    forall k | Foreign(items, k)
      ensures SameAt(base, t, k)
    {
      assert k != items[i].key;
    }
  }

  lemma StepKeepsInv(base: Table, first: nat, items: seq<Item>, s: Import, e: Event)
    requires DistinctKeys(items) && IdsBelow(base, first) && Inv(base, first, items, s) && Enabled(s, e)
    ensures Inv(base, first, items, Step(s, items, e))
  {
    match e
    case Look(i) =>
      LookKeepsInv(base, first, items, s, i);
    case Lose(i, applied) =>
      if applied {
        PutKeepsInv(base, first, items, s, i, Keyed(s.tasks[i].id, true));
      }
    case Write(i) =>
      PutKeepsInv(base, first, items, s, i, Upserted);
  }

  lemma BeginFits(base: Table, first: nat, items: seq<Item>)
    requires IdsBelow(base, first) && IdsDiffer(base)
    ensures Inv(base, first, items, Begin(base, first, items))
  {
  }

  lemma {:induction false} ScheduleKeepsInv(base: Table, first: nat, items: seq<Item>, es: seq<Event>)
    requires DistinctKeys(items) && IdsBelow(base, first) && IdsDiffer(base)
    requires Schedule(Begin(base, first, items), items, es)
    ensures Inv(base, first, items, Play(Begin(base, first, items), items, es))
  {
    if |es| == 0 {
      BeginFits(base, first, items);
    } else {
      ScheduleKeepsInv(base, first, items, es[..|es| - 1]);
      StepKeepsInv(base, first, items, Play(Begin(base, first, items), items, es[..|es| - 1]), es[|es| - 1]);
    }
  }

  // ----- outcome

  ghost predicate Rejected(items: seq<Item>, k: Key) {
    exists i :: 0 <= i < |items| && items[i].key == k && MissingRequired(items[i])
  }

  /**
   What the import should leave: each acceptable item under its key, with the id already stored there or a new one,
   and every other row as it was.
   */
  ghost predicate Outcome(base: Table, first: nat, items: seq<Item>, t: Table) {
    && (forall i :: 0 <= i < |items| ==>
          if MissingRequired(items[i]) then SameAt(base, t, items[i].key)
          else items[i].key in t && t[items[i].key].item == items[i]
               && RightId(base, first, items[i].key, t[items[i].key].id))
    && (forall k :: Foreign(items, k) ==> SameAt(base, t, k))
    && IdsDiffer(t)
  }

  /** The same rows, and the same id wherever a row was stored before. */
  ghost predicate SameUpToNewIds(base: Table, a: Table, b: Table) {
    && a.Keys == b.Keys
    && (forall k :: k in a ==> a[k].item == b[k].item)
    && (forall k :: k in a && k in base ==> a[k].id == b[k].id == base[k].id)
  }

  lemma SettledIsOutcome(base: Table, first: nat, items: seq<Item>, s: Import)
    requires Inv(base, first, items, s) && Settled(s)
    ensures Outcome(base, first, items, s.table)
  {
    forall i | 0 <= i < |items|
      ensures TaskFits(base, first, s.table, s.nextId, items[i], s.tasks[i])
    {
    }
  }

  lemma OutcomesAgree(base: Table, first: nat, items: seq<Item>, a: Table, b: Table)
    requires Outcome(base, first, items, a) && Outcome(base, first, items, b)
    ensures SameUpToNewIds(base, a, b)
  {
    forall k
      ensures k in a <==> k in b
      ensures k in a ==> a[k].item == b[k].item
      ensures k in a && k in base ==> a[k].id == b[k].id == base[k].id
    {
      if i :| 0 <= i < |items| && items[i].key == k {
        assert SameAt(base, a, k) || a[k].item == items[i];
      } else {
        assert Foreign(items, k);
      }
    }
  }

  /** Rows with pairwise distinct keys end the same way, up to new ids, in whatever order the database serves them. */
  lemma EveryInterleavingAgrees(base: Table, first: nat, items: seq<Item>, es: seq<Event>, fs: seq<Event>)
    requires DistinctKeys(items) && IdsBelow(base, first) && IdsDiffer(base)
    requires Schedule(Begin(base, first, items), items, es) && Settled(Play(Begin(base, first, items), items, es))
    requires Schedule(Begin(base, first, items), items, fs) && Settled(Play(Begin(base, first, items), items, fs))
    ensures Outcome(base, first, items, Play(Begin(base, first, items), items, es).table)
    ensures SameUpToNewIds(base, Play(Begin(base, first, items), items, es).table,
                           Play(Begin(base, first, items), items, fs).table)
  {
    var start := Begin(base, first, items);
    ScheduleKeepsInv(base, first, items, es);
    ScheduleKeepsInv(base, first, items, fs);
    SettledIsOutcome(base, first, items, Play(start, items, es));
    SettledIsOutcome(base, first, items, Play(start, items, fs));
    OutcomesAgree(base, first, items, Play(start, items, es).table, Play(start, items, fs).table);
  }

  lemma PlayOne(start: Import, items: seq<Item>, es: seq<Event>, e: Event)
    requires |items| == |start.tasks| && Schedule(start, items, es) && Enabled(Play(start, items, es), e)
    ensures Schedule(start, items, es + [e])
    ensures Play(start, items, es + [e]) == Step(Play(start, items, es), items, e)
  {
    assert (es + [e])[..|es|] == es;
  }

  lemma LookThenWrite(a: Item, b: Item, i: nat) returns (es: seq<Event>)
    requires i < 2 && a.key == b.key && !MissingRequired(a)
    ensures Schedule(Begin(map[], 0, [a, b]), [a, b], es) && Settled(Play(Begin(map[], 0, [a, b]), [a, b], es))
    ensures Play(Begin(map[], 0, [a, b]), [a, b], es).table == map[a.key := Stored(0, [a, b][1 - i])]
  {
    var items := [a, b];
    var start := Begin(map[], 0, items);
    PlayOne(start, items, [], Look(i));
    es := [] + [Look(i)];
    PlayOne(start, items, es, Write(i));
    es := es + [Write(i)];
    PlayOne(start, items, es, Look(1 - i));
    es := es + [Look(1 - i)];
    PlayOne(start, items, es, Write(1 - i));
    es := es + [Write(1 - i)];
  }

  /** Without the folding, two different rows under one key leave whichever the database happens to serve last. */
  lemma SharedKeysRace(a: Item, b: Item) returns (es: seq<Event>, fs: seq<Event>)
    requires a.key == b.key && !MissingRequired(a) && a != b
    ensures
      var items, start := [a, b], Begin(map[], 0, [a, b]);
      && Schedule(start, items, es) && Settled(Play(start, items, es))
      && Schedule(start, items, fs) && Settled(Play(start, items, fs))
      && !SameUpToNewIds(map[], Play(start, items, es).table, Play(start, items, fs).table)
  {
    es := LookThenWrite(a, b, 0);
    fs := LookThenWrite(a, b, 1);
    var left := Play(Begin(map[], 0, [a, b]), [a, b], es).table;
    var right := Play(Begin(map[], 0, [a, b]), [a, b], fs).table;
    assert a.key in left && left[a.key].item == b && right[a.key].item == a;
  }

  // ----- chunk after chunk

  lemma OutcomesCompose(base: Table, first: nat, a: seq<Item>, mid: Table, second: nat, b: seq<Item>, t: Table)
    requires DistinctKeys(a + b) && first <= second
    requires Outcome(base, first, a, mid) && Outcome(mid, second, b, t)
    ensures Outcome(base, first, a + b, t)
  {
    var items := a + b;
    forall i | 0 <= i < |a|
      ensures Foreign(b, a[i].key)
    {
      forall j | 0 <= j < |b|
        ensures b[j].key != a[i].key
      {
        assert items[i] == a[i] && items[|a| + j] == b[j];
      }
    }
    forall j | 0 <= j < |b|
      ensures Foreign(a, b[j].key)
    {
      forall i | 0 <= i < |a|
        ensures a[i].key != b[j].key
      {
        assert items[i] == a[i] && items[|a| + j] == b[j];
      }
    }
    forall i | 0 <= i < |items|
      ensures if MissingRequired(items[i]) then SameAt(base, t, items[i].key)
              else items[i].key in t && t[items[i].key].item == items[i]
                   && RightId(base, first, items[i].key, t[items[i].key].id)
    {
      if i < |a| {
        assert items[i] == a[i];
        assert SameAt(mid, t, a[i].key);
      } else {
        assert items[i] == b[i - |a|];
        assert SameAt(base, mid, items[i].key);
      }
    }
    forall k | Foreign(items, k)
      ensures SameAt(base, t, k)
    {
      assert Foreign(a, k) by {
        assert forall i :: 0 <= i < |a| ==> items[i] == a[i];
      }
      assert Foreign(b, k) by {
        assert forall j :: 0 <= j < |b| ==> items[|a| + j] == b[j];
      }
    }
  }

  // ----- the service

  lemma SlicesAreDistinct(items: seq<Item>, i: nat, end: nat)
    requires DistinctKeys(items) && i <= end <= |items|
    ensures DistinctKeys(items[i..end]) && items[..i] + items[i..end] == items[..end] && DistinctKeys(items[..end])
  {
  }

  lemma EmptyOutcome(base: Table, first: nat)
    requires IdsDiffer(base)
    ensures Outcome(base, first, [], base)
  {
  }

  function Remaining(task: Task): nat {
    match task
    case Waiting => 3
    case Keyed(_, retried) => if retried then 1 else 2
    case _ => 0
  }

  function Work(tasks: seq<Task>): nat {
    if |tasks| == 0 then 0 else Work(tasks[..|tasks| - 1]) + Remaining(tasks[|tasks| - 1])
  }

  lemma {:induction false} WorkAfter(tasks: seq<Task>, i: nat, task: Task)
    requires i < |tasks|
    ensures Work(tasks[i := task]) == Work(tasks) - Remaining(tasks[i]) + Remaining(task)
  {
    var last := |tasks| - 1;
    if i < last {
      WorkAfter(tasks[..last], i, task);
      assert tasks[i := task][..last] == tasks[..last][i := task];
    } else {
      assert tasks[i := task][..last] == tasks[..last];
    }
  }

  function NextEvent(s: Import, i: nat, drop: bool, applied: bool): Event
    requires i < |s.tasks|
  {
    if s.tasks[i].Waiting? then Look(i)
    else if drop && s.tasks[i].Keyed? && !s.tasks[i].retried then Lose(i, applied)
    else Write(i)
  }

  lemma ServingMakesProgress(
    base: Table, first: nat, items: seq<Item>, s: Import, i: nat, drop: bool, applied: bool)
    requires DistinctKeys(items) && IdsBelow(base, first) && Inv(base, first, items, s)
    requires i < |s.tasks| && Remaining(s.tasks[i]) > 0
    ensures
      var e := NextEvent(s, i, drop, applied);
      && Enabled(s, e)
      && Inv(base, first, items, Step(s, items, e))
      && Work(Step(s, items, e).tasks) < Work(s.tasks)
  {
    var e := NextEvent(s, i, drop, applied);
    StepKeepsInv(base, first, items, s, e);
    var t := Step(s, items, e);
    WorkAfter(s.tasks, i, t.tasks[i]);
    assert t.tasks == s.tasks[i := t.tasks[i]];
  }

  function CountRejected(items: seq<Item>): nat {
    if |items| == 0 then 0
    else CountRejected(items[..|items| - 1]) + if MissingRequired(items[|items| - 1]) then 1 else 0
  }

  lemma NoneRejected()
    ensures CountRejected([]) == 0
  {
  }

  lemma {:induction false} CountRejectedSplits(a: seq<Item>, b: seq<Item>)
    ensures CountRejected(a + b) == CountRejected(a) + CountRejected(b)
    ensures CountRejected(b) <= |b|
    decreases |b|
  {
    if |b| == 0 {
      assert a + b == a;
    } else {
      CountRejectedSplits(a, b[..|b| - 1]);
      assert (a + b)[..|a + b| - 1] == a + b[..|b| - 1];
    }
  }

  function ItemsOf(rows: seq<Row>): seq<Item> {
    seq(|rows|, i requires 0 <= i < |rows| => MapRow(rows[i]))
  }

  lemma ItemsKeepTheirKeys(f: Folding, rows: seq<Row>, columns: set<Column>, i: nat)
    requires Folds(f, rows, columns) && i < |f.order|
    ensures ItemsOf(Merged(f))[i].key == f.order[i]
  {
    assert f.order[i] in f.order;
    assert Filed(f.merged[f.order[i]], f.order[i], columns);
  }

  lemma FoldedItemsAreDistinct(f: Folding, rows: seq<Row>, columns: set<Column>)
    requires Folds(f, rows, columns)
    ensures DistinctKeys(ItemsOf(Merged(f)))
  {
    var items := ItemsOf(Merged(f));
    forall i, j | 0 <= i < j < |items|
      ensures items[i].key != items[j].key
    {
      ItemsKeepTheirKeys(f, rows, columns, i);
      ItemsKeepTheirKeys(f, rows, columns, j);
    }
  }

  // ----- what the import leaves

  /** A source row has this key, and both of its columns hold something. */
  ghost predicate Sourced(source: seq<Row>, k: Key) {
    Complete(k) && exists i :: 0 <= i < |source| && IsKeyOf(source[i], k)
  }

  /** The item has this key, and every field from the last source row with the key that gives it. */
  ghost predicate SaysItAll(item: Item, source: seq<Row>, columns: set<Column>, k: Key) {
    && item.key == k
    && (AllSpelledOnce(columns) ==>
          DetailsSay(item, source, k) && TypeSays(item, source, k) && NameSays(item, source, k))
  }

  /** Every complete key of the source has a row of its own, with the id it had before; all other rows are untouched. */
  ghost predicate Imported(base: Table, first: nat, source: seq<Row>, columns: set<Column>, t: Table) {
    && (forall k :: Sourced(source, k) ==>
          && k in t && SaysItAll(t[k].item, source, columns, k)
          && if k in base then t[k].id == base[k].id else t[k].id >= first)
    && (forall k :: !Sourced(source, k) ==> SameAt(base, t, k))
  }

  lemma SourcedIsFolded(source: seq<Row>, k: Key)
    ensures SomeRowHas(source, k) <==> exists i :: 0 <= i < |source| && IsKeyOf(source[i], k)
  {
    hide KeyOf, IsKeyOf;
    forall i | 0 <= i < |source|
      ensures IsKeyOf(source[i], k) <==> KeyOf(source[i]) == k
    {
      KeyIsReadOffTheCells(source[i], k);
    }
  }

  /** The place of a folded key among the items. */
  lemma ItemOfKey(f: Folding, rows: seq<Row>, columns: set<Column>, k: Key)
    requires Folds(f, rows, columns)
    ensures k in f.merged <==> !Foreign(ItemsOf(Merged(f)), k)
    ensures k in f.merged ==> MapRow(f.merged[k]) in ItemsOf(Merged(f))
  {
    hide MapRow;
    var items := ItemsOf(Merged(f));
    if k in f.merged {
      assert k in f.order;
      var i :| 0 <= i < |f.order| && f.order[i] == k;
      ItemsKeepTheirKeys(f, rows, columns, i);
      assert items[i] == MapRow(f.merged[k]);
    }
    forall i | 0 <= i < |items|
      ensures items[i].key in f.merged
    {
      ItemsKeepTheirKeys(f, rows, columns, i);
      assert f.order[i] in f.order;
    }
  }

  lemma KeyIsFolded(f: Folding, rows: seq<Row>, columns: set<Column>, k: Key)
    requires Folds(f, rows, columns)
    ensures SomeRowHas(rows, k) <==> k in f.merged
    ensures SomeRowHas(rows, k) <==> !Foreign(ItemsOf(Merged(f)), k)
    ensures SomeRowHas(rows, k) ==> MapRow(f.merged[k]) in ItemsOf(Merged(f)) && MapRow(f.merged[k]).key == k
  {
    hide MapRow;
    ItemOfKey(f, rows, columns, k);
    if k in f.merged {
      assert Filed(f.merged[k], k, columns);
      MappedRow(f.merged[k]);
    }
  }

  lemma FoldedSaysItAll(source: seq<Row>, columns: set<Column>, k: Key)
    requires RowsOver(source, columns) && KeySpelledOnce(columns) && k in Fold(source).merged
    ensures SaysItAll(MapRow(Fold(source).merged[k]), source, columns, k)
  {
    hide MapRow, Fold, RowsOver, KeySpelledOnce, DetailsSay, TypeSays, NameSays, AllSpelledOnce;
    FoldFolds(source, columns);
    assert Filed(Fold(source).merged[k], k, columns);
    MappedRow(Fold(source).merged[k]);
    if AllSpelledOnce(columns) {
      FoldedItemSays(source, columns, k);
    }
  }

  /** What the import does to the row under one key. */
  lemma OutcomeAtKey(base: Table, first: nat, source: seq<Row>, columns: set<Column>, t: Table, k: Key)
    requires RowsOver(source, columns) && KeySpelledOnce(columns) && Folds(Fold(source), source, columns)
    requires Outcome(base, first, ItemsOf(Merged(Fold(source))), t)
    ensures
      if Sourced(source, k)
      then k in t && SaysItAll(t[k].item, source, columns, k) && RightId(base, first, k, t[k].id)
      else SameAt(base, t, k)
  {
    hide Fold, MapRow, IsKeyOf, RowsOver, KeySpelledOnce, SaysItAll;
    var f := Fold(source);
    var items := ItemsOf(Merged(f));
    SourcedIsFolded(source, k);
    KeyIsFolded(f, source, columns, k);
    hide Folds, ItemsOf, Merged;
    if k in f.merged {
      FoldedSaysItAll(source, columns, k);
      var i :| 0 <= i < |items| && items[i] == MapRow(f.merged[k]);
      assert items[i].key == k;
    }
  }

  lemma OutcomeImports(base: Table, first: nat, source: seq<Row>, columns: set<Column>, t: Table)
    requires RowsOver(source, columns) && KeySpelledOnce(columns) && Folds(Fold(source), source, columns)
    requires Outcome(base, first, ItemsOf(Merged(Fold(source))), t)
    ensures Imported(base, first, source, columns, t)
  {
    forall k
      ensures
        if Sourced(source, k)
        then k in t && SaysItAll(t[k].item, source, columns, k) && RightId(base, first, k, t[k].id)
        else SameAt(base, t, k)
    {
      OutcomeAtKey(base, first, source, columns, t, k);
    }
  }

  /** Rows of one region that give different item ids are not folded: each is found under its own id. */
  lemma DifferentIdsStayApart(
    base: Table, first: nat, source: seq<Row>, columns: set<Column>, t: Table, i: nat, j: nat)
    requires Imported(base, first, source, columns, t) && i < |source| && j < |source|
    requires Gives(source[i], "ITEM_ID") && Gives(source[j], "ITEM_ID")
    requires Str(source[i], "REGION") == Str(source[j], "REGION") != ""
    ensures
      var region := Str(source[i], "REGION");
      var a, b := Trim(Str(source[i], "ITEM_ID")), Trim(Str(source[j], "ITEM_ID"));
      && Key(a, region) in t && t[Key(a, region)].item.key == Key(a, region)
      && Key(b, region) in t && t[Key(b, region)].item.key == Key(b, region)
  {
    hide Str, DetailsSay, TypeSays, NameSays;
    var region := Str(source[i], "REGION");
    forall n | n in {i, j}
      ensures Sourced(source, Key(Trim(Str(source[n], "ITEM_ID")), region))
    {
      assert IsKeyOf(source[n], Key(Trim(Str(source[n], "ITEM_ID")), region));
    }
  }

  predicate Complete(k: Key) {
    k.itemId != "" && k.region != ""
  }

  /** The keys of the source rows, those that are complete or those that are not. */
  ghost function SourceKeys(source: seq<Row>, complete: bool): set<Key> {
    set i | 0 <= i < |source| && Complete(KeyOf(source[i])) == complete :: KeyOf(source[i])
  }

  ghost function ItemKeys(items: seq<Item>, complete: bool): set<Key> {
    set i | 0 <= i < |items| && Complete(items[i].key) == complete :: items[i].key
  }

  predicate HasKey(items: seq<Item>, i: int, complete: bool, k: Key) {
    0 <= i < |items| && items[i].key == k && Complete(k) == complete
  }

  lemma InItemKeys(items: seq<Item>, complete: bool, k: Key)
    ensures k in ItemKeys(items, complete) <==> exists i :: HasKey(items, i, complete, k)
  {
    if i :| HasKey(items, i, complete, k) {
      assert items[i].key in ItemKeys(items, complete);
    }
    if k in ItemKeys(items, complete) {
      var i :| 0 <= i < |items| && Complete(items[i].key) == complete && items[i].key == k;
      assert HasKey(items, i, complete, k);
    }
  }

  lemma OneMoreKey(items: seq<Item>, complete: bool, k: Key)
    requires |items| > 0
    ensures k in ItemKeys(items, complete) <==>
      k in ItemKeys(items[..|items| - 1], complete) || HasKey(items, |items| - 1, complete, k)
  {
    hide ItemKeys;
    var before := items[..|items| - 1];
    InItemKeys(items, complete, k);
    InItemKeys(before, complete, k);
    forall i | 0 <= i < |before|
      ensures HasKey(items, i, complete, k) <==> HasKey(before, i, complete, k)
    {
    }
    if i :| HasKey(before, i, complete, k) {
      assert HasKey(items, i, complete, k);
    }
  }

  lemma LastKeyIsNew(items: seq<Item>, complete: bool)
    requires |items| > 0 && DistinctKeys(items)
    ensures items[|items| - 1].key !in ItemKeys(items[..|items| - 1], complete) && DistinctKeys(items[..|items| - 1])
  {
  }

  lemma ItemKeysSnoc(items: seq<Item>, complete: bool)
    requires |items| > 0 && DistinctKeys(items)
    ensures
      var before, last := items[..|items| - 1], items[|items| - 1];
      && DistinctKeys(before)
      && |ItemKeys(items, complete)| == |ItemKeys(before, complete)| + if Complete(last.key) == complete then 1 else 0
  {
    LastKeyIsNew(items, complete);
    hide ItemKeys, DistinctKeys;
    var before, last := items[..|items| - 1], items[|items| - 1].key;
    forall k
      ensures k in ItemKeys(items, complete) <==>
        k in ItemKeys(before, complete) || (k == last && Complete(k) == complete)
    {
      OneMoreKey(items, complete, k);
    }
    assert ItemKeys(items, complete)
        == ItemKeys(before, complete) + if Complete(last) == complete then {last} else {};
  }

  lemma {:induction false} RejectedAreIncomplete(items: seq<Item>)
    requires DistinctKeys(items)
    ensures CountRejected(items) == |ItemKeys(items, false)|
    ensures |items| - CountRejected(items) == |ItemKeys(items, true)|
  {
    if |items| == 0 {
    } else {
      hide ItemKeys, DistinctKeys;
      ItemKeysSnoc(items, true);
      ItemKeysSnoc(items, false);
      RejectedAreIncomplete(items[..|items| - 1]);
    }
  }

  lemma FoldedKeysAreTheSource(source: seq<Row>, columns: set<Column>, complete: bool)
    requires Folds(Fold(source), source, columns)
    ensures ItemKeys(ItemsOf(Merged(Fold(source))), complete) == SourceKeys(source, complete)
  {
    hide Fold, MapRow, KeyOf;
    var f := Fold(source);
    var items := ItemsOf(Merged(f));
    forall k
      ensures k in ItemKeys(items, complete) <==> k in SourceKeys(source, complete)
    {
      KeyIsFolded(f, source, columns, k);
      if k in ItemKeys(items, complete) {
        var i :| 0 <= i < |items| && Complete(items[i].key) == complete && items[i].key == k;
        assert !Foreign(items, k);
      }
      if k in SourceKeys(source, complete) {
        assert SomeRowHas(source, k);
        var i :| 0 <= i < |items| && items[i] == MapRow(f.merged[k]);
        assert items[i].key == k;
      }
    }
  }

  method Tally(items: seq<Item>, tasks: seq<Task>) returns (imported: nat, skipped: nat)
    requires |tasks| == |items|
    requires forall i :: 0 <= i < |items| ==> tasks[i] == if MissingRequired(items[i]) then Refused else Upserted
    ensures skipped == CountRejected(items) && imported + skipped == |items|
  {
    imported, skipped := 0, 0;
    assert items[..0] == [];
    for i := 0 to |items|
      invariant skipped == CountRejected(items[..i]) && imported + skipped == i
    {
      assert items[..i + 1][..i] == items[..i];
      if tasks[i].Upserted? {
        imported := imported + 1;
      } else {
        skipped := skipped + 1;
      }
    }
    assert items[..|items|] == items;
  }

  lemma SettledTasks(base: Table, first: nat, items: seq<Item>, s: Import)
    requires Inv(base, first, items, s) && Settled(s)
    ensures forall i :: 0 <= i < |items| ==> s.tasks[i] == if MissingRequired(items[i]) then Refused else Upserted
  {
    forall i | 0 <= i < |items|
      ensures TaskFits(base, first, s.table, s.nextId, items[i], s.tasks[i])
    {
    }
  }

  class ItemTable {
    var rows: Table
    var nextId: nat

    ghost predicate Valid()
      reads this
    {
      IdsBelow(rows, nextId) && IdsDiffer(rows)
    }

    constructor ()
      ensures Valid() && rows == map[]
    {
      rows, nextId := map[], 0;
    }

    /** One chunk; the order in which its tasks are served, and which writes drop, is left open. */
    method UpsertChunk(items: seq<Item>) returns (imported: nat, skipped: nat)
      requires Valid() && DistinctKeys(items)
      modifies this
      ensures Valid() && old(nextId) <= nextId
      ensures Outcome(old(rows), old(nextId), items, rows)
      ensures skipped == CountRejected(items) && imported + skipped == |items|
    {
      var s := Begin(rows, nextId, items);
      ghost var base, first := rows, nextId;
      BeginFits(base, first, items);
      while exists i :: 0 <= i < |s.tasks| && Remaining(s.tasks[i]) > 0
        invariant Inv(base, first, items, s)
        decreases Work(s.tasks)
      {
        var i: nat :| i < |s.tasks| && Remaining(s.tasks[i]) > 0;
        var drop: bool, applied: bool := *, *;
        ServingMakesProgress(base, first, items, s, i, drop, applied);
        s := Step(s, items, NextEvent(s, i, drop, applied));
      }
      assert Settled(s);
      SettledIsOutcome(base, first, items, s);
      rows, nextId := s.table, s.nextId;
      SettledTasks(base, first, items, s);
      imported, skipped := Tally(items, s.tasks);
    }

    /** Chunk by chunk; the outcome does not depend on the chunk size. */
    method UpsertInChunks(items: seq<Item>, chunkSize: nat) returns (imported: nat, skipped: nat)
      requires Valid() && DistinctKeys(items) && chunkSize > 0
      modifies this
      ensures Valid()
      ensures Outcome(old(rows), old(nextId), items, rows)
      ensures skipped == CountRejected(items) && imported + skipped == |items|
    {
      hide Outcome, CountRejected, IdsBelow, IdsDiffer;
      imported, skipped := 0, 0;
      NoneRejected();
      ghost var base, first := rows, nextId;
      EmptyOutcome(base, first);
      assert items[..0] == [];
      var i := 0;
      while i < |items|
        invariant i <= |items| && Valid() && first <= nextId
        invariant Outcome(base, first, items[..i], rows)
        invariant skipped == CountRejected(items[..i]) && imported + skipped == i
      {
        var end := if i + chunkSize < |items| then i + chunkSize else |items|;
        ghost var mid, second := rows, nextId;
        SlicesAreDistinct(items, i, end);
        var chunk := items[i..end];
        var done, refused := UpsertChunk(chunk);
        OutcomesCompose(base, first, items[..i], mid, second, chunk, rows);
        CountRejectedSplits(items[..i], chunk);
        assert items[..i] + chunk == items[..end];
        imported, skipped := imported + done, skipped + refused;
        i := end;
      }
      assert items[..|items|] == items;
    }

    /** Fold the result set, then upsert it: the rows left depend on nothing but the source and what was stored. */
    method ImportFromOracle(source: seq<Row>, ghost columns: set<Column>, chunkSize: nat)
      returns (imported: nat, skipped: nat)
      requires Valid() && RowsOver(source, columns) && KeySpelledOnce(columns) && chunkSize > 0
      modifies this
      ensures Valid()
      ensures Folds(Fold(source), source, columns)
      ensures Outcome(old(rows), old(nextId), ItemsOf(Merged(Fold(source))), rows)
      ensures Imported(old(rows), old(nextId), source, columns, rows)
      ensures imported == |SourceKeys(source, true)| && skipped == |SourceKeys(source, false)|
    {
      FoldFolds(source, columns);
      FoldedItemsAreDistinct(Fold(source), source, columns);
      var folded := MergeDuplicateRows(source);
      imported, skipped := UpsertInChunks(ItemsOf(folded), chunkSize);
      OutcomeImports(old(rows), old(nextId), source, columns, rows);
      RejectedAreIncomplete(ItemsOf(folded));
      FoldedKeysAreTheSource(source, columns, true);
      FoldedKeysAreTheSource(source, columns, false);
    }
  }
}
