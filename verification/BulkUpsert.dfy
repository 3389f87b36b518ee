/** Storing fetched orders with their lines and payments: one order at a time, or a whole batch at once. */
module BulkUpsert {
  import opened Wrappers

  datatype Kind = Lines | Payments

  /** An order as fetched: its id, its header columns, and the child objects it embeds. */
  datatype Order = Order(id: int, columns: string, lines: seq<string>, payments: seq<string>)

  function Embedded(o: Order, kind: Kind): seq<string> {
    if kind == Lines then o.lines else o.payments
  }

  datatype Header = Header(id: nat, columns: string)

  datatype Child = Child(orderId: int, parentId: nat, data: string)

  /** The three tables; `nextId` and everything above it are ids never used yet. */
  datatype Db = Db(orders: map<int, Header>, lines: seq<Child>, payments: seq<Child>, nextId: nat)

  function Table(db: Db, kind: Kind): seq<Child> {
    if kind == Lines then db.lines else db.payments
  }

  function Rows(orderId: int, parentId: nat, data: seq<string>): seq<Child> {
    seq(|data|, i requires 0 <= i < |data| => Child(orderId, parentId, data[i]))
  }

  function WithoutOrder(rows: seq<Child>, orderId: int): seq<Child> {
    if rows == [] then []
    else (if rows[0].orderId == orderId then [] else [rows[0]]) + WithoutOrder(rows[1..], orderId)
  }

  function WithoutParents(rows: seq<Child>, parents: set<nat>): seq<Child> {
    if rows == [] then []
    else (if rows[0].parentId in parents then [] else [rows[0]]) + WithoutParents(rows[1..], parents)
  }

  // ----- one order at a time

  function ReplaceChildren(rows: seq<Child>, orderId: int, parentId: nat, data: seq<string>): seq<Child> {
    if data == [] then rows else WithoutOrder(rows, orderId) + Rows(orderId, parentId, data)
  }

  function UpsertOne(db: Db, o: Order): Db {
    var isNew := o.id !in db.orders;
    var parentId := if isNew then db.nextId else db.orders[o.id].id;
    Db(db.orders[o.id := Header(parentId, o.columns)],
       ReplaceChildren(db.lines, o.id, parentId, o.lines),
       ReplaceChildren(db.payments, o.id, parentId, o.payments),
       if isNew then db.nextId + 1 else db.nextId)
  }

  function OneByOne(db: Db, batch: seq<Order>): Db {
    if |batch| == 0 then db else UpsertOne(OneByOne(db, batch[..|batch| - 1]), batch[|batch| - 1])
  }

  // ----- a batch at once

  /** Insertion-ordered map semantics: a repeated id keeps its place and takes the later order. */
  function Put(list: seq<Order>, o: Order): seq<Order> {
    if list == [] then [o]
    else if list[0].id == o.id then [o] + list[1..]
    else [list[0]] + Put(list[1..], o)
  }

  function LatestById(batch: seq<Order>): seq<Order> {
    if |batch| == 0 then [] else Put(LatestById(batch[..|batch| - 1]), batch[|batch| - 1])
  }

  /** Headers written for `list`: an order already stored keeps its row id, a new one gets the next id. */
  function Assign(stored: map<int, Header>, nextId: nat, list: seq<Order>): (map<int, Header>, nat) {
    if |list| == 0 then (stored, nextId)
    else
      var (m, n) := Assign(stored, nextId, list[..|list| - 1]);
      var o := list[|list| - 1];
      if o.id in stored then (m[o.id := Header(stored[o.id].id, o.columns)], n)
      else (m[o.id := Header(n, o.columns)], n + 1)
  }

  function ParentOf(headers: map<int, Header>, orderId: int): nat {
    if orderId in headers then headers[orderId].id else 0
  }

  function ParentIds(headers: map<int, Header>, list: seq<Order>): set<nat> {
    set i | 0 <= i < |list| :: ParentOf(headers, list[i].id)
  }

  function AllRows(headers: map<int, Header>, list: seq<Order>, kind: Kind): seq<Child> {
    if |list| == 0 then []
    else
      var o := list[|list| - 1];
      AllRows(headers, list[..|list| - 1], kind) + Rows(o.id, ParentOf(headers, o.id), Embedded(o, kind))
  }

  function BulkList(db: Db, list: seq<Order>): Db {
    var (headers, nextId) := Assign(db.orders, db.nextId, list);
    var parents := ParentIds(headers, list);
    Db(headers,
       WithoutParents(db.lines, parents) + AllRows(headers, list, Lines),
       WithoutParents(db.payments, parents) + AllRows(headers, list, Payments),
       nextId)
  }

  function Bulk(db: Db, batch: seq<Order>): Db {
    BulkList(db, LatestById(batch))
  }

  // ----- what a reader of the tables sees

  /** The child data stored for one order, in table order. */
  function DataOf(rows: seq<Child>, orderId: int): seq<string> {
    if rows == [] then []
    else (if rows[0].orderId == orderId then [rows[0].data] else []) + DataOf(rows[1..], orderId)
  }

  function Ids(batch: seq<Order>): set<int> {
    set i | 0 <= i < |batch| :: batch[i].id
  }

  ghost predicate PointInto(rows: seq<Child>, headers: map<int, Header>) {
    forall row :: row in rows ==> row.orderId in headers && row.parentId == headers[row.orderId].id
  }

  ghost predicate IdsBelow(headers: map<int, Header>, n: nat) {
    forall a :: a in headers ==> headers[a].id < n
  }

  ghost predicate IdsDiffer(headers: map<int, Header>) {
    forall a, b :: a in headers && b in headers && a != b ==> headers[a].id != headers[b].id
  }

  /** Every child points at the header of its order, and no two headers share an id. */
  ghost predicate Linked(db: Db) {
    && PointInto(db.lines, db.orders)
    && PointInto(db.payments, db.orders)
    && IdsBelow(db.orders, db.nextId)
    && IdsDiffer(db.orders)
  }

  /** The last order of the batch with this id, or `stored` when there is none. */
  function LastColumns(stored: string, batch: seq<Order>, orderId: int): string {
    if |batch| == 0 then stored
    else if batch[|batch| - 1].id == orderId then batch[|batch| - 1].columns
    else LastColumns(stored, batch[..|batch| - 1], orderId)
  }

  /**
   The children an order should end with: those of its last duplicate in the batch. With `keepOld`, a duplicate that
   embeds none is passed over.
   */
  function Expected(stored: seq<string>, batch: seq<Order>, orderId: int, kind: Kind, keepOld: bool): seq<string> {
    if |batch| == 0 then stored
    else
      var o := batch[|batch| - 1];
      if o.id == orderId && (Embedded(o, kind) != [] || !keepOld) then Embedded(o, kind)
      else Expected(stored, batch[..|batch| - 1], orderId, kind, keepOld)
  }

  function ColumnsOf(headers: map<int, Header>, orderId: int): string {
    if orderId in headers then headers[orderId].columns else ""
  }

  /** The headers after storing `batch`: one per order id, ids that existed kept, the last duplicate's columns. */
  ghost predicate HeaderEffect(db: Db, batch: seq<Order>, after: Db) {
    && after.orders.Keys == db.orders.Keys + Ids(batch)
    && (forall id :: id in after.orders ==>
          after.orders[id].columns == LastColumns(ColumnsOf(db.orders, id), batch, id))
    && (forall id :: id in after.orders ==>
          if id in db.orders then after.orders[id].id == db.orders[id].id else after.orders[id].id >= db.nextId)
    && Linked(after) && db.nextId <= after.nextId
  }

  /** The effect of storing `batch`, stated per order id and independently of how it is done. */
  ghost predicate Effect(db: Db, batch: seq<Order>, after: Db, keepOld: bool) {
    && HeaderEffect(db, batch, after)
    && forall k, id :: DataOf(Table(after, k), id) == Expected(DataOf(Table(db, k), id), batch, id, k, keepOld)
  }

  // ----- rows

  lemma {:induction false} DataOfAppend(a: seq<Child>, b: seq<Child>, id: int)
    ensures DataOf(a + b, id) == DataOf(a, id) + DataOf(b, id)
  {
    if a == [] {
      assert a + b == b;
    } else {
      var head := if a[0].orderId == id then [a[0].data] else [];
      assert (a + b)[1..] == a[1..] + b;
      assert DataOf(a + b, id) == head + DataOf(a[1..] + b, id);
      DataOfAppend(a[1..], b, id);
    }
  }

  lemma {:induction false} DataOfRows(orderId: int, parentId: nat, data: seq<string>, id: int)
    ensures DataOf(Rows(orderId, parentId, data), id) == if id == orderId then data else []
    decreases |data|
  {
    if data == [] {
    } else {
      DataOfRows(orderId, parentId, data[1..], id);
      assert Rows(orderId, parentId, data)[1..] == Rows(orderId, parentId, data[1..]);
    }
  }

  lemma {:induction false} DataWithoutOrder(rows: seq<Child>, orderId: int, id: int)
    ensures DataOf(WithoutOrder(rows, orderId), id) == if id == orderId then [] else DataOf(rows, id)
  {
    if rows == [] {
    } else {
      DataWithoutOrder(rows[1..], orderId, id);
      DataOfAppend(if rows[0].orderId == orderId then [] else [rows[0]], WithoutOrder(rows[1..], orderId), id);
      DataOfAppend([rows[0]], rows[1..], id);
      assert rows == [rows[0]] + rows[1..];
    }
  }

  lemma WithoutOrderSubset(rows: seq<Child>, orderId: int)
    ensures forall row :: row in WithoutOrder(rows, orderId) ==> row in rows && row.orderId != orderId
  {
  }

  lemma {:induction false} DataWithoutParents(rows: seq<Child>, parents: set<nat>, id: int, gone: bool)
    requires forall i :: 0 <= i < |rows| && rows[i].orderId == id ==> (rows[i].parentId in parents <==> gone)
    ensures DataOf(WithoutParents(rows, parents), id) == if gone then [] else DataOf(rows, id)
  {
    if rows == [] {
    } else {
      DataWithoutParents(rows[1..], parents, id, gone);
      DataOfAppend(if rows[0].parentId in parents then [] else [rows[0]], WithoutParents(rows[1..], parents), id);
      DataOfAppend([rows[0]], rows[1..], id);
      assert rows == [rows[0]] + rows[1..];
    }
  }

  // ----- the per-order path

  lemma ReplaceChildrenEffect(rows: seq<Child>, o: Order, parentId: nat, kind: Kind, id: int)
    ensures DataOf(ReplaceChildren(rows, o.id, parentId, Embedded(o, kind)), id)
         == if id == o.id && Embedded(o, kind) != [] then Embedded(o, kind) else DataOf(rows, id)
  {
    DataWithoutOrder(rows, o.id, id);
    DataOfRows(o.id, parentId, Embedded(o, kind), id);
    DataOfAppend(WithoutOrder(rows, o.id), Rows(o.id, parentId, Embedded(o, kind)), id);
  }

  lemma ReplaceChildrenPointInto(rows: seq<Child>, o: Order, headers: map<int, Header>, h: Header, kind: Kind)
    requires PointInto(rows, headers)
    requires o.id in headers ==> headers[o.id].id == h.id
    ensures PointInto(ReplaceChildren(rows, o.id, h.id, Embedded(o, kind)), headers[o.id := h])
  {
    WithoutOrderSubset(rows, o.id);
  }

  lemma UpsertOneKeepsLinked(db: Db, o: Order)
    requires Linked(db)
    ensures Linked(UpsertOne(db, o))
  {
    var h := UpsertOne(db, o).orders[o.id];
    ReplaceChildrenPointInto(db.lines, o, db.orders, h, Lines);
    ReplaceChildrenPointInto(db.payments, o, db.orders, h, Payments);
  }

  lemma UpsertOneTable(db: Db, o: Order, k: Kind, id: int)
    ensures DataOf(Table(UpsertOne(db, o), k), id)
         == if id == o.id && Embedded(o, k) != [] then Embedded(o, k) else DataOf(Table(db, k), id)
  {
    ReplaceChildrenEffect(Table(db, k), o, UpsertOne(db, o).orders[o.id].id, k, id);
  }

  lemma UpsertOneExtends(db: Db, batch: seq<Order>, mid: Db)
    requires |batch| > 0 && Effect(db, batch[..|batch| - 1], mid, true)
    ensures Effect(db, batch, UpsertOne(mid, batch[|batch| - 1]), true)
  {
    var o := batch[|batch| - 1];
    var after := UpsertOne(mid, o);
    UpsertOneKeepsLinked(mid, o);
    IdsOfSnoc(batch);
    forall k, id
      ensures DataOf(Table(after, k), id) == Expected(DataOf(Table(db, k), id), batch, id, k, true)
    {
      UpsertOneTable(mid, o, k, id);
    }
  }

  lemma {:induction false} OneByOneEffect(db: Db, batch: seq<Order>)
    requires Linked(db)
    ensures Effect(db, batch, OneByOne(db, batch), true)
  {
    if |batch| == 0 {
    } else {
      OneByOneEffect(db, batch[..|batch| - 1]);
      UpsertOneExtends(db, batch, OneByOne(db, batch[..|batch| - 1]));
    }
  }

  // ----- the bulk path

  ghost predicate DistinctIds(list: seq<Order>) {
    forall i, j :: 0 <= i < j < |list| ==> list[i].id != list[j].id
  }

  lemma {:induction false} PutKeepsDistinct(list: seq<Order>, o: Order)
    requires DistinctIds(list)
    ensures DistinctIds(Put(list, o))
    ensures forall x :: x in Put(list, o) ==> x == o || (x in list && x.id != o.id)
    ensures Ids(Put(list, o)) == Ids(list) + {o.id}
  {
    if list == [] {
      IdsOfCons(o, []);
    } else {
      IdsOfCons(list[0], list[1..]);
      assert list == [list[0]] + list[1..];
      assert list[0].id !in Ids(list[1..]);
      if list[0].id == o.id {
        IdsOfCons(o, list[1..]);
      } else {
        PutKeepsDistinct(list[1..], o);
        IdsOfCons(list[0], Put(list[1..], o));
        forall j | 0 <= j < |Put(list[1..], o)|
          ensures Put(list[1..], o)[j].id != list[0].id
        {
          assert Put(list[1..], o)[j].id in Ids(Put(list[1..], o));
        }
      }
    }
  }

  lemma IdsOfCons(o: Order, list: seq<Order>)
    ensures Ids([o] + list) == {o.id} + Ids(list)
  {
    var all := [o] + list;
    forall id | id in {o.id} + Ids(list)
      ensures id in Ids(all)
    {
      if id == o.id {
        assert all[0].id == id;
      } else {
        var i :| 0 <= i < |list| && list[i].id == id;
        assert all[i + 1].id == id;
      }
    }
  }

  lemma IdsOfSnoc(list: seq<Order>)
    requires |list| > 0
    ensures Ids(list) == Ids(list[..|list| - 1]) + {list[|list| - 1].id}
    ensures DistinctIds(list) ==> list[|list| - 1].id !in Ids(list[..|list| - 1])
  {
  }

  ghost predicate IsLatest(o: Order, batch: seq<Order>) {
    exists i :: 0 <= i < |batch| && batch[i] == o && forall j :: i < j < |batch| ==> batch[j].id != o.id
  }

  /** `list` has every id of the batch once, with the last duplicate. */
  ghost predicate Represents(list: seq<Order>, batch: seq<Order>) {
    DistinctIds(list) && Ids(list) == Ids(batch) && forall o :: o in list ==> IsLatest(o, batch)
  }

  lemma LatestAfterOther(x: Order, batch: seq<Order>)
    requires |batch| > 0 && IsLatest(x, batch[..|batch| - 1]) && x.id != batch[|batch| - 1].id
    ensures IsLatest(x, batch)
  {
    var before := batch[..|batch| - 1];
    var i :| 0 <= i < |before| && before[i] == x && forall j :: i < j < |before| ==> before[j].id != x.id;
    forall j | i < j < |batch|
      ensures batch[j].id != x.id
    {
      assert j < |before| ==> before[j] == batch[j];
    }
    assert batch[i] == x;
  }

  lemma {:induction false} LatestByIdRepresents(batch: seq<Order>)
    ensures Represents(LatestById(batch), batch)
  {
    if |batch| == 0 {
    } else {
      var before := batch[..|batch| - 1];
      var o := batch[|batch| - 1];
      var list := LatestById(before);
      LatestByIdRepresents(before);
      PutKeepsDistinct(list, o);
      IdsOfSnoc(batch);
      forall x | x in Put(list, o)
        ensures IsLatest(x, batch)
      {
        if x == o {
          assert batch[|batch| - 1] == o;
        } else {
          LatestAfterOther(x, batch);
        }
      }
    }
  }

  lemma {:induction false} LatestDecides(o: Order, batch: seq<Order>, columns: string, data: seq<string>, kind: Kind)
    requires IsLatest(o, batch)
    ensures LastColumns(columns, batch, o.id) == o.columns
    ensures Expected(data, batch, o.id, kind, false) == Embedded(o, kind)
  {
    var before := batch[..|batch| - 1];
    if batch[|batch| - 1].id != o.id {
      var i :| 0 <= i < |batch| && batch[i] == o && forall j :: i < j < |batch| ==> batch[j].id != o.id;
      assert before[i] == o;
      LatestDecides(o, before, columns, data, kind);
    }
  }

  lemma {:induction false} AbsentDecides(id: int, batch: seq<Order>, columns: string, data: seq<string>, kind: Kind)
    requires id !in Ids(batch)
    ensures LastColumns(columns, batch, id) == columns
    ensures Expected(data, batch, id, kind, false) == data
  {
    if |batch| == 0 {
    } else {
      assert batch[|batch| - 1].id in Ids(batch);
      AbsentDecides(id, batch[..|batch| - 1], columns, data, kind);
    }
  }

  /** Rows that were stored keep their ids, new rows have new ids, and no two rows share one. */
  ghost predicate AssignedIds(stored: map<int, Header>, nextId: nat, m: map<int, Header>, n: nat) {
    && nextId <= n
    && IdsBelow(m, n)
    && IdsDiffer(m)
    && (forall a :: a in m ==> if a in stored then m[a].id == stored[a].id else m[a].id >= nextId)
  }

  /** Exactly the orders of `list` have been written. */
  ghost predicate AssignedRows(stored: map<int, Header>, list: seq<Order>, m: map<int, Header>) {
    && m.Keys == stored.Keys + Ids(list)
    && (forall a :: a in stored && a !in Ids(list) ==> m[a] == stored[a])
    && (forall i :: 0 <= i < |list| ==> m[list[i].id].columns == list[i].columns)
  }

  lemma IdsDifferAfter(m: map<int, Header>, id: int, h: Header)
    requires IdsDiffer(m)
    requires forall a :: a in m && a != id ==> m[a].id != h.id
    ensures IdsDiffer(m[id := h])
  {
  }

  lemma AssignStepIds(stored: map<int, Header>, nextId: nat, m: map<int, Header>, n: nat, o: Order)
    requires IdsBelow(stored, nextId) && IdsDiffer(stored) && AssignedIds(stored, nextId, m, n)
    requires o.id !in stored ==> o.id !in m
    ensures
      var isNew := o.id !in stored;
      AssignedIds(stored, nextId, m[o.id := Header(if isNew then n else stored[o.id].id, o.columns)],
                  if isNew then n + 1 else n)
  {
    var isNew := o.id !in stored;
    IdsDifferAfter(m, o.id, Header(if isNew then n else stored[o.id].id, o.columns));
  }

  lemma AssignStepRows(stored: map<int, Header>, list: seq<Order>, m: map<int, Header>, h: Header)
    requires |list| > 0 && DistinctIds(list)
    requires AssignedRows(stored, list[..|list| - 1], m) && h.columns == list[|list| - 1].columns
    ensures AssignedRows(stored, list, m[list[|list| - 1].id := h])
  {
    var before := list[..|list| - 1];
    IdsOfSnoc(list);
    assert forall i :: 0 <= i < |before| ==> before[i] == list[i];
  }

  lemma {:induction false} AssignFacts(stored: map<int, Header>, nextId: nat, list: seq<Order>)
    requires DistinctIds(list) && IdsBelow(stored, nextId) && IdsDiffer(stored)
    ensures
      var (m, n) := Assign(stored, nextId, list);
      AssignedIds(stored, nextId, m, n) && AssignedRows(stored, list, m)
  {
    if |list| == 0 {
    } else {
      var before := list[..|list| - 1];
      var o := list[|list| - 1];
      AssignFacts(stored, nextId, before);
      IdsOfSnoc(list);
      var (m, n) := Assign(stored, nextId, before);
      AssignStepIds(stored, nextId, m, n, o);
      AssignStepRows(stored, list, m, Assign(stored, nextId, list).0[o.id]);
    }
  }

  lemma {:induction false} AllRowsData(headers: map<int, Header>, list: seq<Order>, kind: Kind, id: int)
    requires DistinctIds(list)
    ensures id !in Ids(list) ==> DataOf(AllRows(headers, list, kind), id) == []
    ensures forall i :: 0 <= i < |list| && list[i].id == id ==>
      DataOf(AllRows(headers, list, kind), id) == Embedded(list[i], kind)
  {
    if |list| == 0 {
    } else {
      var before := list[..|list| - 1];
      var o := list[|list| - 1];
      AllRowsData(headers, before, kind, id);
      DataOfRows(o.id, ParentOf(headers, o.id), Embedded(o, kind), id);
      DataOfAppend(AllRows(headers, before, kind), Rows(o.id, ParentOf(headers, o.id), Embedded(o, kind)), id);
      IdsOfSnoc(list);
      forall i | 0 <= i < |list| && list[i].id == id
        ensures DataOf(AllRows(headers, list, kind), id) == Embedded(list[i], kind)
      {
        if i < |before| {
          assert before[i] == list[i];
          assert id in Ids(before);
        }
      }
    }
  }

  lemma {:induction false} AllRowsPointInto(headers: map<int, Header>, list: seq<Order>, kind: Kind)
    requires Ids(list) <= headers.Keys
    ensures PointInto(AllRows(headers, list, kind), headers)
  {
    if |list| == 0 {
    } else {
      IdsOfSnoc(list);
      AllRowsPointInto(headers, list[..|list| - 1], kind);
    }
  }

  lemma ParentIdsSelect(headers: map<int, Header>, list: seq<Order>, id: int)
    requires id in headers && Ids(list) <= headers.Keys
    requires forall a, b :: a in headers && b in headers && a != b ==> headers[a].id != headers[b].id
    ensures headers[id].id in ParentIds(headers, list) <==> id in Ids(list)
  {
    if id in Ids(list) {
      var i :| 0 <= i < |list| && list[i].id == id;
      assert ParentOf(headers, list[i].id) == headers[id].id;
    }
    if headers[id].id in ParentIds(headers, list) {
      var i :| 0 <= i < |list| && ParentOf(headers, list[i].id) == headers[id].id;
      assert list[i].id in Ids(list);
    }
  }

  lemma BulkTableData(db: Db, list: seq<Order>, kind: Kind, id: int)
    requires Linked(db) && DistinctIds(list)
    ensures
      var headers := Assign(db.orders, db.nextId, list).0;
      var rows := WithoutParents(Table(db, kind), ParentIds(headers, list)) + AllRows(headers, list, kind);
      && (id !in Ids(list) ==> DataOf(rows, id) == DataOf(Table(db, kind), id))
      && (forall i :: 0 <= i < |list| && list[i].id == id ==> DataOf(rows, id) == Embedded(list[i], kind))
  {
    var headers := Assign(db.orders, db.nextId, list).0;
    AssignFacts(db.orders, db.nextId, list);
    var parents := ParentIds(headers, list);
    var rows := Table(db, kind);
    forall i | 0 <= i < |rows| && rows[i].orderId == id
      ensures rows[i].parentId in parents <==> id in Ids(list)
    {
      ParentIdsSelect(headers, list, id);
    }
    DataWithoutParents(rows, parents, id, id in Ids(list));
    AllRowsData(headers, list, kind, id);
    DataOfAppend(WithoutParents(rows, parents), AllRows(headers, list, kind), id);
    forall i | 0 <= i < |list| && list[i].id == id
      ensures id in Ids(list)
    {
    }
  }

  /** Children left in place belong to orders outside the batch, whose headers have not moved. */
  lemma BulkTableLinked(
    stored: map<int, Header>, headers: map<int, Header>, list: seq<Order>, rows: seq<Child>, kind: Kind)
    requires PointInto(rows, stored) && Ids(list) <= headers.Keys
    requires forall a :: a in stored ==> a in headers && headers[a].id == stored[a].id
    ensures PointInto(WithoutParents(rows, ParentIds(headers, list)) + AllRows(headers, list, kind), headers)
  {
    AllRowsPointInto(headers, list, kind);
    WithoutParentsSubset(rows, ParentIds(headers, list));
  }

  lemma WithoutParentsSubset(rows: seq<Child>, parents: set<nat>)
    ensures forall row :: row in WithoutParents(rows, parents) ==> row in rows
  {
  }

  lemma BulkEffect(db: Db, batch: seq<Order>)
    requires Linked(db)
    ensures Effect(db, batch, Bulk(db, batch), false)
  {
    var list := LatestById(batch);
    LatestByIdRepresents(batch);
    AssignFacts(db.orders, db.nextId, list);
    var after := Bulk(db, batch);
    forall k, id
      ensures DataOf(Table(after, k), id) == Expected(DataOf(Table(db, k), id), batch, id, k, false)
    {
      BulkTableData(db, list, k, id);
      if id in Ids(list) {
        var i :| 0 <= i < |list| && list[i].id == id;
        LatestDecides(list[i], batch, "", DataOf(Table(db, k), id), k);
      } else {
        AbsentDecides(id, batch, "", DataOf(Table(db, k), id), k);
      }
    }
    forall id | id in after.orders
      ensures after.orders[id].columns == LastColumns(ColumnsOf(db.orders, id), batch, id)
    {
      if id in Ids(list) {
        var i :| 0 <= i < |list| && list[i].id == id;
        LatestDecides(list[i], batch, ColumnsOf(db.orders, id), [], Lines);
      } else {
        AbsentDecides(id, batch, ColumnsOf(db.orders, id), [], Lines);
      }
    }
    BulkTableLinked(db.orders, after.orders, list, db.lines, Lines);
    BulkTableLinked(db.orders, after.orders, list, db.payments, Payments);
  }

  // ----- the two paths compared

  /** Same headers up to ids that were new, same ids where a row existed, same children for every order. */
  ghost predicate SameUpToNewIds(db: Db, a: Db, b: Db) {
    && a.orders.Keys == b.orders.Keys
    && (forall id :: id in a.orders ==> a.orders[id].columns == b.orders[id].columns)
    && (forall id :: id in db.orders && id in a.orders ==>
          a.orders[id].id == b.orders[id].id == db.orders[id].id)
    && (forall k, id :: DataOf(Table(a, k), id) == DataOf(Table(b, k), id))
  }

  ghost predicate LastOfItsId(batch: seq<Order>, i: nat)
    requires i < |batch|
  {
    forall j :: i < j < |batch| ==> batch[j].id != batch[i].id
  }

  /** Where the last duplicate of an order embeds no child, there is none to lose: not stored, not in the batch. */
  ghost predicate NothingToLose(db: Db, batch: seq<Order>) {
    forall k, i :: 0 <= i < |batch| && LastOfItsId(batch, i) && Embedded(batch[i], k) == [] ==>
      && DataOf(Table(db, k), batch[i].id) == []
      && forall j :: 0 <= j < i && batch[j].id == batch[i].id ==> Embedded(batch[j], k) == []
  }

  lemma {:induction false} KeepsOldExactlyWhen(data: seq<string>, batch: seq<Order>, id: int, k: Kind)
    ensures Expected(data, batch, id, k, true) == [] <==>
      data == [] && forall j :: 0 <= j < |batch| && batch[j].id == id ==> Embedded(batch[j], k) == []
  {
    if |batch| == 0 {
    } else {
      var before := batch[..|batch| - 1];
      KeepsOldExactlyWhen(data, before, id, k);
      assert forall j :: 0 <= j < |before| ==> before[j] == batch[j];
    }
  }

  lemma {:induction false} PoliciesAgreeOnAnEmbeddingLast(data: seq<string>, batch: seq<Order>, i: nat, k: Kind)
    requires i < |batch| && LastOfItsId(batch, i)
    ensures Embedded(batch[i], k) != [] ==> Expected(data, batch, batch[i].id, k, true) == Embedded(batch[i], k)
    ensures Expected(data, batch, batch[i].id, k, false) == Embedded(batch[i], k)
  {
    var before := batch[..|batch| - 1];
    if i < |before| {
      assert LastOfItsId(before, i) by {
        assert forall j :: i < j < |before| ==> before[j] == batch[j];
      }
      assert batch[|batch| - 1].id != batch[i].id;
      PoliciesAgreeOnAnEmbeddingLast(data, before, i, k);
    }
  }

  lemma {:induction false} LastOccurrence(batch: seq<Order>, id: int) returns (i: nat)
    requires id in Ids(batch)
    ensures i < |batch| && batch[i].id == id && LastOfItsId(batch, i)
  {
    if batch[|batch| - 1].id == id {
      i := |batch| - 1;
    } else {
      var before := batch[..|batch| - 1];
      assert id in Ids(before) by {
        IdsOfSnoc(batch);
      }
      i := LastOccurrence(before, id);
      assert forall j :: i < j < |before| ==> before[j] == batch[j];
    }
  }

  ghost predicate AgreeOn(db: Db, batch: seq<Order>, k: Kind, id: int) {
    var data := DataOf(Table(db, k), id);
    Expected(data, batch, id, k, true) == Expected(data, batch, id, k, false)
  }

  ghost predicate PoliciesAgree(db: Db, batch: seq<Order>) {
    forall k, id :: AgreeOn(db, batch, k, id)
  }

  lemma AgreeOnAChildlessLast(db: Db, batch: seq<Order>, k: Kind, i: nat)
    requires i < |batch| && LastOfItsId(batch, i) && Embedded(batch[i], k) == []
    ensures AgreeOn(db, batch, k, batch[i].id) <==>
      && DataOf(Table(db, k), batch[i].id) == []
      && forall j :: 0 <= j < i && batch[j].id == batch[i].id ==> Embedded(batch[j], k) == []
  {
    var data := DataOf(Table(db, k), batch[i].id);
    PoliciesAgreeOnAnEmbeddingLast(data, batch, i, k);
    KeepsOldExactlyWhen(data, batch, batch[i].id, k);
  }

  lemma PoliciesAgreeExactlyWhen(db: Db, batch: seq<Order>)
    ensures PoliciesAgree(db, batch) <==> NothingToLose(db, batch)
  {
    forall k, i | 0 <= i < |batch| && LastOfItsId(batch, i) && Embedded(batch[i], k) == []
      ensures AgreeOn(db, batch, k, batch[i].id) <==>
        && DataOf(Table(db, k), batch[i].id) == []
        && forall j :: 0 <= j < i && batch[j].id == batch[i].id ==> Embedded(batch[j], k) == []
    {
      AgreeOnAChildlessLast(db, batch, k, i);
    }
    if NothingToLose(db, batch) {
      forall k, id
        ensures AgreeOn(db, batch, k, id)
      {
        if id in Ids(batch) {
          var i := LastOccurrence(batch, id);
          PoliciesAgreeOnAnEmbeddingLast(DataOf(Table(db, k), id), batch, i, k);
        } else {
          AbsentDecides(id, batch, "", DataOf(Table(db, k), id), k);
          AbsentKeeps(id, batch, DataOf(Table(db, k), id), k);
        }
      }
    }
  }

  lemma {:induction false} AbsentKeeps(id: int, batch: seq<Order>, data: seq<string>, kind: Kind)
    requires id !in Ids(batch)
    ensures Expected(data, batch, id, kind, true) == data
  {
    if |batch| == 0 {
    } else {
      IdsOfSnoc(batch);
      AbsentKeeps(id, batch[..|batch| - 1], data, kind);
    }
  }

  lemma EffectsAgreeExactlyWhen(db: Db, batch: seq<Order>, a: Db, b: Db)
    requires Effect(db, batch, a, false) && Effect(db, batch, b, true)
    ensures SameUpToNewIds(db, a, b) <==> PoliciesAgree(db, batch)
  {
    if SameUpToNewIds(db, a, b) {
      forall k, id
        ensures AgreeOn(db, batch, k, id)
      {
        assert DataOf(Table(a, k), id) == DataOf(Table(b, k), id);
      }
    }
    if PoliciesAgree(db, batch) {
      forall k, id
        ensures DataOf(Table(a, k), id) == DataOf(Table(b, k), id)
      {
        assert AgreeOn(db, batch, k, id);
      }
    }
  }

  /**
   On linked tables the bulk path leaves what the per-order loop leaves, up to new ids, exactly when no order whose
   last duplicate embeds no line (or no payment) had any to lose.
   */
  lemma BulkRefinesOneByOneExactlyWhen(db: Db, batch: seq<Order>)
    requires Linked(db)
    ensures SameUpToNewIds(db, Bulk(db, batch), OneByOne(db, batch)) <==> NothingToLose(db, batch)
  {
    BulkEffect(db, batch);
    OneByOneEffect(db, batch);
    EffectsAgreeExactlyWhen(db, batch, Bulk(db, batch), OneByOne(db, batch));
    PoliciesAgreeExactlyWhen(db, batch);
  }

  /** Every order embeds at least one line and one payment. */
  ghost predicate Complete(batch: seq<Order>) {
    forall o :: o in batch ==> o.lines != [] && o.payments != []
  }

  lemma CompleteHasNothingToLose(db: Db, batch: seq<Order>)
    requires Complete(batch)
    ensures NothingToLose(db, batch)
  {
    forall k, i | 0 <= i < |batch|
      ensures Embedded(batch[i], k) != []
    {
      assert batch[i] in batch;
    }
  }

  // ----- batches that go either way

  /**
   What children an order may end with when each duplicate was stored by either path: those of its last duplicate, or,
   where that embeds none, nothing or what there was before it.
   */
  ghost predicate Possible(stored: seq<string>, batch: seq<Order>, id: int, k: Kind, data: seq<string>) {
    if |batch| == 0 then data == stored
    else
      var o := batch[|batch| - 1];
      var before := batch[..|batch| - 1];
      if o.id != id then Possible(stored, before, id, k, data)
      else if Embedded(o, k) != [] then data == Embedded(o, k)
      else data == [] || Possible(stored, before, id, k, data)
  }

  ghost predicate ChildrenPossible(db: Db, batch: seq<Order>, after: Db) {
    forall k, id :: Possible(DataOf(Table(db, k), id), batch, id, k, DataOf(Table(after, k), id))
  }

  lemma {:induction false} EitherPolicyIsPossible(
    stored: seq<string>, batch: seq<Order>, id: int, k: Kind, keepOld: bool)
    ensures Possible(stored, batch, id, k, Expected(stored, batch, id, k, keepOld))
  {
    if |batch| == 0 {
    } else {
      EitherPolicyIsPossible(stored, batch[..|batch| - 1], id, k, keepOld);
    }
  }

  lemma {:induction false} NothingKeptNothingPossible(
    stored: seq<string>, batch: seq<Order>, id: int, k: Kind, data: seq<string>)
    requires Possible(stored, batch, id, k, data) && Expected(stored, batch, id, k, true) == []
    ensures data == []
  {
    if |batch| > 0 && data != [] {
      NothingKeptNothingPossible(stored, batch[..|batch| - 1], id, k, data);
    }
  }

  /** Where the two policies agree, only one outcome is possible. */
  lemma {:induction false} AgreementDecides(
    stored: seq<string>, batch: seq<Order>, id: int, k: Kind, data: seq<string>)
    requires Possible(stored, batch, id, k, data)
    requires Expected(stored, batch, id, k, true) == Expected(stored, batch, id, k, false)
    ensures data == Expected(stored, batch, id, k, true)
  {
    if |batch| == 0 {
    } else {
      var o := batch[|batch| - 1];
      if o.id != id {
        AgreementDecides(stored, batch[..|batch| - 1], id, k, data);
      } else if Embedded(o, k) == [] {
        NothingKeptNothingPossible(stored, batch, id, k, data);
      }
    }
  }

  lemma {:induction false} PossibleComposes(
    stored: seq<string>, a: seq<Order>, mid: seq<string>, b: seq<Order>, id: int, k: Kind, data: seq<string>)
    requires Possible(stored, a, id, k, mid) && Possible(mid, b, id, k, data)
    ensures Possible(stored, a + b, id, k, data)
    decreases |b|
  {
    if |b| == 0 {
      assert a + b == a;
    } else {
      assert (a + b)[..|a + b| - 1] == a + b[..|b| - 1];
      if Possible(mid, b[..|b| - 1], id, k, data) {
        PossibleComposes(stored, a, mid, b[..|b| - 1], id, k, data);
      }
    }
  }

  lemma EffectIsPossible(db: Db, batch: seq<Order>, after: Db, keepOld: bool)
    requires Effect(db, batch, after, keepOld)
    ensures ChildrenPossible(db, batch, after)
  {
    forall k, id
      ensures Possible(DataOf(Table(db, k), id), batch, id, k, DataOf(Table(after, k), id))
    {
      EitherPolicyIsPossible(DataOf(Table(db, k), id), batch, id, k, keepOld);
    }
  }

  lemma {:induction false} ColumnsCompose(columns: string, a: seq<Order>, b: seq<Order>, id: int)
    ensures LastColumns(LastColumns(columns, a, id), b, id) == LastColumns(columns, a + b, id)
    decreases |b|
  {
    if |b| == 0 {
      assert a + b == a;
    } else {
      ColumnsCompose(columns, a, b[..|b| - 1], id);
      assert (a + b)[..|a + b| - 1] == a + b[..|b| - 1];
    }
  }

  lemma IdsOfConcat(a: seq<Order>, b: seq<Order>)
    ensures Ids(a + b) == Ids(a) + Ids(b)
  {
    var all := a + b;
    forall id | id in Ids(a) + Ids(b)
      ensures id in Ids(all)
    {
      if id in Ids(a) {
        var i :| 0 <= i < |a| && a[i].id == id;
        assert all[i].id == id;
      } else {
        var i :| 0 <= i < |b| && b[i].id == id;
        assert all[|a| + i].id == id;
      }
    }
  }

  lemma {:induction false} ColumnsOfAbsent(columns: string, batch: seq<Order>, id: int)
    requires id in Ids(batch)
    ensures LastColumns(columns, batch, id) == LastColumns("", batch, id)
  {
    IdsOfSnoc(batch);
    if batch[|batch| - 1].id != id {
      ColumnsOfAbsent(columns, batch[..|batch| - 1], id);
    }
  }

  /** Storing two batches one after the other is storing them together. */
  lemma HeaderEffectsCompose(db: Db, a: seq<Order>, mid: Db, b: seq<Order>, after: Db)
    requires HeaderEffect(db, a, mid) && HeaderEffect(mid, b, after)
    ensures HeaderEffect(db, a + b, after)
  {
    IdsOfConcat(a, b);
    forall id | id in after.orders
      ensures after.orders[id].columns == LastColumns(ColumnsOf(db.orders, id), a + b, id)
    {
      ColumnsCompose(ColumnsOf(db.orders, id), a, b, id);
      if id !in mid.orders {
        ColumnsOfAbsent("", b, id);
        ColumnsOfAbsent(LastColumns(ColumnsOf(db.orders, id), a, id), b, id);
      }
    }
  }

  lemma ChildrenCompose(db: Db, a: seq<Order>, mid: Db, b: seq<Order>, after: Db)
    requires ChildrenPossible(db, a, mid) && ChildrenPossible(mid, b, after)
    ensures ChildrenPossible(db, a + b, after)
  {
    forall k, id
      ensures Possible(DataOf(Table(db, k), id), a + b, id, k, DataOf(Table(after, k), id))
    {
      PossibleComposes(
        DataOf(Table(db, k), id), a, DataOf(Table(mid, k), id), b, id, k, DataOf(Table(after, k), id));
    }
  }

  lemma NothingDoesNothing(db: Db)
    requires Linked(db)
    ensures HeaderEffect(db, [], db) && ChildrenPossible(db, [], db)
  {
  }

  /** With nothing to lose, every mixture of the two paths ends as the per-order loop does. */
  lemma MixturesAgree(db: Db, all: seq<Order>, after: Db)
    requires Linked(db) && HeaderEffect(db, all, after) && ChildrenPossible(db, all, after) && NothingToLose(db, all)
    ensures SameUpToNewIds(db, after, OneByOne(db, all))
  {
    OneByOneEffect(db, all);
    PoliciesAgreeExactlyWhen(db, all);
    forall k, id
      ensures DataOf(Table(after, k), id) == DataOf(Table(OneByOne(db, all), k), id)
    {
      assert AgreeOn(db, all, k, id);
      AgreementDecides(DataOf(Table(db, k), id), all, id, k, DataOf(Table(after, k), id));
    }
  }
}
