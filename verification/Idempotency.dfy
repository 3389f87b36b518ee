/** The audit log as an idempotency store: one row per key, found before it is written. */
module Idempotency {
  import opened Wrappers

  datatype AuditStatus = Success | Failed | Retry | Skipped | Duplicate

  datatype AuditRow = AuditRow(key: string, status: AuditStatus, attempts: nat)

  /** The key before hashing; the hash is taken to be injective. */
  function Key(externalId: string, operation: string, context: string): string {
    externalId + ":" + operation + ":" + context
  }

  lemma KeysDiffer(a: string, b: string, operation: string, context: string)
    requires Key(a, operation, context) == Key(b, operation, context)
    ensures a == b
  {
    var k, tail := Key(a, operation, context), ":" + operation + ":" + context;
    assert k == a + tail && k == b + tail;
    assert |a| == |b|;
    assert a == k[..|a|] && b == k[..|b|];
  }

  ghost predicate OnePerKey(rows: seq<AuditRow>) {
    forall i, j :: 0 <= i < j < |rows| ==> rows[i].key != rows[j].key
  }

  function Keys(rows: seq<AuditRow>): set<string> {
    set i | 0 <= i < |rows| :: rows[i].key
  }

  /** Where the row with this key is. */
  function IndexOf(rows: seq<AuditRow>, key: string): (i: Option<nat>)
    ensures i.Some? ==> i.value < |rows| && rows[i.value].key == key
    ensures i.None? ==> key !in Keys(rows)
  {
    if |rows| == 0 then None
    else if rows[|rows| - 1].key == key then Some(|rows| - 1)
    else IndexOf(rows[..|rows| - 1], key)
  }

  lemma IndexIs(rows: seq<AuditRow>, i: nat)
    requires OnePerKey(rows) && i < |rows|
    ensures IndexOf(rows, rows[i].key) == Some(i)
  {
    assert rows[i].key in Keys(rows);
  }

  /** The status under each key. */
  function Statuses(rows: seq<AuditRow>): map<string, AuditStatus> {
    map k | k in Keys(rows) :: rows[IndexOf(rows, k).value].status
  }

  lemma StatusesHold(rows: seq<AuditRow>)
    requires OnePerKey(rows)
    ensures forall i :: 0 <= i < |rows| ==>
      rows[i].key in Statuses(rows) && Statuses(rows)[rows[i].key] == rows[i].status
    ensures Statuses(rows).Keys == Keys(rows)
  {
    forall i | 0 <= i < |rows|
      ensures rows[i].key in Statuses(rows) && Statuses(rows)[rows[i].key] == rows[i].status
    {
      IndexIs(rows, i);
    }
  }

  lemma KeysStay(rows: seq<AuditRow>, after: seq<AuditRow>)
    requires |rows| <= |after| && forall i :: 0 <= i < |rows| ==> after[i].key == rows[i].key
    ensures Keys(rows) <= Keys(after)
  {
    forall k | k in Keys(rows)
      ensures k in Keys(after)
    {
      var i :| 0 <= i < |rows| && rows[i].key == k;
      assert after[i].key == k;
    }
  }

  /** Rewriting the status of row `i` changes what is stored under its key and nothing else. */
  lemma StatusesAfterUpdate(rows: seq<AuditRow>, i: nat, row: AuditRow)
    requires OnePerKey(rows) && i < |rows| && rows[i].key == row.key
    ensures OnePerKey(rows[i := row])
    ensures Statuses(rows[i := row]) == Statuses(rows)[row.key := row.status]
  {
    hide Statuses, IndexOf, Keys;
    var after := rows[i := row];
    StatusesHold(rows);
    StatusesHold(after);
    assert forall j :: 0 <= j < |rows| ==> after[j].key == rows[j].key;
    KeysStay(rows, after);
    SameStatuses(after, Statuses(rows)[row.key := row.status]);
  }

  lemma StatusesAfterInsert(rows: seq<AuditRow>, row: AuditRow)
    requires OnePerKey(rows) && row.key !in Keys(rows)
    ensures OnePerKey(rows + [row])
    ensures Statuses(rows + [row]) == Statuses(rows)[row.key := row.status]
  {
    hide Statuses, IndexOf;
    var after := rows + [row];
    assert forall i :: 0 <= i < |rows| ==> rows[i].key in Keys(rows);
    assert OnePerKey(after);
    KeysStay(rows, after);
    StatusesHold(rows);
    StatusesHold(after);
    assert after[|rows|] == row;
    SameStatuses(after, Statuses(rows)[row.key := row.status]);
  }

  /** A map that holds the status of every row, and nothing else, is the map of statuses. */
  lemma SameStatuses(rows: seq<AuditRow>, m: map<string, AuditStatus>)
    requires OnePerKey(rows)
    requires forall i :: 0 <= i < |rows| ==> rows[i].key in m && m[rows[i].key] == rows[i].status
    requires forall k :: k in m ==> k in Keys(rows)
    ensures Statuses(rows) == m
  {
    StatusesHold(rows);
  }

  class AuditLog {
    var rows: seq<AuditRow>

    ghost predicate Valid()
      reads this
    {
      OnePerKey(rows)
    }

    constructor ()
      ensures Valid() && rows == []
    {
      rows := [];
    }

    method IsDuplicate(key: string) returns (duplicate: bool)
      requires Valid()
      ensures duplicate <==> exists i :: 0 <= i < |rows| && rows[i].key == key && rows[i].status in {Success, Duplicate}
      ensures duplicate <==> key in Statuses(rows) && Statuses(rows)[key] in {Success, Duplicate}
    {
      StatusesHold(rows);
      var i := IndexOf(rows, key);
      if i.None? {
        return false;
      }
      IndexIs(rows, i.value);
      duplicate := rows[i.value].status == Success || rows[i.value].status == Duplicate;
    }

    /** Find, then update or insert: still one row per key, and its attempts count the operations under it. */
    method RecordOperation(key: string, status: AuditStatus)
      requires Valid()
      modifies this
      ensures Valid()
      ensures Statuses(rows) == Statuses(old(rows))[key := status]
      ensures
        match IndexOf(old(rows), key)
        case Some(i) =>
          && |rows| == |old(rows)| && rows[i].attempts == old(rows)[i].attempts + 1
          && forall j :: 0 <= j < |rows| && j != i ==> rows[j] == old(rows)[j]
        case None =>
          && |rows| == |old(rows)| + 1 && rows[..|old(rows)|] == old(rows) && rows[|old(rows)|].attempts == 1
    {
      var i := IndexOf(rows, key);
      if i.Some? {
        var row := rows[i.value].(status := status, attempts := rows[i.value].attempts + 1);
        StatusesAfterUpdate(rows, i.value, row);
        rows := rows[i.value := row];
      } else {
        StatusesAfterInsert(rows, AuditRow(key, status, 1));
        rows := rows + [AuditRow(key, status, 1)];
      }
    }
  }
}
