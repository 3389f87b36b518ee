/** What lands in the groups of the tender report, in terms of the orders, their payments and the receipts. */
module TenderEntries {
  import opened Wrappers
  import opened Grouping
  import opened Reconciliation
  import opened ReceiptNumbers
  import opened Tender

  /** The order is billed on the invoice with this transaction number. */
  predicate Carries(row: Row, txn: string) {
    txn != "" && row.oracle.Some? && row.oracle.value.invoiceNumber == Some(txn)
  }

  ghost predicate IsFirstWith(rows: seq<Row>, i: nat, txn: string) {
    i < |rows| && Carries(rows[i], txn) && forall j :: 0 <= j < i ==> !Carries(rows[j], txn)
  }

  ghost function Carriers(rows: seq<Row>, txn: string): set<int> {
    set i | 0 <= i < |rows| && Carries(rows[i], txn)
  }

  lemma {:induction false} FirstWithIs(rows: seq<Row>, txn: string) returns (i: nat)
    requires txn != ""
    ensures FirstWith(rows, txn).Some? ==> IsFirstWith(rows, i, txn) && FirstWith(rows, txn) == Some(rows[i])
    ensures FirstWith(rows, txn).None? ==> forall j :: 0 <= j < |rows| ==> !Carries(rows[j], txn)
  {
    if |rows| == 0 {
      i := 0;
    } else {
      i := FirstWithIs(rows[..|rows| - 1], txn);
      if FirstWith(rows[..|rows| - 1], txn).None? {
        i := |rows| - 1;
      }
    }
  }

  lemma {:induction false} CountWithIs(rows: seq<Row>, txn: string)
    requires txn != ""
    ensures CountWith(rows, txn) == |Carriers(rows, txn)|
  {
    if |rows| == 0 {
    } else {
      var before, last := rows[..|rows| - 1], |rows| - 1;
      CountWithIs(before, txn);
      if Carries(rows[last], txn) {
        assert Carriers(rows, txn) == Carriers(before, txn) + {last};
      } else {
        assert Carriers(rows, txn) == Carriers(before, txn);
      }
    }
  }

  /** The receipt lands on the order at `i`, and fewer orders of its invoice were scanned than the invoice covers. */
  ghost predicate LandsShort(rows: seq<Row>, r: Receipt, i: nat) {
    IsFirstWith(rows, i, r.txn) && |Carriers(rows, r.txn)| < rows[i].oracle.value.coversOrders
  }

  /** The entry that receipt `r` makes by landing on the order at `i`. */
  ghost predicate EntryOn(rows: seq<Row>, grouping: TenderBy, r: Receipt, i: nat, e: Entry) {
    && IsFirstWith(rows, i, r.txn)
    && e.key == TenderKey(rows[i], r.tender, grouping) && e.tender == r.tender && e.amount == r.amount
    && (if r.isMisc then e.side == Fee && e.count == 0 else e.side == Receipted && e.count == 1)
    && (e.short <==> LandsShort(rows, r, i))
  }

  /** A receipt lands on the first order of its invoice, as a receipt or a fee, and nowhere if no order carries it. */
  lemma ReceiptLandsOnItsOrder(rows: seq<Row>, grouping: TenderBy, r: Receipt)
    ensures
      match ReceiptEntry(rows, grouping, r)
      case None => forall i :: 0 <= i < |rows| ==> !Carries(rows[i], r.txn)
      case Some(e) => exists i: nat :: EntryOn(rows, grouping, r, i, e)
  {
    hide TenderKey, FirstWith, CountWith;
    if r.txn != "" {
      var i := FirstWithIs(rows, r.txn);
      CountWithIs(rows, r.txn);
      if FirstWith(rows, r.txn).Some? {
        assert EntryOn(rows, grouping, r, i, ReceiptEntry(rows, grouping, r).value);
      }
    }
  }

  /** An entry of the till is a payment of a scanned order, under the order's key, and never short. */
  ghost predicate IsTaken(
    rows: seq<Row>, payments: map<int, seq<Takings>>, grouping: TenderBy, i: nat, j: nat, e: Entry)
  {
    && i < |rows| && rows[i].odoo.orderId in payments && j < |payments[rows[i].odoo.orderId]|
    && var t := payments[rows[i].odoo.orderId][j];
       e == Entry(TenderKey(rows[i], t.tender, grouping), t.tender, Till, t.count, t.total, false)
  }

  lemma {:induction false} RowEntriesAre(row: Row, grouping: TenderBy, taken: seq<Takings>, e: Entry)
    ensures e in RowEntries(row, grouping, taken) <==>
      exists j :: 0 <= j < |taken| && e == TillEntry(row, grouping, taken[j])
  {
    hide TillEntry;
    if |taken| == 0 {
    } else {
      var before := taken[..|taken| - 1];
      RowEntriesAre(row, grouping, before, e);
      if j :| 0 <= j < |taken| && e == TillEntry(row, grouping, taken[j]) && j < |before| {
        assert e == TillEntry(row, grouping, before[j]);
      }
      if j :| 0 <= j < |before| && e == TillEntry(row, grouping, before[j]) {
        assert e == TillEntry(row, grouping, taken[j]);
      }
    }
  }

  lemma RowIsTaken(rows: seq<Row>, payments: map<int, seq<Takings>>, grouping: TenderBy, i: nat, e: Entry)
    requires i < |rows|
    ensures e in RowEntries(rows[i], grouping, TakingsOf(payments, rows[i])) <==>
      exists j: nat :: IsTaken(rows, payments, grouping, i, j, e)
  {
    hide TenderKey;
    var taken := TakingsOf(payments, rows[i]);
    RowEntriesAre(rows[i], grouping, taken, e);
    if j :| 0 <= j < |taken| && e == TillEntry(rows[i], grouping, taken[j]) {
      assert IsTaken(rows, payments, grouping, i, j, e);
    }
    if j: nat :| IsTaken(rows, payments, grouping, i, j, e) {
      assert e == TillEntry(rows[i], grouping, taken[j]);
    }
  }

  lemma {:induction false} TillHoldsThePayments(
    rows: seq<Row>, payments: map<int, seq<Takings>>, grouping: TenderBy, e: Entry)
    ensures e in TillSide(rows, payments, grouping) <==>
      exists i: nat, j: nat :: IsTaken(rows, payments, grouping, i, j, e)
  {
    if |rows| == 0 {
    } else {
      hide RowEntries, TakingsOf;
      var before, last := rows[..|rows| - 1], |rows| - 1;
      TillHoldsThePayments(before, payments, grouping, e);
      RowIsTaken(rows, payments, grouping, last, e);
      forall i: nat, j: nat | i < last
        ensures IsTaken(before, payments, grouping, i, j, e) <==> IsTaken(rows, payments, grouping, i, j, e)
      {
      }
      if i: nat, j: nat :| IsTaken(before, payments, grouping, i, j, e) {
        assert IsTaken(rows, payments, grouping, i, j, e);
      }
      if i: nat, j: nat :| IsTaken(rows, payments, grouping, i, j, e) && i < last {
        assert IsTaken(before, payments, grouping, i, j, e);
      }
    }
  }

  lemma {:induction false} ReceiptSideHolds(rows: seq<Row>, grouping: TenderBy, receipts: seq<Receipt>, e: Entry)
    ensures e in ReceiptSide(rows, grouping, receipts) <==>
      exists n :: 0 <= n < |receipts| && ReceiptEntry(rows, grouping, receipts[n]) == Some(e)
  {
    hide ReceiptEntry;
    if |receipts| == 0 {
    } else {
      var before := receipts[..|receipts| - 1];
      ReceiptSideHolds(rows, grouping, before, e);
      assert forall n :: 0 <= n < |before| ==> before[n] == receipts[n];
      if n :| 0 <= n < |before| && ReceiptEntry(rows, grouping, before[n]) == Some(e) {
        assert ReceiptEntry(rows, grouping, receipts[n]) == Some(e);
      }
    }
  }

  lemma {:induction false} InBucket(entries: seq<Entry>, key: string, e: Entry)
    ensures e in Bucket(entries, EntryKey, key) <==> e in entries && e.key == key
  {
    if |entries| == 0 {
    } else {
      InBucket(entries[..|entries| - 1], key, e);
      assert entries == entries[..|entries| - 1] + [entries[|entries| - 1]];
    }
  }

  /** Receipt `n` lands in the group, on an invoice of which the window holds only a part. */
  ghost predicate ShortReceipt(
    rows: seq<Row>, receipts: seq<Receipt>, grouping: TenderBy, key: string, n: nat, i: nat)
  {
    n < |receipts| && LandsShort(rows, receipts[n], i) && TenderKey(rows[i], receipts[n].tender, grouping) == key
  }

  /** A group is partial exactly if a receipt lands in it of whose invoice fewer orders were scanned than it covers. */
  lemma PartialExactlyWhen(
    rows: seq<Row>, payments: map<int, seq<Takings>>, receipts: seq<Receipt>, grouping: TenderBy, key: string)
    ensures AnyShort(Bucket(Entries(rows, payments, receipts, grouping), EntryKey, key)) <==>
      exists n: nat, i: nat :: ShortReceipt(rows, receipts, grouping, key, n, i)
  {
    hide TillSide, ReceiptSide, ReceiptEntry, Bucket, TenderKey;
    var entries := Entries(rows, payments, receipts, grouping);
    var group := Bucket(entries, EntryKey, key);
    if AnyShort(group) {
      var at :| 0 <= at < |group| && group[at].short;
      var e := group[at];
      InBucket(entries, key, e);
      TillHoldsThePayments(rows, payments, grouping, e);
      ReceiptSideHolds(rows, grouping, receipts, e);
      var n :| 0 <= n < |receipts| && ReceiptEntry(rows, grouping, receipts[n]) == Some(e);
      ReceiptLandsOnItsOrder(rows, grouping, receipts[n]);
      var i: nat :| EntryOn(rows, grouping, receipts[n], i, e);
      assert ShortReceipt(rows, receipts, grouping, key, n, i);
    }
    if n: nat, i: nat :| ShortReceipt(rows, receipts, grouping, key, n, i) {
      ReceiptLandsOnItsOrder(rows, grouping, receipts[n]);
      var e := ReceiptEntry(rows, grouping, receipts[n]).value;
      var k: nat :| EntryOn(rows, grouping, receipts[n], k, e);
      assert k == i;
      ReceiptSideHolds(rows, grouping, receipts, e);
      InBucket(entries, key, e);
      var at :| 0 <= at < |group| && group[at] == e;
    }
  }
}
