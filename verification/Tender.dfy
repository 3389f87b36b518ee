/** Takings against receipts, tender by tender. */
module Tender {
  import opened Wrappers
  import opened Money
  import opened Sums
  import opened Grouping
  import Text
  import opened Reconciliation
  import Rollup
  import opened ReceiptNumbers

  datatype TenderBy = StoreDateMethod | StoreMethod | DateMethod | Method

  /** Tenders are told apart without regard to case. */
  function TenderKey(row: Row, tender: string, grouping: TenderBy): string {
    var folded := Text.Upper(tender);
    match grouping
    case StoreDateMethod => Rollup.StoreKey(row) + " :: " + Rollup.DateKey(row) + " :: " + folded
    case StoreMethod => Rollup.StoreKey(row) + " :: " + folded
    case DateMethod => Rollup.DateKey(row) + " :: " + folded
    case Method => folded
  }

  // ----- which entries share a group

  predicate NoDoubleColon(tender: string) {
    forall i :: 0 <= i < |tender| - 1 && tender[i] == ':' ==> tender[i + 1] != ':'
  }

  lemma LongerEndDiffers(x: string, m: string, y: string, n: string)
    requires NoDoubleColon(n) && |m| < |n|
    ensures x + " :: " + m != y + " :: " + n
  {
    var s, t, at := x + " :: " + m, y + " :: " + n, |x| + 1;
    assert s[at] == ':' && s[at + 1] == ':';
    if |s| == |t| && |n| - |m| >= 3 {
      assert t[at] == n[at - |y| - 4] && t[at + 1] == n[at - |y| - 3];
    }
  }

  lemma EndsTellApart(x: string, m: string, y: string, n: string)
    requires NoDoubleColon(m) && NoDoubleColon(n)
    ensures x + " :: " + m == y + " :: " + n <==> x == y && m == n
  {
    var s, t := x + " :: " + m, y + " :: " + n;
    if |m| < |n| {
      LongerEndDiffers(x, m, y, n);
    } else if |n| < |m| {
      LongerEndDiffers(y, n, x, m);
    } else if s == t {
      assert m == s[|s| - |m|..] == t[|t| - |n|..] == n;
      assert x == s[..|x|] && y == t[..|x|];
    }
  }

  lemma FoldingKeepsColons(tender: string)
    requires NoDoubleColon(tender)
    ensures NoDoubleColon(Text.Upper(tender))
  {
    var folded := Text.Upper(tender);
    forall i | 0 <= i < |folded|
      ensures folded[i] == ':' <==> tender[i] == ':'
    {
      Text.FoldingTouchesLettersOnly(tender, i);
    }
  }

  /**
   Two tenders of two orders share a group exactly if they are the same but for case, and the orders have the same store
   and the same day as far as the grouping asks.
   */
  lemma SameTenderGroupExactlyWhen(a: Row, m: string, b: Row, n: string, grouping: TenderBy)
    requires Rollup.WellDated(a) && Rollup.WellDated(b) && NoDoubleColon(m) && NoDoubleColon(n)
    ensures TenderKey(a, m, grouping) == TenderKey(b, n, grouping) <==>
      && Text.Lower(m) == Text.Lower(n)
      && (grouping == StoreDateMethod || grouping == StoreMethod ==> Rollup.SameStore(a, b))
      && (grouping == StoreDateMethod || grouping == DateMethod ==> a.odoo.orderDate == b.odoo.orderDate)
  {
    hide Text.Upper, Text.Lower, NoDoubleColon, Rollup.StoreKey, Rollup.DateKey, Rollup.SameStore, Rollup.WellDated;
    Text.FoldingsAgree(m, n);
    FoldingKeepsColons(m);
    FoldingKeepsColons(n);
    Rollup.SameGroupExactlyWhen(a, b, Rollup.ByStore);
    Rollup.SameDateKey(a, b);
    var x, y := Rollup.StoreKey(a), Rollup.StoreKey(b);
    var d, e := Rollup.DateKey(a), Rollup.DateKey(b);
    EndsTellApart(x, Text.Upper(m), y, Text.Upper(n));
    EndsTellApart(d, Text.Upper(m), e, Text.Upper(n));
    EndsTellApart(x + " :: " + d, Text.Upper(m), y + " :: " + e, Text.Upper(n));
    Rollup.DaysTellApart(a, x, b, y);
  }

  /** What one order took by one tender. */
  datatype Takings = Takings(tender: string, count: nat, total: real)

  // ----- everything that lands in a group, as a list of entries

  datatype Side = Till | Receipted | Fee

  datatype Entry = Entry(key: string, tender: string, side: Side, count: nat, amount: real, short: bool)

  function EntryKey(e: Entry): string {
    e.key
  }

  function TakingsOf(payments: map<int, seq<Takings>>, row: Row): seq<Takings> {
    if row.odoo.orderId in payments then payments[row.odoo.orderId] else []
  }

  function TillEntry(row: Row, grouping: TenderBy, t: Takings): Entry {
    Entry(TenderKey(row, t.tender, grouping), t.tender, Till, t.count, t.total, false)
  }

  function RowEntries(row: Row, grouping: TenderBy, taken: seq<Takings>): seq<Entry> {
    if |taken| == 0 then []
    else RowEntries(row, grouping, taken[..|taken| - 1]) + [TillEntry(row, grouping, taken[|taken| - 1])]
  }

  function TillSide(rows: seq<Row>, payments: map<int, seq<Takings>>, grouping: TenderBy): seq<Entry> {
    if |rows| == 0 then []
    else
      TillSide(rows[..|rows| - 1], payments, grouping)
      + RowEntries(rows[|rows| - 1], grouping, TakingsOf(payments, rows[|rows| - 1]))
  }

  /** The transaction number of the order's invoice; empty when there is none. */
  function TxnOf(row: Row): string {
    if row.oracle.Some? then row.oracle.value.invoiceNumber.GetOr("") else ""
  }

  function FirstWith(rows: seq<Row>, txn: string): Option<Row> {
    if |rows| == 0 then None
    else
      var earlier := FirstWith(rows[..|rows| - 1], txn);
      if earlier.Some? then earlier
      else if TxnOf(rows[|rows| - 1]) == txn then Some(rows[|rows| - 1]) else None
  }

  function CountWith(rows: seq<Row>, txn: string): nat {
    if |rows| == 0 then 0
    else CountWith(rows[..|rows| - 1], txn) + if TxnOf(rows[|rows| - 1]) == txn then 1 else 0
  }

  /** Short when the window holds fewer orders of the invoice than the invoice covers. */
  function ReceiptEntry(rows: seq<Row>, grouping: TenderBy, r: Receipt): Option<Entry> {
    var row := FirstWith(rows, r.txn);
    if r.txn == "" || row.None? then None
    else
      Some(Entry(
        TenderKey(row.value, r.tender, grouping),
        r.tender,
        if r.isMisc then Fee else Receipted,
        if r.isMisc then 0 else 1,
        r.amount,
        CountWith(rows, r.txn) < if row.value.oracle.Some? then row.value.oracle.value.coversOrders else 1))
  }

  function ReceiptSide(rows: seq<Row>, grouping: TenderBy, receipts: seq<Receipt>): seq<Entry> {
    if |receipts| == 0 then []
    else
      var e := ReceiptEntry(rows, grouping, receipts[|receipts| - 1]);
      ReceiptSide(rows, grouping, receipts[..|receipts| - 1]) + if e.Some? then [e.value] else []
  }

  function Entries(rows: seq<Row>, payments: map<int, seq<Takings>>, receipts: seq<Receipt>, grouping: TenderBy)
    : seq<Entry>
  {
    TillSide(rows, payments, grouping) + ReceiptSide(rows, grouping, receipts)
  }

  function OnSide(side: Side): Entry -> real {
    (e: Entry) => if e.side == side then e.amount else 0.0
  }

  function AmountOn(entries: seq<Entry>, side: Side): real {
    SumSeq(entries, OnSide(side))
  }

  function CountOn(entries: seq<Entry>, side: Side): nat {
    if |entries| == 0 then 0
    else
      CountOn(entries[..|entries| - 1], side)
      + if entries[|entries| - 1].side == side then entries[|entries| - 1].count else 0
  }

  predicate AnyShort(entries: seq<Entry>) {
    exists i :: 0 <= i < |entries| && entries[i].short
  }

  // ----- the reported row

  datatype TenderStatus =
    | Matched
    | ShortInOracle
    | OverInOracle
    | MissingInOracle
    | UnexpectedInOracle
    | Incomplete

  datatype TenderRow = TenderRow(
    tender: string,
    odooCount: nat,
    odooTotal: real,
    oracleCount: nat,
    oracleTotal: real,
    oracleFees: real,
    variance: real,
    partial: bool,
    status: TenderStatus)

  function StatusOf(variance: real, partial: bool, odooCount: nat, oracleCount: nat, tolerance: real): TenderStatus {
    if partial && Abs(variance) > tolerance then Incomplete
    else if Abs(variance) <= tolerance then TenderStatus.Matched
    else if oracleCount == 0 then TenderStatus.MissingInOracle
    else if odooCount == 0 then TenderStatus.UnexpectedInOracle
    else if variance > 0.0 then ShortInOracle
    else OverInOracle
  }

  function Finalise(tender: string, odooCount: nat, odooTotal: real, oracleCount: nat, oracleTotal: real,
                    oracleFees: real, partial: bool, tolerance: real): TenderRow
  {
    var variance := Round2(Round2(odooTotal) - Round2(oracleTotal));
    TenderRow(tender, odooCount, Round2(odooTotal), oracleCount, Round2(oracleTotal), Round2(oracleFees), variance,
              partial, StatusOf(variance, partial, odooCount, oracleCount, tolerance))
  }

  function TenderOf(entries: seq<Entry>, tolerance: real): TenderRow
    requires |entries| > 0
  {
    Finalise(entries[0].tender, CountOn(entries, Till), AmountOn(entries, Till), CountOn(entries, Receipted),
             AmountOn(entries, Receipted), AmountOn(entries, Fee), AnyShort(entries), tolerance)
  }

  /** A tender matches exactly if takings and receipts, both in whole cents, are within tolerance of each other. */
  lemma TenderMatchesExactlyWhen(entries: seq<Entry>, tolerance: real)
    requires |entries| > 0
    requires forall i :: 0 <= i < |entries| ==> InCents(entries[i].amount)
    ensures TenderOf(entries, tolerance).status == TenderStatus.Matched <==>
      Abs(AmountOn(entries, Till) - AmountOn(entries, Receipted)) <= tolerance
  {
    hide AmountOn, CountOn, InCents, Round2;
    AmountInCents(entries, Till);
    AmountInCents(entries, Receipted);
    CentsAreUnchanged(AmountOn(entries, Till));
    CentsAreUnchanged(AmountOn(entries, Receipted));
    CentsSubtract(AmountOn(entries, Till), AmountOn(entries, Receipted));
    CentsAreUnchanged(AmountOn(entries, Till) - AmountOn(entries, Receipted));
  }

  /**
   Which way a tender is out, in whole cents: where the takings and receipts are apart, the gap is the window's if an
   invoice was scanned in part, the whole of one side if the other has no entry, and else a matter of which is larger.
   */
  lemma TenderStatusExactlyWhen(entries: seq<Entry>, tolerance: real)
    requires |entries| > 0 && tolerance >= 0.0
    requires forall i :: 0 <= i < |entries| ==> InCents(entries[i].amount)
    ensures
      var status := TenderOf(entries, tolerance).status;
      var taken, receipted := AmountOn(entries, Till), AmountOn(entries, Receipted);
      var apart := taken > receipted + tolerance || receipted > taken + tolerance;
      && (status == Incomplete <==> apart && AnyShort(entries))
      && (status == TenderStatus.MissingInOracle <==>
            apart && !AnyShort(entries) && CountOn(entries, Receipted) == 0)
      && (status == TenderStatus.UnexpectedInOracle <==>
            apart && !AnyShort(entries) && CountOn(entries, Receipted) > 0 && CountOn(entries, Till) == 0)
      && (status == ShortInOracle <==>
            && taken > receipted + tolerance && !AnyShort(entries)
            && CountOn(entries, Receipted) > 0 && CountOn(entries, Till) > 0)
      && (status == OverInOracle <==>
            && receipted > taken + tolerance && !AnyShort(entries)
            && CountOn(entries, Receipted) > 0 && CountOn(entries, Till) > 0)
  {
    hide AmountOn, CountOn, InCents, Round2, AnyShort;
    AmountInCents(entries, Till);
    AmountInCents(entries, Receipted);
    CentsAreUnchanged(AmountOn(entries, Till));
    CentsAreUnchanged(AmountOn(entries, Receipted));
    CentsSubtract(AmountOn(entries, Till), AmountOn(entries, Receipted));
    CentsAreUnchanged(AmountOn(entries, Till) - AmountOn(entries, Receipted));
  }

  lemma AmountInCents(entries: seq<Entry>, side: Side)
    requires forall i :: 0 <= i < |entries| ==> InCents(entries[i].amount)
    ensures InCents(AmountOn(entries, side))
  {
    ZeroIsInCents();
    SumInCents(entries, OnSide(side));
  }

  // ----- gathering

  class TenderGroup {
    const tender: string
    var odooCount: nat
    var odooTotal: real
    var oracleCount: nat
    var oracleTotal: real
    var oracleFees: real
    var partial: bool
    ghost var entries: seq<Entry>

    ghost predicate Valid()
      reads this
    {
      && odooCount == CountOn(entries, Till)
      && odooTotal == AmountOn(entries, Till)
      && oracleCount == CountOn(entries, Receipted)
      && oracleTotal == AmountOn(entries, Receipted)
      && oracleFees == AmountOn(entries, Fee)
      && partial == AnyShort(entries)
      && (|entries| > 0 ==> tender == entries[0].tender)
    }

    constructor (tender: string)
      ensures Valid() && entries == [] && this.tender == tender
    {
      this.tender := tender;
      odooCount, oracleCount := 0, 0;
      odooTotal, oracleTotal, oracleFees := 0.0, 0.0, 0.0;
      partial := false;
      entries := [];
    }

    method Add(e: Entry)
      requires Valid() && (entries == [] ==> tender == e.tender)
      modifies this
      ensures Valid() && entries == old(entries) + [e]
    {
      hide CountOn, AmountOn, AnyShort;
      EntriesSnoc(entries, e);
      match e.side {
        case Till =>
          odooCount := odooCount + e.count;
          odooTotal := odooTotal + e.amount;
        case Receipted =>
          oracleCount := oracleCount + e.count;
          oracleTotal := oracleTotal + e.amount;
        case Fee =>
          oracleFees := oracleFees + e.amount;
      }
      if e.short {
        partial := true;
      }
      entries := entries + [e];
    }

    function Row(tolerance: real): (row: TenderRow)
      reads this
      requires Valid() && |entries| > 0
      ensures row == TenderOf(entries, tolerance)
    {
      Finalise(tender, odooCount, odooTotal, oracleCount, oracleTotal, oracleFees, partial, tolerance)
    }
  }

  lemma EntriesSnoc(entries: seq<Entry>, e: Entry)
    ensures forall side :: AmountOn(entries + [e], side) == AmountOn(entries, side) + OnSide(side)(e)
    ensures forall side ::
      CountOn(entries + [e], side) == CountOn(entries, side) + if e.side == side then e.count else 0
    ensures AnyShort(entries + [e]) == (AnyShort(entries) || e.short)
  {
    assert (entries + [e])[..|entries|] == entries;
    assert (entries + [e])[|entries|] == e;
    assert forall i :: 0 <= i < |entries| ==> (entries + [e])[i] == entries[i];
  }

  /** The groups being filled, found by key and added when new. */
  class TenderBook {
    var groups: map<string, TenderGroup>
    ghost var entries: seq<Entry>

    ghost predicate Valid()
      reads this, groups.Values
    {
      && groups.Keys == KeysOf(entries, EntryKey)
      && (forall k :: k in groups ==>
        groups[k].Valid() && groups[k].entries == Bucket(entries, EntryKey, k) && |groups[k].entries| > 0)
      && (forall k, l :: k in groups && l in groups && k != l ==> groups[k] != groups[l])
    }

    constructor ()
      ensures Valid() && entries == [] && groups == map[]
    {
      groups, entries := map[], [];
    }

    method Add(e: Entry)
      requires Valid()
      modifies this, groups.Values
      ensures Valid() && entries == old(entries) + [e]
      ensures fresh(groups.Values - old(groups.Values))
    {
      hide KeysOf, Bucket, TenderGroup.Valid;
      BucketsSnoc(entries, e, EntryKey);
      if e.key !in groups {
        var group := new TenderGroup(e.tender);
        groups := groups[e.key := group];
      }
      groups[e.key].Add(e);
      entries := entries + [e];
    }
  }

  /** Both look-ups over the rows, built in one pass each. */
  method IndexByTxn(rows: seq<Row>) returns (first: map<string, Row>, scanned: map<string, nat>)
    ensures forall t :: t in first <==> t != "" && FirstWith(rows, t).Some?
    ensures forall t :: t in first ==> FirstWith(rows, t) == Some(first[t])
    ensures forall t :: t in scanned <==> t != "" && CountWith(rows, t) > 0
    ensures forall t :: t in scanned ==> CountWith(rows, t) == scanned[t]
  {
    first, scanned := map[], map[];
    for i := 0 to |rows|
      invariant forall t :: t in first <==> t != "" && FirstWith(rows[..i], t).Some?
      invariant forall t :: t in first ==> FirstWith(rows[..i], t) == Some(first[t])
    {
      assert rows[..i + 1][..i] == rows[..i];
      var txn := TxnOf(rows[i]);
      if txn != "" && txn !in first {
        first := first[txn := rows[i]];
      }
    }
    for i := 0 to |rows|
      invariant forall t :: t in scanned <==> t != "" && CountWith(rows[..i], t) > 0
      invariant forall t :: t in scanned ==> CountWith(rows[..i], t) == scanned[t]
    {
      assert rows[..i + 1][..i] == rows[..i];
      var txn := TxnOf(rows[i]);
      if txn != "" {
        scanned := scanned[txn := (if txn in scanned then scanned[txn] else 0) + 1];
      }
    }
    assert rows[..|rows|] == rows;
  }

  method FillTill(book: TenderBook, rows: seq<Row>, payments: map<int, seq<Takings>>, grouping: TenderBy)
    requires book.Valid()
    modifies book, book.groups.Values
    ensures book.Valid() && fresh(book.groups.Values - old(book.groups.Values))
    ensures book.entries == old(book.entries) + TillSide(rows, payments, grouping)
  {
    hide TenderBook.Valid, RowEntries, TakingsOf;
    assert book.entries + [] == book.entries;
    for i := 0 to |rows|
      invariant book.Valid() && fresh(book.groups.Values - old(book.groups.Values))
      invariant book.entries == old(book.entries) + TillSide(rows[..i], payments, grouping)
    {
      assert rows[..i + 1][..i] == rows[..i];
      FillRow(book, rows[i], grouping, TakingsOf(payments, rows[i]));
    }
    assert rows[..|rows|] == rows;
  }

  method FillRow(book: TenderBook, row: Row, grouping: TenderBy, taken: seq<Takings>)
    requires book.Valid()
    modifies book, book.groups.Values
    ensures book.Valid() && fresh(book.groups.Values - old(book.groups.Values))
    ensures book.entries == old(book.entries) + RowEntries(row, grouping, taken)
  {
    hide TenderBook.Valid, TillEntry;
    assert book.entries + [] == book.entries;
    for j := 0 to |taken|
      invariant book.Valid() && fresh(book.groups.Values - old(book.groups.Values))
      invariant book.entries == old(book.entries) + RowEntries(row, grouping, taken[..j])
    {
      assert taken[..j + 1][..j] == taken[..j];
      book.Add(TillEntry(row, grouping, taken[j]));
    }
    assert taken[..|taken|] == taken;
  }

  method FillReceipts(book: TenderBook, rows: seq<Row>, receipts: seq<Receipt>, grouping: TenderBy)
    requires book.Valid()
    modifies book, book.groups.Values
    ensures book.Valid() && fresh(book.groups.Values - old(book.groups.Values))
    ensures book.entries == old(book.entries) + ReceiptSide(rows, grouping, receipts)
  {
    hide TenderBook.Valid, FirstWith, CountWith, ReceiptEntry;
    var first, scanned := IndexByTxn(rows);
    assert book.entries + [] == book.entries;
    for i := 0 to |receipts|
      invariant book.Valid() && fresh(book.groups.Values - old(book.groups.Values))
      invariant book.entries == old(book.entries) + ReceiptSide(rows, grouping, receipts[..i])
    {
      assert receipts[..i + 1][..i] == receipts[..i];
      var r := receipts[i];
      FirstIsCounted(rows, r.txn);
      if r.txn in first {
        var row := first[r.txn];
        var covers := if row.oracle.Some? then row.oracle.value.coversOrders else 1;
        var e := Entry(
          TenderKey(row, r.tender, grouping), r.tender, if r.isMisc then Fee else Receipted, if r.isMisc then 0 else 1,
          r.amount, (if r.txn in scanned then scanned[r.txn] else 0) < covers);
        EntryOfReceipt(rows, grouping, r);
        book.Add(e);
      } else {
        EntryOfReceipt(rows, grouping, r);
      }
    }
    assert receipts[..|receipts|] == receipts;
  }

  lemma EntryOfReceipt(rows: seq<Row>, grouping: TenderBy, r: Receipt)
    ensures
      var row := FirstWith(rows, r.txn);
      ReceiptEntry(rows, grouping, r)
      == if r.txn == "" || row.None? then None
         else
           var covers := if row.value.oracle.Some? then row.value.oracle.value.coversOrders else 1;
           Some(Entry(TenderKey(row.value, r.tender, grouping), r.tender, if r.isMisc then Fee else Receipted,
                      if r.isMisc then 0 else 1, r.amount, CountWith(rows, r.txn) < covers))
  {
  }

  lemma {:induction false} FirstIsCounted(rows: seq<Row>, txn: string)
    ensures FirstWith(rows, txn).Some? <==> CountWith(rows, txn) > 0
  {
    if |rows| == 0 {
    } else {
      FirstIsCounted(rows[..|rows| - 1], txn);
    }
  }

  // ----- the report

  function OdooTotalIn(reported: map<string, TenderRow>): string -> real {
    k => if k in reported then reported[k].odooTotal else 0.0
  }

  function OracleTotalIn(reported: map<string, TenderRow>): string -> real {
    k => if k in reported then reported[k].oracleTotal else 0.0
  }

  function OracleFeesIn(reported: map<string, TenderRow>): string -> real {
    k => if k in reported then reported[k].oracleFees else 0.0
  }

  function OdooCountIn(reported: map<string, TenderRow>): string -> real {
    k => if k in reported then reported[k].odooCount as real else 0.0
  }

  function OracleCountIn(reported: map<string, TenderRow>): string -> real {
    k => if k in reported then reported[k].oracleCount as real else 0.0
  }

  /** The rows are the groups of the entries, each finalised. */
  ghost predicate Reports(reported: map<string, TenderRow>, entries: seq<Entry>, tolerance: real) {
    && reported.Keys == KeysOf(entries, EntryKey)
    && forall k :: k in reported ==>
      |Bucket(entries, EntryKey, k)| > 0 && reported[k] == TenderOf(Bucket(entries, EntryKey, k), tolerance)
  }

  /** The grand total adds up the rows as reported, already rounded, and rounds again. */
  ghost predicate IsGrandTotal(totals: TenderRow, reported: map<string, TenderRow>, tolerance: real) {
    && totals.odooTotal == Round2(SumSet(reported.Keys, OdooTotalIn(reported)))
    && totals.oracleTotal == Round2(SumSet(reported.Keys, OracleTotalIn(reported)))
    && totals.oracleFees == Round2(SumSet(reported.Keys, OracleFeesIn(reported)))
    && totals.odooCount as real == SumSet(reported.Keys, OdooCountIn(reported))
    && totals.oracleCount as real == SumSet(reported.Keys, OracleCountIn(reported))
    && totals.partial == (exists k :: k in reported && reported[k].partial)
    && totals.variance == Round2(totals.odooTotal - totals.oracleTotal)
    && totals.status == StatusOf(totals.variance, totals.partial, totals.odooCount, totals.oracleCount, tolerance)
  }

  /** The running totals are those of the rows done. */
  ghost predicate Running(reported: map<string, TenderRow>, done: set<string>, odooCount: nat, odooTotal: real,
                          oracleCount: nat, oracleTotal: real, oracleFees: real, partial: bool)
  {
    && odooTotal == SumSet(done, OdooTotalIn(reported))
    && oracleTotal == SumSet(done, OracleTotalIn(reported))
    && oracleFees == SumSet(done, OracleFeesIn(reported))
    && odooCount as real == SumSet(done, OdooCountIn(reported))
    && oracleCount as real == SumSet(done, OracleCountIn(reported))
    && partial == exists k :: k in done && k in reported && reported[k].partial
  }

  lemma OneMoreRow(reported: map<string, TenderRow>, done: set<string>, odooCount: nat, odooTotal: real,
                   oracleCount: nat, oracleTotal: real, oracleFees: real, partial: bool, k: string)
    requires Running(reported, done, odooCount, odooTotal, oracleCount, oracleTotal, oracleFees, partial)
    requires k in reported && k !in done
    ensures
      var r := reported[k];
      Running(reported, done + {k}, odooCount + r.odooCount, odooTotal + r.odooTotal, oracleCount + r.oracleCount,
              oracleTotal + r.oracleTotal, oracleFees + r.oracleFees, partial || r.partial)
  {
    hide SumSet;
    SumSetAdd(done, OdooTotalIn(reported), k);
    SumSetAdd(done, OracleTotalIn(reported), k);
    SumSetAdd(done, OracleFeesIn(reported), k);
    SumSetAdd(done, OdooCountIn(reported), k);
    SumSetAdd(done, OracleCountIn(reported), k);
  }

  lemma NothingAddedUp(reported: map<string, TenderRow>)
    ensures Running(reported, {}, 0, 0.0, 0, 0.0, 0.0, false)
  {
  }

  lemma AllAddedUp(reported: map<string, TenderRow>, odooCount: nat, odooTotal: real, oracleCount: nat,
                   oracleTotal: real, oracleFees: real, partial: bool, tolerance: real)
    requires Running(reported, reported.Keys, odooCount, odooTotal, oracleCount, oracleTotal, oracleFees, partial)
    ensures IsGrandTotal(
      Finalise("All tenders", odooCount, odooTotal, oracleCount, oracleTotal, oracleFees, partial, tolerance),
      reported, tolerance)
  {
    hide SumSet, Round2, StatusOf;
  }

  method AddUp(reported: map<string, TenderRow>, tolerance: real) returns (totals: TenderRow)
    ensures IsGrandTotal(totals, reported, tolerance)
  {
    hide Running, IsGrandTotal, Finalise;
    var odooCount: nat, oracleCount: nat := 0, 0;
    var odooTotal, oracleTotal, oracleFees := 0.0, 0.0, 0.0;
    var partial := false;
    var rest := reported.Keys;
    ghost var done: set<string> := {};
    NothingAddedUp(reported);
    while rest != {}
      invariant done !! rest && done + rest == reported.Keys
      invariant Running(reported, done, odooCount, odooTotal, oracleCount, oracleTotal, oracleFees, partial)
      decreases |rest|
    {
      var k :| k in rest;
      var r := reported[k];
      OneMoreRow(reported, done, odooCount, odooTotal, oracleCount, oracleTotal, oracleFees, partial, k);
      odooCount := odooCount + r.odooCount;
      odooTotal := odooTotal + r.odooTotal;
      oracleCount := oracleCount + r.oracleCount;
      oracleTotal := oracleTotal + r.oracleTotal;
      oracleFees := oracleFees + r.oracleFees;
      partial := partial || r.partial;
      rest := rest - {k};
      done := done + {k};
    }
    assert done == reported.Keys;
    AllAddedUp(reported, odooCount, odooTotal, oracleCount, oracleTotal, oracleFees, partial, tolerance);
    totals := Finalise("All tenders", odooCount, odooTotal, oracleCount, oracleTotal, oracleFees, partial, tolerance);
  }

  method TenderBreakdown(rows: seq<Row>, payments: map<int, seq<Takings>>, receipts: seq<Receipt>, grouping: TenderBy,
                         tolerance: real)
    returns (reported: map<string, TenderRow>, totals: TenderRow)
    ensures Reports(reported, Entries(rows, payments, receipts, grouping), tolerance)
    ensures IsGrandTotal(totals, reported, tolerance)
  {
    hide TillSide, ReceiptSide, IsGrandTotal, KeysOf, Bucket, TenderGroup.Valid, TenderOf;
    var book := new TenderBook();
    FillTill(book, rows, payments, grouping);
    FillReceipts(book, rows, receipts, grouping);
    assert [] + TillSide(rows, payments, grouping) == TillSide(rows, payments, grouping);
    reported := map k | k in book.groups :: book.groups[k].Row(tolerance);
    totals := AddUp(reported, tolerance);
  }

  // ----- conservation

  function PaidOn(payments: map<int, seq<Takings>>): Row -> real {
    (row: Row) => if row.odoo.orderId in payments then SumSeq(payments[row.odoo.orderId], TakingsTotal) else 0.0
  }

  function TakingsTotal(t: Takings): real {
    t.total
  }

  lemma {:induction false} RowEntriesAdd(row: Row, grouping: TenderBy, taken: seq<Takings>, side: Side)
    ensures AmountOn(RowEntries(row, grouping, taken), side)
         == if side == Till then SumSeq(taken, TakingsTotal) else 0.0
  {
    if |taken| == 0 {
    } else {
      hide TenderKey;
      var before, t := taken[..|taken| - 1], taken[|taken| - 1];
      RowEntriesAdd(row, grouping, before, side);
      SumSeqSnoc(RowEntries(row, grouping, before), TillEntry(row, grouping, t), OnSide(side));
    }
  }

  lemma {:induction false} TillSideAdds(
    rows: seq<Row>, payments: map<int, seq<Takings>>, grouping: TenderBy, side: Side)
    ensures AmountOn(TillSide(rows, payments, grouping), side)
         == if side == Till then SumSeq(rows, PaidOn(payments)) else 0.0
  {
    if |rows| == 0 {
    } else {
      hide RowEntries;
      var before, row := rows[..|rows| - 1], rows[|rows| - 1];
      TillSideAdds(before, payments, grouping, side);
      RowEntriesAdd(row, grouping, TakingsOf(payments, row), side);
      var entries := RowEntries(row, grouping, TakingsOf(payments, row));
      SumSeqConcat(TillSide(before, payments, grouping), entries, OnSide(side));
    }
  }

  /** The receipts that land on one side: those whose transaction number some row carries. */
  function LandsOn(rows: seq<Row>, side: Side): Receipt -> real {
    (r: Receipt) =>
      if r.txn != "" && FirstWith(rows, r.txn).Some? && side == (if r.isMisc then Fee else Receipted)
      then r.amount else 0.0
  }

  lemma ReceiptLands(rows: seq<Row>, grouping: TenderBy, r: Receipt, side: Side)
    ensures
      var e := ReceiptEntry(rows, grouping, r);
      LandsOn(rows, side)(r) == if e.Some? then OnSide(side)(e.value) else 0.0
  {
    hide TenderKey, FirstWith, CountWith;
  }

  lemma {:induction false} ReceiptSideAdds(rows: seq<Row>, grouping: TenderBy, receipts: seq<Receipt>, side: Side)
    ensures AmountOn(ReceiptSide(rows, grouping, receipts), side) == SumSeq(receipts, LandsOn(rows, side))
  {
    if |receipts| == 0 {
    } else {
      hide ReceiptEntry, LandsOn, OnSide;
      var before, r := receipts[..|receipts| - 1], receipts[|receipts| - 1];
      ReceiptSideAdds(rows, grouping, before, side);
      ReceiptLands(rows, grouping, r, side);
      var e := ReceiptEntry(rows, grouping, r);
      if e.Some? {
        SumSeqSnoc(ReceiptSide(rows, grouping, before), e.value, OnSide(side));
      } else {
        assert ReceiptSide(rows, grouping, before) + [] == ReceiptSide(rows, grouping, before);
      }
    }
  }

  // ----- counts

  function CountTaken(taken: seq<Takings>): nat {
    if |taken| == 0 then 0 else CountTaken(taken[..|taken| - 1]) + taken[|taken| - 1].count
  }

  /** The payments of the scanned orders. */
  function CountPaid(rows: seq<Row>, payments: map<int, seq<Takings>>): nat {
    if |rows| == 0 then 0
    else
      var order := rows[|rows| - 1].odoo.orderId;
      CountPaid(rows[..|rows| - 1], payments) + if order in payments then CountTaken(payments[order]) else 0
  }

  /** The standard receipts whose transaction number some row carries. */
  function CountLanding(rows: seq<Row>, receipts: seq<Receipt>): nat {
    if |receipts| == 0 then 0
    else
      var r := receipts[|receipts| - 1];
      CountLanding(rows, receipts[..|receipts| - 1])
      + if r.txn != "" && FirstWith(rows, r.txn).Some? && !r.isMisc then 1 else 0
  }

  lemma CountOnSnoc(entries: seq<Entry>, e: Entry, side: Side)
    ensures CountOn(entries + [e], side) == CountOn(entries, side) + if e.side == side then e.count else 0
  {
    assert (entries + [e])[..|entries|] == entries;
  }

  lemma {:induction false} CountOnConcat(a: seq<Entry>, b: seq<Entry>, side: Side)
    ensures CountOn(a + b, side) == CountOn(a, side) + CountOn(b, side)
    decreases |b|
  {
    if |b| == 0 {
      assert a + b == a;
    } else {
      assert (a + b)[..|a + b| - 1] == a + b[..|b| - 1];
      CountOnConcat(a, b[..|b| - 1], side);
    }
  }

  lemma {:induction false} RowEntriesCount(row: Row, grouping: TenderBy, taken: seq<Takings>, side: Side)
    ensures CountOn(RowEntries(row, grouping, taken), side) == if side == Till then CountTaken(taken) else 0
  {
    if |taken| == 0 {
    } else {
      hide TenderKey;
      var before, t := taken[..|taken| - 1], taken[|taken| - 1];
      RowEntriesCount(row, grouping, before, side);
      CountOnSnoc(RowEntries(row, grouping, before), TillEntry(row, grouping, t), side);
    }
  }

  lemma {:induction false} TillSideCounts(
    rows: seq<Row>, payments: map<int, seq<Takings>>, grouping: TenderBy, side: Side)
    ensures CountOn(TillSide(rows, payments, grouping), side) == if side == Till then CountPaid(rows, payments) else 0
  {
    if |rows| == 0 {
    } else {
      hide RowEntries;
      var before, row := rows[..|rows| - 1], rows[|rows| - 1];
      TillSideCounts(before, payments, grouping, side);
      RowEntriesCount(row, grouping, TakingsOf(payments, row), side);
      CountOnConcat(TillSide(before, payments, grouping), RowEntries(row, grouping, TakingsOf(payments, row)), side);
    }
  }

  lemma {:induction false} ReceiptSideCounts(rows: seq<Row>, grouping: TenderBy, receipts: seq<Receipt>)
    ensures CountOn(ReceiptSide(rows, grouping, receipts), Till) == 0
    ensures CountOn(ReceiptSide(rows, grouping, receipts), Receipted) == CountLanding(rows, receipts)
  {
    if |receipts| == 0 {
    } else {
      hide TenderKey, FirstWith, CountWith, CountOn;
      var before, r := receipts[..|receipts| - 1], receipts[|receipts| - 1];
      ReceiptSideCounts(rows, grouping, before);
      var e := ReceiptEntry(rows, grouping, r);
      if e.Some? {
        CountOnSnoc(ReceiptSide(rows, grouping, before), e.value, Till);
        CountOnSnoc(ReceiptSide(rows, grouping, before), e.value, Receipted);
      } else {
        assert ReceiptSide(rows, grouping, before) + [] == ReceiptSide(rows, grouping, before);
      }
    }
  }

  function CountFor(side: Side): Entry -> real {
    (e: Entry) => if e.side == side then e.count as real else 0.0
  }

  /** What a group counts on one side. */
  function GroupCount(entries: seq<Entry>, side: Side): string -> real {
    key => CountOn(Bucket(entries, EntryKey, key), side) as real
  }

  lemma {:induction false} CountIsSum(entries: seq<Entry>, side: Side)
    ensures CountOn(entries, side) as real == SumSeq(entries, CountFor(side))
  {
    if |entries| == 0 {
    } else {
      CountIsSum(entries[..|entries| - 1], side);
    }
  }

  lemma GroupsCountAll(entries: seq<Entry>, side: Side)
    ensures SumSet(KeysOf(entries, EntryKey), GroupCount(entries, side)) == CountOn(entries, side) as real
  {
    hide SumSet, SumSeq, KeysOf, Bucket, CountOn;
    forall key
      ensures GroupCount(entries, side)(key) == BucketSum(entries, EntryKey, CountFor(side))(key)
    {
      CountIsSum(Bucket(entries, EntryKey, key), side);
    }
    SumSetSame(KeysOf(entries, EntryKey), GroupCount(entries, side), BucketSum(entries, EntryKey, CountFor(side)));
    BucketsPartition(entries, EntryKey, CountFor(side));
    CountIsSum(entries, side);
  }

  lemma EntriesCount(rows: seq<Row>, payments: map<int, seq<Takings>>, receipts: seq<Receipt>, grouping: TenderBy)
    ensures
      var entries := Entries(rows, payments, receipts, grouping);
      && CountOn(entries, Till) == CountPaid(rows, payments)
      && CountOn(entries, Receipted) == CountLanding(rows, receipts)
  {
    hide TillSide, ReceiptSide, CountOn;
    var till, back := TillSide(rows, payments, grouping), ReceiptSide(rows, grouping, receipts);
    CountOnConcat(till, back, Till);
    CountOnConcat(till, back, Receipted);
    TillSideCounts(rows, payments, grouping, Till);
    TillSideCounts(rows, payments, grouping, Receipted);
    ReceiptSideCounts(rows, grouping, receipts);
  }

  // ----- conservation over the groups

  /**
   Before rounding, whatever the grouping: the groups hold exactly the takings and exactly the receipts that land, in
   money and in number.
   */
  lemma TendersConserve(rows: seq<Row>, payments: map<int, seq<Takings>>, receipts: seq<Receipt>, grouping: TenderBy)
    ensures
      var entries := Entries(rows, payments, receipts, grouping);
      var keys := KeysOf(entries, EntryKey);
      && SumSet(keys, BucketSum(entries, EntryKey, OnSide(Till))) == SumSeq(rows, PaidOn(payments))
      && SumSet(keys, BucketSum(entries, EntryKey, OnSide(Receipted))) == SumSeq(receipts, LandsOn(rows, Receipted))
      && SumSet(keys, BucketSum(entries, EntryKey, OnSide(Fee))) == SumSeq(receipts, LandsOn(rows, Fee))
      && SumSet(keys, GroupCount(entries, Till)) == CountPaid(rows, payments) as real
      && SumSet(keys, GroupCount(entries, Receipted)) == CountLanding(rows, receipts) as real
  {
    hide SumSet, SumSeq, KeysOf, BucketSum, TillSide, ReceiptSide, Entries, CountOn, Bucket;
    SideIsConserved(rows, payments, receipts, grouping, Till);
    SideIsConserved(rows, payments, receipts, grouping, Receipted);
    SideIsConserved(rows, payments, receipts, grouping, Fee);
    NothingLandsOnTheTill(rows, receipts);
    EntriesCount(rows, payments, receipts, grouping);
    GroupsCountAll(Entries(rows, payments, receipts, grouping), Till);
    GroupsCountAll(Entries(rows, payments, receipts, grouping), Receipted);
  }

  /** The grand total's counts are those of the scanned orders' payments and of the standard receipts that land. */
  lemma GrandCountsAreExact(rows: seq<Row>, payments: map<int, seq<Takings>>, receipts: seq<Receipt>,
                            grouping: TenderBy, tolerance: real, reported: map<string, TenderRow>, totals: TenderRow)
    requires Reports(reported, Entries(rows, payments, receipts, grouping), tolerance)
    requires IsGrandTotal(totals, reported, tolerance)
    ensures totals.odooCount == CountPaid(rows, payments)
    ensures totals.oracleCount == CountLanding(rows, receipts)
  {
    hide SumSet, SumSeq, KeysOf, Bucket, Entries, Round2, StatusOf, CountOn, AnyShort, CountPaid, CountLanding;
    var entries := Entries(rows, payments, receipts, grouping);
    TendersConserve(rows, payments, receipts, grouping);
    forall k | k in reported.Keys
      ensures OdooCountIn(reported)(k) == GroupCount(entries, Till)(k)
      ensures OracleCountIn(reported)(k) == GroupCount(entries, Receipted)(k)
    {
    }
    SumSetSame(reported.Keys, OdooCountIn(reported), GroupCount(entries, Till));
    SumSetSame(reported.Keys, OracleCountIn(reported), GroupCount(entries, Receipted));
  }

  lemma {:induction false} NothingLandsOnTheTill(rows: seq<Row>, receipts: seq<Receipt>)
    ensures SumSeq(receipts, LandsOn(rows, Till)) == 0.0
  {
    if |receipts| == 0 {
    } else {
      NothingLandsOnTheTill(rows, receipts[..|receipts| - 1]);
    }
  }

  lemma SideIsConserved(rows: seq<Row>, payments: map<int, seq<Takings>>, receipts: seq<Receipt>, grouping: TenderBy,
                        side: Side)
    ensures
      var entries := Entries(rows, payments, receipts, grouping);
      SumSet(KeysOf(entries, EntryKey), BucketSum(entries, EntryKey, OnSide(side)))
      == SumSeq(receipts, LandsOn(rows, side)) + if side == Till then SumSeq(rows, PaidOn(payments)) else 0.0
  {
    hide SumSet, SumSeq, KeysOf, BucketSum, TillSide, ReceiptSide;
    var till, back := TillSide(rows, payments, grouping), ReceiptSide(rows, grouping, receipts);
    BucketsPartition(till + back, EntryKey, OnSide(side));
    SumSeqConcat(till, back, OnSide(side));
    TillSideAdds(rows, payments, grouping, side);
    ReceiptSideAdds(rows, grouping, receipts, side);
  }

  // ----- what rounding does to the grand total

  lemma RowsAreRounded(reported: map<string, TenderRow>, entries: seq<Entry>, tolerance: real, key: string)
    requires Reports(reported, entries, tolerance) && key in reported
    ensures OdooTotalIn(reported)(key) == Round2(BucketSum(entries, EntryKey, OnSide(Till))(key))
    ensures OracleTotalIn(reported)(key) == Round2(BucketSum(entries, EntryKey, OnSide(Receipted))(key))
    ensures OracleFeesIn(reported)(key) == Round2(BucketSum(entries, EntryKey, OnSide(Fee))(key))
  {
  }

  lemma RoundedTwice(keys: set<string>, exact: string -> real, rounded: string -> real)
    requires forall k :: k in keys ==> rounded(k) == Round2(exact(k))
    ensures -0.005 * (|keys| + 1) as real <= Round2(SumSet(keys, rounded)) - SumSet(keys, exact)
      <= 0.005 * (|keys| + 1) as real
  {
    hide SumSet;
    forall k | k in keys
      ensures -0.005 <= rounded(k) - exact(k) <= 0.005
    {
      Round2IsNearest(exact(k));
    }
    SumSetWithinHalfCents(keys, exact, rounded);
    Round2IsNearest(SumSet(keys, rounded));
  }

  /** The grand totals reported are off by at most half a cent per group and half a cent for the total. */
  lemma GrandTotalWithinHalfCents(rows: seq<Row>, payments: map<int, seq<Takings>>, receipts: seq<Receipt>,
                                  grouping: TenderBy, tolerance: real, reported: map<string, TenderRow>,
                                  totals: TenderRow)
    requires Reports(reported, Entries(rows, payments, receipts, grouping), tolerance)
    requires IsGrandTotal(totals, reported, tolerance)
    ensures
      var bound := 0.005 * (|reported| + 1) as real;
      && -bound <= totals.odooTotal - SumSeq(rows, PaidOn(payments)) <= bound
      && -bound <= totals.oracleTotal - SumSeq(receipts, LandsOn(rows, Receipted)) <= bound
      && -bound <= totals.oracleFees - SumSeq(receipts, LandsOn(rows, Fee)) <= bound
  {
    hide SumSet, SumSeq, KeysOf, BucketSum, Bucket, Entries, TenderOf, Round2, StatusOf;
    var entries := Entries(rows, payments, receipts, grouping);
    TendersConserve(rows, payments, receipts, grouping);
    forall k | k in reported.Keys
      ensures OdooTotalIn(reported)(k) == Round2(BucketSum(entries, EntryKey, OnSide(Till))(k))
      ensures OracleTotalIn(reported)(k) == Round2(BucketSum(entries, EntryKey, OnSide(Receipted))(k))
      ensures OracleFeesIn(reported)(k) == Round2(BucketSum(entries, EntryKey, OnSide(Fee))(k))
    {
      RowsAreRounded(reported, entries, tolerance, k);
    }
    RoundedTwice(reported.Keys, BucketSum(entries, EntryKey, OnSide(Till)), OdooTotalIn(reported));
    RoundedTwice(reported.Keys, BucketSum(entries, EntryKey, OnSide(Receipted)), OracleTotalIn(reported));
    RoundedTwice(reported.Keys, BucketSum(entries, EntryKey, OnSide(Fee)), OracleFeesIn(reported));
    assert |reported.Keys| == |reported|;
  }

  /** When every payment and receipt is in whole cents, nothing is lost: every grouping reports the same totals. */
  lemma GrandTotalExactInCents(rows: seq<Row>, payments: map<int, seq<Takings>>, receipts: seq<Receipt>,
                               grouping: TenderBy, tolerance: real, reported: map<string, TenderRow>, totals: TenderRow)
    requires Reports(reported, Entries(rows, payments, receipts, grouping), tolerance)
    requires IsGrandTotal(totals, reported, tolerance)
    requires forall e :: e in Entries(rows, payments, receipts, grouping) ==> InCents(e.amount)
    ensures totals.odooTotal == SumSeq(rows, PaidOn(payments))
    ensures totals.oracleTotal == SumSeq(receipts, LandsOn(rows, Receipted))
    ensures totals.oracleFees == SumSeq(receipts, LandsOn(rows, Fee))
  {
    hide SumSet, SumSeq, KeysOf, BucketSum, Bucket, Entries, TenderOf, Round2, StatusOf, InCents;
    var entries := Entries(rows, payments, receipts, grouping);
    TendersConserve(rows, payments, receipts, grouping);
    forall k | k in reported.Keys
      ensures OdooTotalIn(reported)(k) == BucketSum(entries, EntryKey, OnSide(Till))(k)
      ensures OracleTotalIn(reported)(k) == BucketSum(entries, EntryKey, OnSide(Receipted))(k)
      ensures OracleFeesIn(reported)(k) == BucketSum(entries, EntryKey, OnSide(Fee))(k)
    {
      RowsAreRounded(reported, entries, tolerance, k);
      BucketInCents(entries, k, Till);
      BucketInCents(entries, k, Receipted);
      BucketInCents(entries, k, Fee);
    }
    SumSetSame(reported.Keys, OdooTotalIn(reported), BucketSum(entries, EntryKey, OnSide(Till)));
    SumSetSame(reported.Keys, OracleTotalIn(reported), BucketSum(entries, EntryKey, OnSide(Receipted)));
    SumSetSame(reported.Keys, OracleFeesIn(reported), BucketSum(entries, EntryKey, OnSide(Fee)));
    WholeInCents(entries, Till);
    WholeInCents(entries, Receipted);
    WholeInCents(entries, Fee);
  }

  lemma BucketInCents(entries: seq<Entry>, key: string, side: Side)
    requires forall e :: e in entries ==> InCents(e.amount)
    ensures Round2(BucketSum(entries, EntryKey, OnSide(side))(key)) == BucketSum(entries, EntryKey, OnSide(side))(key)
  {
    hide InCents, Round2;
    BucketAmong(entries, EntryKey, key);
    AmountInCents(Bucket(entries, EntryKey, key), side);
    CentsAreUnchanged(AmountOn(Bucket(entries, EntryKey, key), side));
  }

  lemma WholeInCents(entries: seq<Entry>, side: Side)
    requires forall e :: e in entries ==> InCents(e.amount)
    ensures var whole := SumSet(KeysOf(entries, EntryKey), BucketSum(entries, EntryKey, OnSide(side)));
      Round2(whole) == whole
  {
    hide InCents, Round2, SumSet, BucketSum, KeysOf;
    BucketsPartition(entries, EntryKey, OnSide(side));
    AmountInCents(entries, side);
    CentsAreUnchanged(AmountOn(entries, side));
  }
}
