/** One Odoo order put next to what reached Oracle for it, and the verdict on the pair. */
module Reconciliation {
  import opened Wrappers
  import opened Money
  import opened Text

  datatype Status =
    | OracleError
    | MissingInOracle
    | UnexpectedInOracle
    | AmountMismatch
    | PaymentMismatch
    | LineMismatch
    | NotSyncable
    | Matched

  /** Worst first. */
  const SEVERITY: seq<Status> := [
    OracleError, MissingInOracle, UnexpectedInOracle, AmountMismatch, PaymentMismatch, LineMismatch, NotSyncable,
    Matched]

  datatype OdooSide = OdooSide(
    orderId: int,
    orderName: string,
    branchCode: Option<string>,
    branchName: Option<string>,
    posConfigName: Option<string>,
    orderDate: Option<string>,
    state: Option<string>,
    total: real,
    lineCount: int,
    paymentTotal: real)

  datatype OracleSide = OracleSide(
    headerId: Option<string>,
    invoiceNumber: Option<string>,
    status: Option<string>,
    total: Option<real>,
    coversOrders: int,
    lineCount: int,
    receiptTotal: Option<real>)
  {
    predicate IsAggregate() {
      coversOrders > 1
    }
  }

  datatype Row = Row(
    odoo: OdooSide,
    oracle: Option<OracleSide>,
    status: Status,
    amountDifference: Option<real>,
    paymentDifference: Option<real>,
    lineDifference: Option<int>)

  // ----- the worst status

  function FirstAmong(candidates: seq<Status>, statuses: seq<Status>): Status {
    if candidates == [] then Matched
    else if candidates[0] in statuses then candidates[0]
    else FirstAmong(candidates[1..], statuses)
  }

  function WorstOf(statuses: seq<Status>): Status {
    FirstAmong(SEVERITY, statuses)
  }

  function Severity(s: Status): nat {
    match s
    case OracleError => 0
    case MissingInOracle => 1
    case UnexpectedInOracle => 2
    case AmountMismatch => 3
    case PaymentMismatch => 4
    case LineMismatch => 5
    case NotSyncable => 6
    case Matched => 7
  }

  lemma SeverityIsTheIndex(s: Status)
    ensures Severity(s) < |SEVERITY| && SEVERITY[Severity(s)] == s
  {
  }

  lemma {:induction false} FirstAmongIsLeast(candidates: seq<Status>, statuses: seq<Status>, from: nat)
    requires from <= |SEVERITY| && candidates == SEVERITY[from..]
    requires forall s :: s in statuses ==> Severity(s) >= from
    ensures statuses == [] ==> FirstAmong(candidates, statuses) == Matched
    ensures statuses != [] ==> FirstAmong(candidates, statuses) in statuses
    ensures forall s :: s in statuses ==> Severity(FirstAmong(candidates, statuses)) <= Severity(s)
    decreases |candidates|
  {
    if candidates == [] {
      if statuses != [] {
        SeverityIsTheIndex(statuses[0]);
      }
    } else if candidates[0] !in statuses {
      assert SEVERITY[from..][1..] == SEVERITY[from + 1..];
      forall s | s in statuses
        ensures Severity(s) >= from + 1
      {
        SeverityIsTheIndex(s);
      }
      FirstAmongIsLeast(candidates[1..], statuses, from + 1);
    } else {
      assert Severity(candidates[0]) == from;
    }
  }

  /** Of the statuses given, the worst; repeats and order do not matter, and none at all is a match. */
  lemma WorstOfIsTheWorst(statuses: seq<Status>)
    ensures statuses == [] ==> WorstOf(statuses) == Matched
    ensures statuses != [] ==> WorstOf(statuses) in statuses
    ensures forall s :: s in statuses ==> Severity(WorstOf(statuses)) <= Severity(s)
  {
    assert SEVERITY[0..] == SEVERITY;
    FirstAmongIsLeast(SEVERITY, statuses, 0);
  }

  lemma WorstOfDependsOnlyOnTheSet(a: seq<Status>, b: seq<Status>)
    requires forall s :: s in a <==> s in b
    ensures WorstOf(a) == WorstOf(b)
  {
    WorstOfIsTheWorst(a);
    WorstOfIsTheWorst(b);
    if a != [] {
      assert a[0] in a;
      SeverityIsTheIndex(WorstOf(a));
    }
    if b != [] {
      assert b[0] in b;
      SeverityIsTheIndex(WorstOf(b));
    }
  }

  // ----- classification

  const PAID_ORDER_STATES: set<string> := {
    "paid", "done", "posted", "invoiced", "sale", "invoice", "confirmed", "validated", "sent", "open", "to invoice",
    "to_invoice", "progress", "in_payment", "in payment", "processing", "complete", "completed", "closed",
    "finalized", "finalised"}

  predicate Syncable(odoo: OdooSide) {
    var state := Trim(Lower(odoo.state.GetOr("")));
    var isCancelled := state == "cancel" || state == "cancelled";
    !isCancelled && (state == "" || state in PAID_ORDER_STATES)
  }

  predicate Rejected(oracle: OracleSide) {
    oracle.status.Some? && oracle.status.value != "" && Upper(oracle.status.value) == "ERROR"
  }

  predicate Exceeds(difference: Option<real>, tolerance: real) {
    difference.Some? && Abs(difference.value) > tolerance
  }

  /** Every way the pair is out, in the order in which it is checked. */
  function Findings(odoo: OdooSide, oracle: Option<OracleSide>, tolerance: real): seq<Status> {
    if !Syncable(odoo) then
      if oracle.Some? then [UnexpectedInOracle] else [NotSyncable]
    else if oracle.None? then
      [MissingInOracle]
    else
      var o := oracle.value;
      var rejected := if Rejected(o) then [OracleError] else [];
      var amountDifference :=
        if o.total.Some? && !o.IsAggregate() then Some(Round2(odoo.total - o.total.value)) else None;
      var amount := if Exceeds(amountDifference, tolerance) then [AmountMismatch] else [];
      var paymentDifference :=
        if o.receiptTotal.Some? then Some(Round2(odoo.paymentTotal - o.receiptTotal.value)) else None;
      var payment := if Exceeds(paymentDifference, tolerance) then [PaymentMismatch] else [];
      var lineDifference := odoo.lineCount - o.lineCount;
      var lines :=
        if odoo.lineCount > 0 && o.lineCount == 0 then [LineMismatch]
        else if lineDifference != 0 then [LineMismatch]
        else [];
      rejected + amount + payment + lines
  }

  /** The row reported, its differences worked out anew. */
  function Finish(odoo: OdooSide, oracle: Option<OracleSide>, statuses: seq<Status>): Row {
    Row(
      odoo,
      oracle,
      WorstOf(statuses),
      if oracle.Some? && oracle.value.total.Some? && !oracle.value.IsAggregate()
      then Some(Round2(odoo.total - oracle.value.total.value)) else None,
      if oracle.Some? && oracle.value.receiptTotal.Some?
      then Some(Round2(odoo.paymentTotal - oracle.value.receiptTotal.value)) else None,
      if oracle.Some? then Some(odoo.lineCount - oracle.value.lineCount) else None)
  }

  function Classify(odoo: OdooSide, oracle: Option<OracleSide>, tolerance: real): Row {
    Finish(odoo, oracle, Findings(odoo, oracle, tolerance))
  }

  /** The status read off the row as reported, without the list of findings. */
  function Verdict(row: Row, tolerance: real): Status {
    if !Syncable(row.odoo) then if row.oracle.Some? then UnexpectedInOracle else NotSyncable
    else if row.oracle.None? then MissingInOracle
    else if Rejected(row.oracle.value) then OracleError
    else if Exceeds(row.amountDifference, tolerance) then AmountMismatch
    else if Exceeds(row.paymentDifference, tolerance) then PaymentMismatch
    else if row.lineDifference != Some(0) then LineMismatch
    else Matched
  }

  lemma WorstOfParts(rejected: bool, amount: bool, payment: bool, lines: bool)
    ensures
      WorstOf(
        (if rejected then [OracleError] else []) + (if amount then [AmountMismatch] else [])
        + (if payment then [PaymentMismatch] else []) + (if lines then [LineMismatch] else []))
      == if rejected then OracleError
         else if amount then AmountMismatch
         else if payment then PaymentMismatch
         else if lines then LineMismatch
         else Matched
  {
    var a := if rejected then [OracleError] else [];
    var b := if amount then [AmountMismatch] else [];
    var c := if payment then [PaymentMismatch] else [];
    var d := if lines then [LineMismatch] else [];
    var all := a + b + c + d;
    assert forall s :: s in all <==> s in a || s in b || s in c || s in d;
    WorstOfIsTheWorst(all);
    if rejected || amount || payment || lines {
      assert rejected ==> a[0] in all;
      assert amount ==> b[0] in all;
      assert payment ==> c[0] in all;
      assert lines ==> d[0] in all;
    } else {
      assert all == [];
    }
  }

  /** What is compared and what is reported stay in step: the reported figures decide the reported status. */
  lemma StatusFollowsFromTheReportedRow(odoo: OdooSide, oracle: Option<OracleSide>, tolerance: real)
    ensures Classify(odoo, oracle, tolerance).status == Verdict(Classify(odoo, oracle, tolerance), tolerance)
  {
    hide Trim, Lower, Upper, WorstOf, FirstAmong, Round2, Abs;
    WorstOfSingle(UnexpectedInOracle);
    WorstOfSingle(NotSyncable);
    WorstOfSingle(MissingInOracle);
    if Syncable(odoo) && oracle.Some? {
      var row := Classify(odoo, oracle, tolerance);
      WorstOfParts(Rejected(oracle.value), Exceeds(row.amountDifference, tolerance),
                   Exceeds(row.paymentDifference, tolerance), row.lineDifference != Some(0));
    }
  }

  lemma WorstOfSingle(s: Status)
    ensures WorstOf([s]) == s
  {
    WorstOfIsTheWorst([s]);
  }

  lemma MatchedExactlyWhen(odoo: OdooSide, oracle: Option<OracleSide>, tolerance: real)
    ensures
      var row := Classify(odoo, oracle, tolerance);
      row.status == Matched <==>
        && Syncable(odoo)
        && oracle.Some? && !Rejected(oracle.value)
        && (row.amountDifference.None? || Abs(row.amountDifference.value) <= tolerance)
        && (row.paymentDifference.None? || Abs(row.paymentDifference.value) <= tolerance)
        && row.lineDifference == Some(0)
  {
    StatusFollowsFromTheReportedRow(odoo, oracle, tolerance);
  }

  // ----- building the Oracle side

  datatype Header = Header(status: Option<string>, totalAmount: Option<real>)

  /** The invoice lines found for one order. */
  datatype LineGroup = LineGroup(
    count: int,
    headerId: Option<string>,
    invoiceNumber: Option<string>,
    status: Option<string>)

  datatype Tables = Tables(
    lines: map<string, LineGroup>,
    headers: map<string, Header>,
    ordersPerHeader: map<string, int>,
    receipts: map<string, real>)

  function Lookup<V>(m: map<string, V>, key: string): Option<V> {
    if key in m then Some(m[key]) else None
  }

  function OracleOf(t: Tables, orderName: string): Option<OracleSide> {
    if orderName !in t.lines then None
    else
      var group := t.lines[orderName];
      var linked := group.headerId.Some? && group.headerId.value != "";
      var header := if linked then Lookup(t.headers, group.headerId.value) else None;
      Some(OracleSide(
        group.headerId,
        group.invoiceNumber,
        if header.Some? && header.value.status.Some? then header.value.status else group.status,
        if header.Some? && header.value.totalAmount.Some? then Some(Round2(header.value.totalAmount.value)) else None,
        if linked then Lookup(t.ordersPerHeader, group.headerId.value).GetOr(1) else 1,
        group.count,
        if orderName in t.receipts then Some(Round2(t.receipts[orderName])) else None))
  }

  function BuildRows(orders: seq<OdooSide>, t: Tables, tolerance: real): seq<Row> {
    seq(|orders|, i requires 0 <= i < |orders| => Classify(orders[i], OracleOf(t, orders[i].orderName), tolerance))
  }

  // ----- the verdict from the tables

  /** In one of the states in which an order is paid, whatever the spelling, or in none. */
  ghost predicate Paid(odoo: OdooSide) {
    odoo.state.Some? ==>
      var state := Trim(Lower(odoo.state.value));
      state == "" || state in [
        "paid", "done", "posted", "invoiced", "sale", "invoice", "confirmed", "validated", "sent", "open", "to invoice",
        "to_invoice", "progress", "in_payment", "in payment", "processing", "complete", "completed", "closed",
        "finalized", "finalised"]
  }

  predicate ReadsError(status: Option<string>) {
    status.Some? && Lower(status.value) == "error"
  }

  /** The order is billed on the invoice `h`. */
  predicate BilledOn(t: Tables, name: string, h: string) {
    name in t.lines && t.lines[name].headerId == Some(h) && h != ""
  }

  /** The invoice reads as rejected by its header, or by its lines where no header says anything. */
  ghost predicate Errored(t: Tables, name: string) {
    || (exists h :: BilledOn(t, name, h) && h in t.headers && ReadsError(t.headers[h].status))
    || (name in t.lines && ReadsError(t.lines[name].status)
        && forall h :: BilledOn(t, name, h) && h in t.headers ==> t.headers[h].status.None?)
  }

  /** The invoice has a total, and no order but this one is known to be on it. */
  ghost predicate BilledAlone(t: Tables, name: string, total: real) {
    exists h :: BilledOn(t, name, h) && h in t.headers && t.headers[h].totalAmount == Some(total)
                && (h in t.ordersPerHeader ==> t.ordersPerHeader[h] <= 1)
  }

  lemma PaidIsSyncable(odoo: OdooSide)
    ensures Syncable(odoo) <==> Paid(odoo)
  {
    assert Trim(Lower("")) == "" by {
      assert Lower("") == "";
    }
  }

  lemma ErroredIsRejected(t: Tables, name: string)
    requires name in t.lines
    ensures Rejected(OracleOf(t, name).value) <==> Errored(t, name)
  {
    forall status: string
      ensures Upper(status) == "ERROR" <==> Lower(status) == "error"
    {
      FoldingsAgree(status, "ERROR");
      assert Upper("ERROR") == "ERROR" && Lower("ERROR") == "error";
    }
    var id := t.lines[name].headerId;
    assert id.Some? && id.value != "" ==> BilledOn(t, name, id.value);
  }

  /** The Oracle side of a row is what the tables hold for its order, if they hold lines of it. */
  lemma OracleSideReads(t: Tables, name: string)
    ensures OracleOf(t, name).Some? <==> name in t.lines
    ensures name in t.lines ==>
      var side := OracleOf(t, name).value;
      && side.headerId == t.lines[name].headerId && side.invoiceNumber == t.lines[name].invoiceNumber
      && side.lineCount == t.lines[name].count
      && (side.receiptTotal.Some? <==> name in t.receipts)
      && (forall h :: BilledOn(t, name, h) && h in t.ordersPerHeader ==> side.coversOrders == t.ordersPerHeader[h])
      && ((forall h :: BilledOn(t, name, h) ==> h !in t.ordersPerHeader) ==> side.coversOrders == 1)
  {
    if name in t.lines && t.lines[name].headerId.Some? {
      var h := t.lines[name].headerId.value;
      assert h != "" ==> BilledOn(t, name, h);
    }
  }

  /** The differences reported for an order are those of the stored figures, where these can be compared. */
  lemma ReportedDifferences(orders: seq<OdooSide>, t: Tables, tolerance: real, i: nat)
    requires i < |orders|
    ensures
      var odoo, rows := orders[i], BuildRows(orders, t, tolerance);
      && |rows| == |orders| && rows[i].odoo == odoo
      && (rows[i].oracle.Some? <==> odoo.orderName in t.lines)
      && (forall d :: rows[i].amountDifference == Some(d) <==>
            exists total :: BilledAlone(t, odoo.orderName, total) && d == Round2(odoo.total - Round2(total)))
      && (forall d :: rows[i].paymentDifference == Some(d) <==>
            && odoo.orderName in t.lines && odoo.orderName in t.receipts
            && d == Round2(odoo.paymentTotal - Round2(t.receipts[odoo.orderName])))
      && (forall n :: rows[i].lineDifference == Some(n) <==>
            odoo.orderName in t.lines && n == odoo.lineCount - t.lines[odoo.orderName].count)
  {
    hide Round2, WorstOf, Findings;
    var odoo, row := orders[i], BuildRows(orders, t, tolerance)[i];
    forall d
      ensures row.amountDifference == Some(d) <==>
        exists total :: BilledAlone(t, odoo.orderName, total) && d == Round2(odoo.total - Round2(total))
    {
      if odoo.orderName in t.lines {
        var id := t.lines[odoo.orderName].headerId;
        if id.Some? && BilledOn(t, odoo.orderName, id.value) && id.value in t.headers {
          var total := t.headers[id.value].totalAmount;
          assert total.Some? && row.oracle.value.coversOrders <= 1 ==> BilledAlone(t, odoo.orderName, total.value);
        }
      }
    }
  }

  /** The invoice total and the order total are known to be more than the tolerance apart. */
  ghost predicate AmountIsOut(odoo: OdooSide, t: Tables, tolerance: real) {
    exists total :: BilledAlone(t, odoo.orderName, total) && Abs(Round2(odoo.total - Round2(total))) > tolerance
  }

  predicate PaymentIsOut(odoo: OdooSide, t: Tables, tolerance: real) {
    odoo.orderName in t.receipts && Abs(Round2(odoo.paymentTotal - Round2(t.receipts[odoo.orderName]))) > tolerance
  }

  /** The status the stored figures call for. */
  ghost predicate CalledFor(odoo: OdooSide, t: Tables, tolerance: real, status: Status) {
    var name := odoo.orderName;
    match status
    case NotSyncable => !Paid(odoo) && name !in t.lines
    case UnexpectedInOracle => !Paid(odoo) && name in t.lines
    case MissingInOracle => Paid(odoo) && name !in t.lines
    case OracleError => Paid(odoo) && name in t.lines && Errored(t, name)
    case AmountMismatch => Paid(odoo) && name in t.lines && !Errored(t, name) && AmountIsOut(odoo, t, tolerance)
    case PaymentMismatch =>
      && Paid(odoo) && name in t.lines && !Errored(t, name)
      && !AmountIsOut(odoo, t, tolerance) && PaymentIsOut(odoo, t, tolerance)
    case LineMismatch =>
      && Paid(odoo) && name in t.lines && !Errored(t, name)
      && !AmountIsOut(odoo, t, tolerance) && !PaymentIsOut(odoo, t, tolerance)
      && odoo.lineCount != t.lines[name].count
    case Matched =>
      && Paid(odoo) && name in t.lines && !Errored(t, name)
      && !AmountIsOut(odoo, t, tolerance) && !PaymentIsOut(odoo, t, tolerance)
      && odoo.lineCount == t.lines[name].count
  }

  /** Each order gets the status the stored figures call for, and they call for no other. */
  lemma VerdictFromTheFigures(orders: seq<OdooSide>, t: Tables, tolerance: real, i: nat, status: Status)
    requires i < |orders|
    ensures BuildRows(orders, t, tolerance)[i].status == status <==> CalledFor(orders[i], t, tolerance, status)
  {
    hide Round2, Abs, Syncable, Paid, Errored, Rejected, BilledAlone, Findings, OracleOf;
    var odoo, row := orders[i], BuildRows(orders, t, tolerance)[i];
    PaidIsSyncable(odoo);
    ReportedDifferences(orders, t, tolerance, i);
    StatusFollowsFromTheReportedRow(odoo, OracleOf(t, odoo.orderName), tolerance);
    if row.oracle.Some? {
      ErroredIsRejected(t, odoo.orderName);
      assert Exceeds(row.amountDifference, tolerance) <==> AmountIsOut(odoo, t, tolerance) by {
        if AmountIsOut(odoo, t, tolerance) {
          var total :| BilledAlone(t, odoo.orderName, total) && Abs(Round2(odoo.total - Round2(total))) > tolerance;
          assert row.amountDifference == Some(Round2(odoo.total - Round2(total)));
        }
      }
      assert Exceeds(row.paymentDifference, tolerance) <==> PaymentIsOut(odoo, t, tolerance) by {
        if odoo.orderName in t.receipts {
          assert row.paymentDifference == Some(Round2(odoo.paymentTotal - Round2(t.receipts[odoo.orderName])));
        }
      }
    }
  }
}
