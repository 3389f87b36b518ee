/** Rolling the classified orders up per store, per day, or per store and day. */
module Rollup {
  import opened Wrappers
  import opened Money
  import opened Grouping
  import opened Sums
  import opened Reconciliation

  datatype GroupBy = ByStore | ByDate | ByStoreDate

  function DateKey(row: Row): string {
    if row.odoo.orderDate.Some? then row.odoo.orderDate.value else "unknown-date"
  }

  function StoreKey(row: Row): string {
    if row.odoo.branchCode.Some? then row.odoo.branchCode.value
    else if row.odoo.branchName.Some? then row.odoo.branchName.value
    else row.odoo.posConfigName.GetOr("unknown-store")
  }

  function GroupKey(row: Row, grouping: GroupBy): string {
    match grouping
    case ByDate => DateKey(row)
    case ByStore => StoreKey(row)
    case ByStoreDate => StoreKey(row) + " :: " + DateKey(row)
  }

  // ----- which rows share a group

  /** The store of a row: its branch code, else its branch name, else its till's name, else unknown. */
  predicate IsStoreOf(row: Row, store: string) {
    && (row.odoo.branchCode.Some? ==> store == row.odoo.branchCode.value)
    && (row.odoo.branchCode.None? && row.odoo.branchName.Some? ==> store == row.odoo.branchName.value)
    && (row.odoo.branchCode.None? && row.odoo.branchName.None? ==>
          store == row.odoo.posConfigName.GetOr("unknown-store"))
  }

  ghost predicate SameStore(a: Row, b: Row) {
    exists store :: IsStoreOf(a, store) && IsStoreOf(b, store)
  }

  /** The trading day as ten characters, such as 2024-01-31. */
  predicate WellDated(row: Row) {
    row.odoo.orderDate.Some? ==> |row.odoo.orderDate.value| == 10
  }

  lemma StoreKeyIsTheStore(row: Row, store: string)
    ensures IsStoreOf(row, store) <==> StoreKey(row) == store
  {
  }

  lemma SameDateKey(a: Row, b: Row)
    requires WellDated(a) && WellDated(b)
    ensures DateKey(a) == DateKey(b) <==> a.odoo.orderDate == b.odoo.orderDate
  {
  }

  /** Two texts that end in days differ unless the days and what comes before them agree. */
  lemma DaysTellApart(a: Row, x: string, b: Row, y: string)
    requires WellDated(a) && WellDated(b)
    ensures x + " :: " + DateKey(a) == y + " :: " + DateKey(b) <==> x == y && DateKey(a) == DateKey(b)
  {
    var s, t := x + " :: " + DateKey(a), y + " :: " + DateKey(b);
    if s == t {
      if |DateKey(a)| == |DateKey(b)| {
        assert DateKey(a) == s[|s| - |DateKey(a)|..] == t[|t| - |DateKey(b)|..] == DateKey(b);
        assert x == s[..|x|] && y == t[..|x|];
      } else if a.odoo.orderDate.None? {
        UnknownIsNoDay(a, x, b, y);
      } else {
        UnknownIsNoDay(b, y, a, x);
      }
    }
  }

  lemma UnknownIsNoDay(a: Row, x: string, b: Row, y: string)
    requires WellDated(b) && a.odoo.orderDate.None? && b.odoo.orderDate.Some?
    ensures x + " :: " + DateKey(a) != y + " :: " + DateKey(b)
  {
    var s, t := x + " :: " + DateKey(a), y + " :: " + DateKey(b);
    assert |DateKey(a)| == 12 && s[|s| - 12] == 'u';
    assert t[|t| - 12] == ':';
  }

  /** The key a group is reported under: its store, its day, or both. */
  lemma KeyReads(row: Row)
    ensures IsStoreOf(row, GroupKey(row, ByStore))
    ensures GroupKey(row, ByDate) == row.odoo.orderDate.GetOr("unknown-date")
    ensures GroupKey(row, ByStoreDate) == GroupKey(row, ByStore) + " :: " + GroupKey(row, ByDate)
  {
  }

  /** Rows share a group exactly if they have the same store, if it is grouped by store, and the same day likewise. */
  lemma SameGroupExactlyWhen(a: Row, b: Row, grouping: GroupBy)
    requires WellDated(a) && WellDated(b)
    ensures GroupKey(a, grouping) == GroupKey(b, grouping) <==>
      && (grouping != ByDate ==> SameStore(a, b))
      && (grouping != ByStore ==> a.odoo.orderDate == b.odoo.orderDate)
  {
    StoreKeyIsTheStore(a, StoreKey(a));
    StoreKeyIsTheStore(b, StoreKey(a));
    forall store
      ensures IsStoreOf(a, store) <==> StoreKey(a) == store
      ensures IsStoreOf(b, store) <==> StoreKey(b) == store
    {
      StoreKeyIsTheStore(a, store);
      StoreKeyIsTheStore(b, store);
    }
    SameDateKey(a, b);
    DaysTellApart(a, StoreKey(a), b, StoreKey(b));
  }

  function KeyBy(grouping: GroupBy): Row -> string {
    (row: Row) => GroupKey(row, grouping)
  }

  function Keys(rows: seq<Row>, grouping: GroupBy): set<string> {
    KeysOf(rows, KeyBy(grouping))
  }

  /** The rows of one group, in order. */
  function InGroup(rows: seq<Row>, grouping: GroupBy, key: string): seq<Row> {
    Bucket(rows, KeyBy(grouping), key)
  }

  // ----- what is summed

  predicate HasHeader(row: Row) {
    row.oracle.Some? && row.oracle.value.headerId.Some? && row.oracle.value.headerId.value != ""
  }

  function HeaderOf(row: Row): string
    requires HasHeader(row)
  {
    row.oracle.value.headerId.value
  }

  function OracleTotal(row: Row): real {
    if row.oracle.Some? then row.oracle.value.total.GetOr(0.0) else 0.0
  }

  function Headers(rows: seq<Row>): set<string> {
    set i | 0 <= i < |rows| && HasHeader(rows[i]) :: HeaderOf(rows[i])
  }

  /** Each invoice header counts once; a row without one counts by itself. */
  function OracleSum(rows: seq<Row>): real {
    if |rows| == 0 then 0.0
    else
      var before := rows[..|rows| - 1];
      var row := rows[|rows| - 1];
      OracleSum(before) + if HasHeader(row) && HeaderOf(row) in Headers(before) then 0.0 else OracleTotal(row)
  }

  function OrderTotal(row: Row): real {
    row.odoo.total
  }

  function PaymentTotal(row: Row): real {
    row.odoo.paymentTotal
  }

  function ReceiptTotal(row: Row): real {
    if row.oracle.Some? then row.oracle.value.receiptTotal.GetOr(0.0) else 0.0
  }

  function OdooSum(rows: seq<Row>): real {
    SumSeq(rows, OrderTotal)
  }

  function PaymentSum(rows: seq<Row>): real {
    SumSeq(rows, PaymentTotal)
  }

  function ReceiptSum(rows: seq<Row>): real {
    SumSeq(rows, ReceiptTotal)
  }

  predicate Unlinked(row: Row) {
    row.oracle.Some? && row.oracle.value.receiptTotal.None?
  }

  function CountUnlinked(rows: seq<Row>): nat {
    if |rows| == 0 then 0
    else CountUnlinked(rows[..|rows| - 1]) + if Unlinked(rows[|rows| - 1]) then 1 else 0
  }

  function CountOf(rows: seq<Row>, status: Status): nat {
    if |rows| == 0 then 0
    else CountOf(rows[..|rows| - 1], status) + if rows[|rows| - 1].status == status then 1 else 0
  }

  function Problems(rows: seq<Row>): nat {
    CountOf(rows, OracleError) + CountOf(rows, MissingInOracle) + CountOf(rows, UnexpectedInOracle)
    + CountOf(rows, AmountMismatch) + CountOf(rows, PaymentMismatch) + CountOf(rows, LineMismatch)
  }

  /** Orders that should be in Oracle. */
  function Comparable(rows: seq<Row>): int {
    |rows| - CountOf(rows, NotSyncable)
  }

  function MatchRate(matched: nat, comparable: int): real {
    if comparable > 0 then Round2(matched as real / comparable as real * 100.0) else 100.0
  }

  /** The orders that count as unlinked are those in Oracle without a receipt. */
  lemma UnlinkedExactlyWhen(orders: seq<OdooSide>, t: Tables, tolerance: real, i: nat)
    requires i < |orders|
    ensures Unlinked(BuildRows(orders, t, tolerance)[i]) <==>
      orders[i].orderName in t.lines && orders[i].orderName !in t.receipts
  {
    OracleSideReads(t, orders[i].orderName);
  }

  // ----- the shared-invoice law

  /** Every header has one total, as it does when rows are built from one header table. */
  ghost predicate PricedBy(rows: seq<Row>, totals: map<string, real>) {
    forall i :: 0 <= i < |rows| && HasHeader(rows[i]) ==>
      HeaderOf(rows[i]) in totals && totals[HeaderOf(rows[i])] == OracleTotal(rows[i])
  }

  function TotalsOf(t: Tables): map<string, real> {
    map h | h in HeaderIds(t) ::
      if h in t.headers && t.headers[h].totalAmount.Some? then Round2(t.headers[h].totalAmount.value) else 0.0
  }

  function HeaderIds(t: Tables): set<string> {
    set name | name in t.lines && t.lines[name].headerId.Some? :: t.lines[name].headerId.value
  }

  lemma BuiltRowsArePriced(orders: seq<OdooSide>, t: Tables, tolerance: real)
    ensures PricedBy(BuildRows(orders, t, tolerance), TotalsOf(t))
  {
    var rows := BuildRows(orders, t, tolerance);
    forall i | 0 <= i < |rows| && HasHeader(rows[i])
      ensures HeaderOf(rows[i]) in TotalsOf(t) && TotalsOf(t)[HeaderOf(rows[i])] == OracleTotal(rows[i])
    {
      assert rows[i].oracle == OracleOf(t, orders[i].orderName);
      assert t.lines[orders[i].orderName].headerId.value in HeaderIds(t);
    }
  }

  function GroupTotal(rows: seq<Row>, grouping: GroupBy): string -> real {
    key => OracleSum(InGroup(rows, grouping, key))
  }

  /** The groups in which a header occurs. */
  function Touched(rows: seq<Row>, grouping: GroupBy, header: string): set<string> {
    set key | key in Keys(rows, grouping) && header in Headers(InGroup(rows, grouping, key))
  }

  function Times(n: int, x: real): real {
    n as real * x
  }

  lemma OneMoreTime(n: int, x: real)
    ensures Times(n + 1, x) == Times(n, x) + x
  {
  }

  lemma NoTimes(x: real)
    ensures Times(0, x) == 0.0
  {
  }

  lemma TimesIsZero(n: int, x: real)
    requires n >= 0
    ensures x >= 0.0 ==> Times(n, x) >= 0.0
    ensures Times(n, x) == 0.0 <==> n == 0 || x == 0.0
  {
  }

  /** What a header adds to the groups beyond what it adds to the whole. */
  function Excess(rows: seq<Row>, grouping: GroupBy, totals: map<string, real>): string -> real {
    header =>
      if header in totals then Times(|Touched(rows, grouping, header)| - 1, totals[header]) else 0.0
  }

  ghost function SumOfGroups(rows: seq<Row>, grouping: GroupBy): real {
    SumSet(Keys(rows, grouping), GroupTotal(rows, grouping))
  }

  ghost function TotalExcess(rows: seq<Row>, grouping: GroupBy, totals: map<string, real>): real {
    SumSet(Headers(rows), Excess(rows, grouping, totals))
  }

  lemma KeysSnoc(rows: seq<Row>, row: Row, grouping: GroupBy)
    ensures Keys(rows + [row], grouping) == Keys(rows, grouping) + {GroupKey(row, grouping)}
  {
    KeysOfSnoc(rows, row, KeyBy(grouping));
  }

  lemma HeadersSnoc(rows: seq<Row>, row: Row)
    ensures Headers(rows + [row]) == Headers(rows) + if HasHeader(row) then {HeaderOf(row)} else {}
  {
    var all := rows + [row];
    assert all[|rows|] == row;
    assert forall i :: 0 <= i < |rows| ==> all[i] == rows[i];
    forall h | h in Headers(rows)
      ensures h in Headers(all)
    {
      var i :| 0 <= i < |rows| && HasHeader(rows[i]) && HeaderOf(rows[i]) == h;
      assert HasHeader(all[i]) && HeaderOf(all[i]) == h;
    }
  }

  lemma InGroupSnoc(rows: seq<Row>, row: Row, grouping: GroupBy, key: string)
    ensures InGroup(rows + [row], grouping, key)
         == InGroup(rows, grouping, key) + if GroupKey(row, grouping) == key then [row] else []
  {
    BucketSnoc(rows, row, KeyBy(grouping), key);
  }

  lemma OracleSumSnoc(rows: seq<Row>, row: Row)
    ensures OracleSum(rows + [row])
         == OracleSum(rows) + if HasHeader(row) && HeaderOf(row) in Headers(rows) then 0.0 else OracleTotal(row)
  {
    assert (rows + [row])[..|rows|] == rows;
  }

  lemma NoGroupNoRows(rows: seq<Row>, grouping: GroupBy, key: string)
    ensures key !in Keys(rows, grouping) ==> InGroup(rows, grouping, key) == []
    ensures Headers(InGroup(rows, grouping, key)) <= Headers(rows)
  {
    if key !in Keys(rows, grouping) {
      NoKeyNoBucket(rows, KeyBy(grouping), key);
    }
    BucketAmong(rows, KeyBy(grouping), key);
    HeadersAmong(InGroup(rows, grouping, key), rows);
  }

  lemma HeadersAmong(a: seq<Row>, b: seq<Row>)
    requires forall i :: 0 <= i < |a| ==> a[i] in b
    ensures Headers(a) <= Headers(b)
  {
    forall h | h in Headers(a)
      ensures h in Headers(b)
    {
      var i :| 0 <= i < |a| && HasHeader(a[i]) && HeaderOf(a[i]) == h;
      var j :| 0 <= j < |b| && b[j] == a[i];
      assert HasHeader(b[j]) && HeaderOf(b[j]) == h;
    }
  }

  /** How the sum over the groups grows by one row. */
  lemma SumOfGroupsSnoc(rows: seq<Row>, row: Row, grouping: GroupBy)
    ensures
      var group := InGroup(rows, grouping, GroupKey(row, grouping));
      SumOfGroups(rows + [row], grouping)
      == SumOfGroups(rows, grouping)
         + if HasHeader(row) && HeaderOf(row) in Headers(group) then 0.0 else OracleTotal(row)
  {
    hide SumSet, OracleSum, InGroup, Keys, GroupKey, Headers;
    var all, k := rows + [row], GroupKey(row, grouping);
    KeysSnoc(rows, row, grouping);
    NoGroupNoRows(rows, grouping, k);
    InGroupSnoc(rows, row, grouping, k);
    OracleSumSnoc(InGroup(rows, grouping, k), row);
    forall key | key != k
      ensures GroupTotal(all, grouping)(key) == GroupTotal(rows, grouping)(key)
    {
      InGroupSnoc(rows, row, grouping, key);
      assert InGroup(rows, grouping, key) + [] == InGroup(rows, grouping, key);
    }
    if k in Keys(rows, grouping) {
      assert Keys(all, grouping) == Keys(rows, grouping);
      SumSetChange(Keys(rows, grouping), GroupTotal(rows, grouping), GroupTotal(all, grouping), k);
    } else {
      SumSetAdd(Keys(rows, grouping), GroupTotal(all, grouping), k);
      SumSetSame(Keys(rows, grouping), GroupTotal(all, grouping), GroupTotal(rows, grouping));
      NothingYet();
    }
  }

  lemma NothingYet()
    ensures OracleSum([]) == 0.0 && Headers([]) == {}
  {
  }

  lemma TouchedSnoc(rows: seq<Row>, row: Row, grouping: GroupBy, h: string)
    ensures Touched(rows + [row], grouping, h)
         == Touched(rows, grouping, h) + if HasHeader(row) && HeaderOf(row) == h then {GroupKey(row, grouping)} else {}
  {
    hide Keys, InGroup, GroupKey, Headers;
    NothingYet();
    KeysSnoc(rows, row, grouping);
    forall key
      ensures h in Headers(InGroup(rows + [row], grouping, key)) <==>
        || h in Headers(InGroup(rows, grouping, key))
        || (GroupKey(row, grouping) == key && HasHeader(row) && HeaderOf(row) == h)
      ensures key !in Keys(rows, grouping) ==> h !in Headers(InGroup(rows, grouping, key))
    {
      InGroupSnoc(rows, row, grouping, key);
      HeadersSnoc(InGroup(rows, grouping, key), row);
      assert InGroup(rows, grouping, key) + [] == InGroup(rows, grouping, key);
      NoGroupNoRows(rows, grouping, key);
    }
  }

  lemma OnlySeenHeadersTouch(rows: seq<Row>, grouping: GroupBy, h: string)
    ensures h !in Headers(rows) ==> Touched(rows, grouping, h) == {}
  {
    forall key
      ensures h in Headers(InGroup(rows, grouping, key)) ==> h in Headers(rows)
    {
      NoGroupNoRows(rows, grouping, key);
    }
  }

  lemma TouchedGroup(rows: seq<Row>, grouping: GroupBy, key: string, h: string)
    ensures key in Touched(rows, grouping, h) <==> h in Headers(InGroup(rows, grouping, key))
  {
    NoGroupNoRows(rows, grouping, key);
  }

  /** A header the row does not carry keeps its excess. */
  lemma ExcessElsewhere(rows: seq<Row>, row: Row, grouping: GroupBy, totals: map<string, real>, h: string)
    requires !(HasHeader(row) && HeaderOf(row) == h)
    ensures Excess(rows + [row], grouping, totals)(h) == Excess(rows, grouping, totals)(h)
  {
    hide Touched, Times;
    TouchedSnoc(rows, row, grouping, h);
    assert Touched(rows, grouping, h) + {} == Touched(rows, grouping, h);
  }

  /** The header the row does carry gains its total if the group is new to it, and starts at none. */
  lemma ExcessOfTheHeader(rows: seq<Row>, row: Row, grouping: GroupBy, totals: map<string, real>)
    requires HasHeader(row) && HeaderOf(row) in totals
    ensures
      var h, k := HeaderOf(row), GroupKey(row, grouping);
      Excess(rows + [row], grouping, totals)(h)
      == if h !in Headers(rows) then 0.0
         else Excess(rows, grouping, totals)(h)
              + if h in Headers(InGroup(rows, grouping, k)) then 0.0 else totals[h]
  {
    hide Touched, Times, Headers, InGroup;
    var h, k := HeaderOf(row), GroupKey(row, grouping);
    var was, now := Touched(rows, grouping, h), Touched(rows + [row], grouping, h);
    TouchedSnoc(rows, row, grouping, h);
    TouchedGroup(rows, grouping, k, h);
    OnlySeenHeadersTouch(rows, grouping, h);
    if h !in Headers(rows) {
      assert now == {k};
      NoTimes(totals[h]);
    } else if k in was {
      assert now == was;
    } else {
      assert |now| == |was| + 1;
      OneMoreTime(|was| - 1, totals[h]);
    }
  }

  /** How the excess grows by one row: only when a known header enters a new group. */
  lemma TotalExcessSnoc(rows: seq<Row>, row: Row, grouping: GroupBy, totals: map<string, real>)
    requires PricedBy(rows + [row], totals)
    ensures
      var group := InGroup(rows, grouping, GroupKey(row, grouping));
      TotalExcess(rows + [row], grouping, totals)
      == TotalExcess(rows, grouping, totals)
         + if HasHeader(row) && HeaderOf(row) in Headers(rows) && HeaderOf(row) !in Headers(group)
           then OracleTotal(row) else 0.0
  {
    hide Headers, InGroup, Excess, SumSet;
    var all := rows + [row];
    assert all[|rows|] == row;
    HeadersSnoc(rows, row);
    forall h | !(HasHeader(row) && HeaderOf(row) == h)
      ensures Excess(all, grouping, totals)(h) == Excess(rows, grouping, totals)(h)
    {
      ExcessElsewhere(rows, row, grouping, totals, h);
    }
    if HasHeader(row) {
      var h := HeaderOf(row);
      ExcessOfTheHeader(rows, row, grouping, totals);
      if h in Headers(rows) {
        assert Headers(all) == Headers(rows);
        SumSetChange(Headers(rows), Excess(rows, grouping, totals), Excess(all, grouping, totals), h);
      } else {
        SumSetAdd(Headers(rows), Excess(all, grouping, totals), h);
        SumSetSame(Headers(rows), Excess(all, grouping, totals), Excess(rows, grouping, totals));
        NewHeaderNewToTheGroup(rows, grouping, GroupKey(row, grouping), h);
      }
    } else {
      assert Headers(all) == Headers(rows);
      SumSetSame(Headers(rows), Excess(all, grouping, totals), Excess(rows, grouping, totals));
    }
  }

  lemma NewHeaderNewToTheGroup(rows: seq<Row>, grouping: GroupBy, key: string, h: string)
    requires h !in Headers(rows)
    ensures h !in Headers(InGroup(rows, grouping, key))
  {
    NoGroupNoRows(rows, grouping, key);
  }

  /**
   For any grouping, the groups add up to the whole plus, for each invoice header, its total once for every group it
   touches beyond the first.
   */
  lemma {:induction false} SharedInvoiceLaw(rows: seq<Row>, grouping: GroupBy, totals: map<string, real>)
    requires PricedBy(rows, totals)
    ensures SumOfGroups(rows, grouping) == OracleSum(rows) + TotalExcess(rows, grouping, totals)
  {
    if |rows| == 0 {
      assert Keys(rows, grouping) == {} && Headers(rows) == {};
    } else {
      var before, row := rows[..|rows| - 1], rows[|rows| - 1];
      assert rows == before + [row];
      assert PricedBy(before, totals) by {
        assert forall i :: 0 <= i < |before| ==> before[i] == rows[i];
      }
      SharedInvoiceLaw(before, grouping, totals);
      SumOfGroupsSnoc(before, row, grouping);
      TotalExcessSnoc(before, row, grouping, totals);
      OracleSumSnoc(before, row);
      NoGroupNoRows(before, grouping, GroupKey(row, grouping));
    }
  }

  ghost predicate NoneNegative(totals: map<string, real>) {
    forall h :: h in totals ==> totals[h] >= 0.0
  }

  /** Every invoice that is not zero lies in one group. */
  ghost predicate EachInOneGroup(rows: seq<Row>, grouping: GroupBy, totals: map<string, real>) {
    forall h :: h in Headers(rows) && h in totals && totals[h] != 0.0 ==> |Touched(rows, grouping, h)| == 1
  }

  /**
   The groups add up to the whole exactly if the excesses cancel out; when no invoice is negative, that is exactly if
   every non-zero invoice lies in one group.
   */
  lemma GroupsAddUpExactlyWhen(rows: seq<Row>, grouping: GroupBy, totals: map<string, real>)
    requires PricedBy(rows, totals)
    ensures SumOfGroups(rows, grouping) == OracleSum(rows) <==> TotalExcess(rows, grouping, totals) == 0.0
    ensures EachInOneGroup(rows, grouping, totals) ==> SumOfGroups(rows, grouping) == OracleSum(rows)
    ensures NoneNegative(totals) ==>
      (SumOfGroups(rows, grouping) == OracleSum(rows) <==> EachInOneGroup(rows, grouping, totals))
  {
    hide SumSet, SumOfGroups, OracleSum, Touched, Times;
    SharedInvoiceLaw(rows, grouping, totals);
    forall h | h in Headers(rows)
      ensures h in totals
      ensures Excess(rows, grouping, totals)(h) == 0.0 <==> totals[h] == 0.0 || |Touched(rows, grouping, h)| == 1
      ensures totals[h] >= 0.0 ==> Excess(rows, grouping, totals)(h) >= 0.0
    {
      SeenHeadersTouch(rows, grouping, h);
      TimesIsZero(|Touched(rows, grouping, h)| - 1, totals[h]);
    }
    if NoneNegative(totals) {
      SumSetNonNegative(Headers(rows), Excess(rows, grouping, totals));
    }
    if EachInOneGroup(rows, grouping, totals) {
      SumSetNonNegative(Headers(rows), Excess(rows, grouping, totals));
    }
  }

  lemma SeenIsNotEmpty(rows: seq<Row>, h: string)
    requires h in Headers(rows)
    ensures |rows| > 0
  {
  }

  lemma {:induction false} SeenHeadersTouch(rows: seq<Row>, grouping: GroupBy, h: string)
    requires h in Headers(rows)
    ensures |Touched(rows, grouping, h)| >= 1
  {
    hide Touched, Headers;
    SeenIsNotEmpty(rows, h);
    var before, row := rows[..|rows| - 1], rows[|rows| - 1];
    assert rows == before + [row];
    HeadersSnoc(before, row);
    TouchedSnoc(before, row, grouping, h);
    if HasHeader(row) && HeaderOf(row) == h {
      assert GroupKey(row, grouping) in Touched(rows, grouping, h);
    } else {
      SeenHeadersTouch(before, grouping, h);
      assert Touched(rows, grouping, h) == Touched(before, grouping, h);
    }
  }
}
