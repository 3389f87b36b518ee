/** The figures reported for a set of rows, the loops that gather them, and what those figures promise. */
module Breakdown {
  import opened Wrappers
  import opened Money
  import opened Grouping
  import opened Sums
  import opened Reconciliation
  import opened Rollup

  // ----- the figures of a set of rows

  datatype Figures = Figures(
    orders: nat,
    counts: map<Status, nat>,
    problems: nat,
    matchRate: real,
    odooTotal: real,
    oracleTotal: real,
    variance: real,
    odooPayments: real,
    oracleReceipts: real,
    unlinkedReceiptOrders: nat)

  datatype Summary = Summary(
    scanned: nat,
    counts: map<Status, nat>,
    problems: nat,
    odooTotal: real,
    oracleTotal: real,
    variance: real,
    matchRate: real,
    aggregatedOrders: nat)

  function Counts(rows: seq<Row>): map<Status, nat> {
    map s | s in SEVERITY :: CountOf(rows, s)
  }

  function FiguresOf(rows: seq<Row>): Figures {
    Figures(
      |rows|,
      Counts(rows),
      Problems(rows),
      MatchRate(CountOf(rows, Matched), Comparable(rows)),
      Round2(OdooSum(rows)),
      Round2(OracleSum(rows)),
      Round2(OdooSum(rows) - OracleSum(rows)),
      Round2(PaymentSum(rows)),
      Round2(ReceiptSum(rows)),
      CountUnlinked(rows))
  }

  predicate IsAggregate(row: Row) {
    row.oracle.Some? && row.oracle.value.IsAggregate()
  }

  function CountAggregates(rows: seq<Row>): nat {
    if |rows| == 0 then 0
    else CountAggregates(rows[..|rows| - 1]) + if IsAggregate(rows[|rows| - 1]) then 1 else 0
  }

  lemma EveryStatusIsListed(s: Status)
    ensures s in SEVERITY
  {
    SeverityIsTheIndex(s);
  }

  lemma CountSnoc(rows: seq<Row>, row: Row, s: Status)
    ensures CountOf(rows + [row], s) == CountOf(rows, s) + if row.status == s then 1 else 0
  {
    assert (rows + [row])[..|rows|] == rows;
  }

  lemma CountsSnoc(rows: seq<Row>, row: Row)
    ensures row.status in Counts(rows)
    ensures Counts(rows + [row]) == Counts(rows)[row.status := CountOf(rows, row.status) + 1]
  {
    EveryStatusIsListed(row.status);
    hide CountOf, SEVERITY;
    forall s: Status
      ensures CountOf(rows + [row], s) == CountOf(rows, s) + if row.status == s then 1 else 0
    {
      CountSnoc(rows, row, s);
    }
  }

  lemma CountersSnoc(rows: seq<Row>, row: Row)
    ensures CountUnlinked(rows + [row]) == CountUnlinked(rows) + if Unlinked(row) then 1 else 0
    ensures CountAggregates(rows + [row]) == CountAggregates(rows) + if IsAggregate(row) then 1 else 0
  {
    assert (rows + [row])[..|rows|] == rows;
  }

  lemma SumsSnoc(rows: seq<Row>, row: Row)
    ensures OdooSum(rows + [row]) == OdooSum(rows) + row.odoo.total
    ensures PaymentSum(rows + [row]) == PaymentSum(rows) + row.odoo.paymentTotal
    ensures ReceiptSum(rows + [row]) == ReceiptSum(rows) + ReceiptTotal(row)
  {
    hide SumSeq;
    SumSeqSnoc(rows, row, OrderTotal);
    SumSeqSnoc(rows, row, PaymentTotal);
    SumSeqSnoc(rows, row, ReceiptTotal);
  }

  // ----- gathering them

  /** One group being filled, its fields updated row by row. */
  class Group {
    var orders: nat
    var counts: map<Status, nat>
    var odooTotal: real
    var oracleTotal: real
    var odooPayments: real
    var oracleReceipts: real
    var unlinkedReceiptOrders: nat
    var countedHeaders: set<string>
    ghost var rows: seq<Row>

    /** The fields are the running figures of the rows taken in so far. */
    ghost predicate Valid()
      reads this
    {
      && orders == |rows|
      && counts == Counts(rows)
      && odooTotal == OdooSum(rows)
      && oracleTotal == OracleSum(rows)
      && odooPayments == PaymentSum(rows)
      && oracleReceipts == ReceiptSum(rows)
      && unlinkedReceiptOrders == CountUnlinked(rows)
      && countedHeaders == Headers(rows)
    }

    constructor ()
      ensures Valid() && rows == []
    {
      orders, counts := 0, map s | s in SEVERITY :: 0;
      odooTotal, oracleTotal, odooPayments, oracleReceipts := 0.0, 0.0, 0.0, 0.0;
      unlinkedReceiptOrders, countedHeaders := 0, {};
      rows := [];
    }

    method Accumulate(row: Row)
      requires Valid()
      modifies this
      ensures Valid() && rows == old(rows) + [row]
    {
      hide OdooSum, OracleSum, PaymentSum, ReceiptSum, CountUnlinked, CountAggregates;
      hide Headers, Counts, CountOf, SEVERITY;
      CountsSnoc(rows, row);
      CountersSnoc(rows, row);
      SumsSnoc(rows, row);
      OracleSumSnoc(rows, row);
      HeadersSnoc(rows, row);
      CountsAreTheCounts(rows, row.status);
      orders := orders + 1;
      counts := counts[row.status := counts[row.status] + 1];
      odooTotal := odooTotal + row.odoo.total;
      if HasHeader(row) {
        if HeaderOf(row) !in countedHeaders {
          countedHeaders := countedHeaders + {HeaderOf(row)};
          oracleTotal := oracleTotal + row.oracle.value.total.GetOr(0.0);
        }
      } else {
        oracleTotal := oracleTotal + if row.oracle.Some? then row.oracle.value.total.GetOr(0.0) else 0.0;
      }
      odooPayments := odooPayments + row.odoo.paymentTotal;
      if row.oracle.Some? && row.oracle.value.receiptTotal.Some? {
        oracleReceipts := oracleReceipts + row.oracle.value.receiptTotal.value;
      } else if row.oracle.Some? {
        unlinkedReceiptOrders := unlinkedReceiptOrders + 1;
      }
      rows := rows + [row];
    }

    function Finalise(): (figures: Figures)
      reads this
      requires Valid()
      ensures figures == FiguresOf(rows)
    {
      EveryStatusCounted(rows);
      ReportedFigures(rows);
      Report(orders, counts, odooTotal, oracleTotal, odooPayments, oracleReceipts, unlinkedReceiptOrders)
    }
  }

  /** Everything is rounded once, here. */
  function Report(orders: nat, counts: map<Status, nat>, odooTotal: real, oracleTotal: real, odooPayments: real,
                  oracleReceipts: real, unlinked: nat): Figures
    requires forall s: Status :: s in counts
  {
    Figures(
      orders,
      counts,
      counts[OracleError] + counts[MissingInOracle] + counts[UnexpectedInOracle] + counts[AmountMismatch]
      + counts[PaymentMismatch] + counts[LineMismatch],
      MatchRate(counts[Matched], orders - counts[NotSyncable]),
      Round2(odooTotal),
      Round2(oracleTotal),
      Round2(odooTotal - oracleTotal),
      Round2(odooPayments),
      Round2(oracleReceipts),
      unlinked)
  }

  lemma ReportedFigures(rows: seq<Row>)
    ensures forall s: Status :: s in Counts(rows)
    ensures Report(|rows|, Counts(rows), OdooSum(rows), OracleSum(rows), PaymentSum(rows), ReceiptSum(rows),
                   CountUnlinked(rows)) == FiguresOf(rows)
  {
    EveryStatusCounted(rows);
    hide OdooSum, OracleSum, PaymentSum, ReceiptSum, CountUnlinked, Counts, CountOf, Round2, MatchRate, SEVERITY;
  }

  lemma CountsAreTheCounts(rows: seq<Row>, s: Status)
    ensures s in Counts(rows) && Counts(rows)[s] == CountOf(rows, s)
  {
    EveryStatusIsListed(s);
  }

  lemma EveryStatusCounted(rows: seq<Row>)
    ensures forall s: Status :: s in Counts(rows) && Counts(rows)[s] == CountOf(rows, s)
  {
    forall s: Status
      ensures s in Counts(rows) && Counts(rows)[s] == CountOf(rows, s)
    {
      CountsAreTheCounts(rows, s);
    }
  }

  ghost predicate Gathered(groups: map<string, Group>, rows: seq<Row>, grouping: GroupBy)
    reads groups.Values
  {
    && groups.Keys == Keys(rows, grouping)
    && (forall k :: k in groups ==> groups[k].Valid() && groups[k].rows == InGroup(rows, grouping, k))
    && (forall k, l :: k in groups && l in groups && k != l ==> groups[k] != groups[l])
  }

  /** Taking in row `i` extends the group of its key and no other. */
  lemma GroupsSnoc(rows: seq<Row>, i: nat, grouping: GroupBy)
    requires i < |rows|
    ensures
      var key := GroupKey(rows[i], grouping);
      && Keys(rows[..i + 1], grouping) == Keys(rows[..i], grouping) + {key}
      && (key !in Keys(rows[..i], grouping) ==> InGroup(rows[..i], grouping, key) == [])
      && InGroup(rows[..i + 1], grouping, key) == InGroup(rows[..i], grouping, key) + [rows[i]]
      && forall k :: k != key ==> InGroup(rows[..i + 1], grouping, k) == InGroup(rows[..i], grouping, k)
  {
    hide Bucket, KeysOf, GroupKey;
    assert rows[..i + 1] == rows[..i] + [rows[i]];
    BucketsSnoc(rows[..i], rows[i], KeyBy(grouping));
  }

  /** One group for each key, holding the rows of that key in order. */
  method Gather(rows: seq<Row>, grouping: GroupBy) returns (groups: map<string, Group>)
    ensures Gathered(groups, rows, grouping)
    ensures forall k :: k in groups ==> fresh(groups[k])
  {
    hide InGroup, Keys, GroupKey, Group.Valid;
    groups := map[];
    NoRowsNoGroups(grouping);
    for i := 0 to |rows|
      invariant Gathered(groups, rows[..i], grouping)
      invariant forall k :: k in groups ==> fresh(groups[k])
    {
      var key := GroupKey(rows[i], grouping);
      GroupsSnoc(rows, i, grouping);
      if key !in groups {
        var group := new Group();
        groups := groups[key := group];
      }
      groups[key].Accumulate(rows[i]);
    }
    assert rows[..|rows|] == rows;
  }

  /** Every group reports the figures of its own rows, and the totals those of all rows. */
  method Breakdown(rows: seq<Row>, grouping: GroupBy)
    returns (reported: map<string, Figures>, totals: Figures)
    ensures reported.Keys == Keys(rows, grouping)
    ensures forall k :: k in reported ==> reported[k] == FiguresOf(InGroup(rows, grouping, k))
    ensures totals == FiguresOf(rows)
  {
    hide InGroup, FiguresOf, Keys, Group.Valid;
    var groups := Gather(rows, grouping);
    reported := map k | k in groups :: groups[k].Finalise();

    var all := new Group();
    for i := 0 to |rows|
      invariant all.Valid() && all.rows == rows[..i]
      invariant fresh(all)
    {
      all.Accumulate(rows[i]);
    }
    assert rows[..|rows|] == rows;
    totals := all.Finalise();
  }

  lemma NoRowsNoGroups(grouping: GroupBy)
    ensures Keys([], grouping) == {}
  {
  }

  /** The summary of the same rows: the very figures the breakdown totals carry, whatever the grouping. */
  method Summarise(rows: seq<Row>) returns (summary: Summary)
    ensures
      var f := FiguresOf(rows);
      summary == Summary(f.orders, f.counts, f.problems, f.odooTotal, f.oracleTotal, f.variance, f.matchRate,
                         CountAggregates(rows))
  {
    hide OdooSum, OracleSum, CountAggregates, Headers, Counts, CountOf, SEVERITY;
    var counts := Counts([]);
    var odooTotal, oracleTotal := 0.0, 0.0;
    var countedHeaders := {};
    var aggregatedOrders := 0;
    NothingYet();
    for i := 0 to |rows|
      invariant counts == Counts(rows[..i])
      invariant odooTotal == OdooSum(rows[..i]) && oracleTotal == OracleSum(rows[..i])
      invariant countedHeaders == Headers(rows[..i])
      invariant aggregatedOrders == CountAggregates(rows[..i])
    {
      var row := rows[i];
      assert rows[..i + 1] == rows[..i] + [row];
      CountsSnoc(rows[..i], row);
      CountersSnoc(rows[..i], row);
      SumsSnoc(rows[..i], row);
      OracleSumSnoc(rows[..i], row);
      HeadersSnoc(rows[..i], row);
      CountsAreTheCounts(rows[..i], row.status);
      counts := counts[row.status := counts[row.status] + 1];
      odooTotal := odooTotal + row.odoo.total;
      if IsAggregate(row) {
        aggregatedOrders := aggregatedOrders + 1;
      }
      if HasHeader(row) {
        if HeaderOf(row) !in countedHeaders {
          countedHeaders := countedHeaders + {HeaderOf(row)};
          oracleTotal := oracleTotal + row.oracle.value.total.GetOr(0.0);
        }
      } else {
        oracleTotal := oracleTotal + if row.oracle.Some? then row.oracle.value.total.GetOr(0.0) else 0.0;
      }
    }
    assert rows[..|rows|] == rows;
    EveryStatusCounted(rows);
    var problems := counts[OracleError] + counts[MissingInOracle] + counts[UnexpectedInOracle]
      + counts[AmountMismatch] + counts[PaymentMismatch] + counts[LineMismatch];
    var comparable := |rows| - counts[NotSyncable];
    summary := Summary(
      |rows|, counts, problems, Round2(odooTotal), Round2(oracleTotal), Round2(odooTotal - oracleTotal),
      MatchRate(counts[Matched], comparable), aggregatedOrders);
  }

  lemma NothingYet()
    ensures OdooSum([]) == 0.0 && OracleSum([]) == 0.0 && Headers([]) == {} && CountAggregates([]) == 0
  {
  }

  // ----- statuses partition the rows

  lemma {:induction false} StatusesPartitionTheRows(rows: seq<Row>)
    ensures Problems(rows) + CountOf(rows, Matched) + CountOf(rows, NotSyncable) == |rows|
  {
    if |rows| == 0 {
    } else {
      StatusesPartitionTheRows(rows[..|rows| - 1]);
    }
  }

  lemma QuotientAtLeast(m: real, c: real, t: real)
    requires c > 0.0
    ensures m / c >= t <==> m >= t * c
  {
    var q := m / c;
    assert m == q * c;
    if q >= t {
      assert (q - t) * c >= 0.0;
    } else {
      assert (t - q) * c > 0.0;
    }
  }

  lemma RateOf(matched: real, comparable: real)
    requires 0.0 <= matched <= comparable && comparable > 0.0
    ensures Round2(matched / comparable * 100.0) == 100.0 <==> 20000.0 * (comparable - matched) <= comparable
  {
    var q := matched / comparable;
    QuotientAtLeast(matched, comparable, 0.99995);
    QuotientAtLeast(matched, comparable, 1.00001);
    assert q >= 0.99995 <==> (q * 100.0 * 100.0 + 0.5).Floor == 10000;
  }

  /** The reported rate is 100 exactly if problems are at most one in twenty thousand comparable orders. */
  lemma RateIsHundredExactlyWhen(rows: seq<Row>)
    ensures FiguresOf(rows).matchRate == 100.0 <==> 20000 * Problems(rows) <= Comparable(rows)
  {
    hide CountOf, Round2;
    StatusesPartitionTheRows(rows);
    if Comparable(rows) > 0 {
      RateOf(CountOf(rows, Matched) as real, Comparable(rows) as real);
    }
  }

  lemma BelowTwentyThousandTheRateIsHonest(rows: seq<Row>)
    requires Comparable(rows) < 20000
    ensures FiguresOf(rows).matchRate == 100.0 <==> Problems(rows) == 0
  {
    hide FiguresOf;
    RateIsHundredExactlyWhen(rows);
    StatusesPartitionTheRows(rows);
  }

  lemma {:induction false} CountRepeated(n: nat, row: Row, s: Status)
    ensures CountOf(seq(n, _ => row), s) == if row.status == s then n else 0
  {
    if n == 0 {
    } else {
      assert seq(n, _ => row)[..n - 1] == seq(n - 1, _ => row);
      CountRepeated(n - 1, row, s);
    }
  }

  /** At twenty thousand orders, the most a scan takes, one problem among matches still reports 100. */
  lemma OneProblemAmongTwentyThousand(good: Row, bad: Row)
    requires good.status == Matched && bad.status == OracleError
    ensures
      var rows := seq(19999, _ => good) + [bad];
      |rows| == 20000 && Problems(rows) == 1 && FiguresOf(rows).matchRate == 100.0
  {
    hide CountOf, FiguresOf;
    var before := seq(19999, _ => good);
    forall s: Status
      ensures CountOf(before + [bad], s) == (if s == Matched then 19999 else 0) + if s == OracleError then 1 else 0
    {
      CountRepeated(19999, good, s);
      CountSnoc(before, bad, s);
    }
    RateIsHundredExactlyWhen(before + [bad]);
  }

  // ----- groups partition the rows

  /** Whatever is added up row by row, the groups' sums add up to that of the whole. */
  lemma GroupsPartitionTheRows(rows: seq<Row>, grouping: GroupBy, f: Row -> real)
    ensures SumSet(Keys(rows, grouping), GroupSum(rows, grouping, f)) == SumSeq(rows, f)
  {
    BucketsPartition(rows, KeyBy(grouping), f);
  }

  function GroupSum(rows: seq<Row>, grouping: GroupBy, f: Row -> real): string -> real {
    BucketSum(rows, KeyBy(grouping), f)
  }

  // ----- the order of the rows does not matter

  function Loose(row: Row): real {
    if HasHeader(row) then 0.0 else OracleTotal(row)
  }

  function PriceOf(totals: map<string, real>): string -> real {
    h => if h in totals then totals[h] else 0.0
  }

  /** The Oracle total without the loop: rows with no header, and each header's total once. */
  lemma {:induction false} OracleSumIsOncePerHeader(rows: seq<Row>, totals: map<string, real>)
    requires PricedBy(rows, totals)
    ensures OracleSum(rows) == SumSeq(rows, Loose) + SumSet(Headers(rows), PriceOf(totals))
  {
    if |rows| == 0 {
      assert Headers(rows) == {};
    } else {
      var before, row := rows[..|rows| - 1], rows[|rows| - 1];
      assert rows == before + [row];
      assert PricedBy(before, totals) by {
        assert forall i :: 0 <= i < |before| ==> before[i] == rows[i];
      }
      OracleSumIsOncePerHeader(before, totals);
      HeadersSnoc(before, row);
      if HasHeader(row) && HeaderOf(row) !in Headers(before) {
        SumSetAdd(Headers(before), PriceOf(totals), HeaderOf(row));
      } else {
        assert Headers(rows) == Headers(before);
      }
    }
  }

  lemma PricedAmong(a: seq<Row>, b: seq<Row>, totals: map<string, real>)
    requires forall i :: 0 <= i < |a| ==> a[i] in b
    requires PricedBy(b, totals)
    ensures PricedBy(a, totals)
  {
  }

  lemma OracleSumPermutes(a: seq<Row>, b: seq<Row>, totals: map<string, real>)
    requires multiset(a) == multiset(b) && PricedBy(a, totals)
    ensures OracleSum(a) == OracleSum(b)
  {
    hide OracleSum, SumSeq, SumSet, Headers, PricedBy;
    SameElements(a, b);
    SameElements(b, a);
    PricedAmong(b, a, totals);
    HeadersAmong(a, b);
    HeadersAmong(b, a);
    assert Headers(a) == Headers(b);
    OracleSumIsOncePerHeader(a, totals);
    OracleSumIsOncePerHeader(b, totals);
    SumSeqPermutes(a, b, Loose);
  }

  function IsStatus(s: Status): Row -> real {
    (row: Row) => if row.status == s then 1.0 else 0.0
  }

  function IsUnlinked(row: Row): real {
    if Unlinked(row) then 1.0 else 0.0
  }

  lemma {:induction false} CountsAreSums(rows: seq<Row>, s: Status)
    ensures CountOf(rows, s) as real == SumSeq(rows, IsStatus(s))
    ensures CountUnlinked(rows) as real == SumSeq(rows, IsUnlinked)
  {
    if |rows| == 0 {
    } else {
      CountsAreSums(rows[..|rows| - 1], s);
    }
  }

  lemma CountsPermute(a: seq<Row>, b: seq<Row>, s: Status)
    requires multiset(a) == multiset(b)
    ensures CountOf(a, s) == CountOf(b, s) && CountUnlinked(a) == CountUnlinked(b)
  {
    CountsAreSums(a, s);
    CountsAreSums(b, s);
    SumSeqPermutes(a, b, IsStatus(s));
    SumSeqPermutes(a, b, IsUnlinked);
  }

  lemma FiguresPermute(a: seq<Row>, b: seq<Row>, totals: map<string, real>)
    requires multiset(a) == multiset(b) && PricedBy(a, totals)
    ensures FiguresOf(a) == FiguresOf(b)
  {
    hide OracleSum, SumSeq, CountOf, CountUnlinked, PricedBy, SEVERITY, MatchRate, Round2;
    SameElements(a, b);
    OracleSumPermutes(a, b, totals);
    SumSeqPermutes(a, b, OrderTotal);
    SumSeqPermutes(a, b, PaymentTotal);
    SumSeqPermutes(a, b, ReceiptTotal);
    forall s: Status
      ensures CountOf(a, s) == CountOf(b, s) && CountUnlinked(a) == CountUnlinked(b)
    {
      CountsPermute(a, b, s);
    }
    assert CountUnlinked(a) == CountUnlinked(b) by {
      CountsPermute(a, b, Matched);
    }
  }

  /** The same orders in another order give the same groups, each with the same figures, and the same totals. */
  lemma OrderOfRowsDoesNotMatter(a: seq<Row>, b: seq<Row>, grouping: GroupBy, totals: map<string, real>)
    requires multiset(a) == multiset(b) && PricedBy(a, totals)
    ensures Keys(a, grouping) == Keys(b, grouping)
    ensures forall k :: FiguresOf(InGroup(a, grouping, k)) == FiguresOf(InGroup(b, grouping, k))
    ensures FiguresOf(a) == FiguresOf(b)
  {
    hide FiguresOf, Bucket, KeysOf, PricedBy;
    SameElements(a, b);
    SameElements(b, a);
    KeysAmong(a, b, KeyBy(grouping));
    KeysAmong(b, a, KeyBy(grouping));
    FiguresPermute(a, b, totals);
    forall k
      ensures FiguresOf(InGroup(a, grouping, k)) == FiguresOf(InGroup(b, grouping, k))
    {
      BucketPermutes(a, b, KeyBy(grouping), k);
      BucketAmong(a, KeyBy(grouping), k);
      PricedAmong(InGroup(a, grouping, k), a, totals);
      FiguresPermute(InGroup(a, grouping, k), InGroup(b, grouping, k), totals);
    }
  }

  // ----- the shared-invoice law on the reported figures

  lemma {:induction false} OracleSumInCents(rows: seq<Row>)
    requires forall i :: 0 <= i < |rows| ==> InCents(OracleTotal(rows[i]))
    ensures InCents(OracleSum(rows))
  {
    hide InCents, OracleTotal;
    if |rows| == 0 {
      ZeroIsInCents();
    } else {
      var before := rows[..|rows| - 1];
      assert forall i :: 0 <= i < |before| ==> before[i] == rows[i];
      OracleSumInCents(before);
      CentsAddUp(OracleSum(before), OracleTotal(rows[|rows| - 1]));
    }
  }

  lemma BuiltRowsAreInCents(orders: seq<OdooSide>, t: Tables, tolerance: real)
    ensures forall row :: row in BuildRows(orders, t, tolerance) ==> InCents(OracleTotal(row))
  {
    hide InCents, Round2;
    ZeroIsInCents();
    forall i | 0 <= i < |orders|
      ensures InCents(OracleTotal(BuildRows(orders, t, tolerance)[i]))
    {
      var oracle := OracleOf(t, orders[i].orderName);
      if oracle.Some? && oracle.value.total.Some? {
        var group := t.lines[orders[i].orderName];
        Round2IsNearest(t.headers[group.headerId.value].totalAmount.value);
      }
    }
  }

  function ReportedTotal(rows: seq<Row>, grouping: GroupBy): string -> real {
    key => FiguresOf(InGroup(rows, grouping, key)).oracleTotal
  }

  /**
   What a scan reports, rounding and all: the groups' Oracle totals add up to the grand total plus, for each shared
   invoice, its total once for every group it touches beyond the first.
   */
  lemma ReportedInvoiceLaw(orders: seq<OdooSide>, t: Tables, tolerance: real, grouping: GroupBy)
    ensures
      var rows := BuildRows(orders, t, tolerance);
      SumSet(Keys(rows, grouping), ReportedTotal(rows, grouping))
      == FiguresOf(rows).oracleTotal + TotalExcess(rows, grouping, TotalsOf(t))
  {
    hide BuildRows, InCents, Round2, OracleSum, SumSet, KeysOf, Bucket, PricedBy, TotalExcess, OracleTotal;
    var rows := BuildRows(orders, t, tolerance);
    BuiltRowsArePriced(orders, t, tolerance);
    BuiltRowsAreInCents(orders, t, tolerance);
    SharedInvoiceLaw(rows, grouping, TotalsOf(t));
    OracleSumInCents(rows);
    CentsAreUnchanged(OracleSum(rows));
    forall key
      ensures ReportedTotal(rows, grouping)(key) == GroupTotal(rows, grouping)(key)
    {
      BucketAmong(rows, KeyBy(grouping), key);
      OracleSumInCents(InGroup(rows, grouping, key));
      CentsAreUnchanged(OracleSum(InGroup(rows, grouping, key)));
    }
    SumSetSame(Keys(rows, grouping), ReportedTotal(rows, grouping), GroupTotal(rows, grouping));
  }

  // ----- the other reported totals

  lemma RoundedGroupSum(rows: seq<Row>, grouping: GroupBy, f: Row -> real, key: string)
    requires forall row :: row in rows ==> InCents(f(row))
    ensures Round2(GroupSum(rows, grouping, f)(key)) == GroupSum(rows, grouping, f)(key)
  {
    hide InCents, Round2;
    BucketAmong(rows, KeyBy(grouping), key);
    SumInCents(InGroup(rows, grouping, key), f);
    CentsAreUnchanged(SumSeq(InGroup(rows, grouping, key), f));
  }

  /** `report` is what the groups report for a figure that adds up `f` row by row. */
  lemma RoundedGroupsAddUp(rows: seq<Row>, grouping: GroupBy, f: Row -> real, report: string -> real)
    requires forall row :: row in rows ==> InCents(f(row))
    requires forall key :: report(key) == Round2(GroupSum(rows, grouping, f)(key))
    ensures SumSet(Keys(rows, grouping), report) == Round2(SumSeq(rows, f))
  {
    hide InCents, Round2, SumSet, SumSeq, GroupSum, Keys;
    forall key
      ensures report(key) == GroupSum(rows, grouping, f)(key)
    {
      RoundedGroupSum(rows, grouping, f, key);
    }
    SumSetSame(Keys(rows, grouping), report, GroupSum(rows, grouping, f));
    GroupsPartitionTheRows(rows, grouping, f);
    SumInCents(rows, f);
    CentsAreUnchanged(SumSeq(rows, f));
  }

  function ReportedOdoo(rows: seq<Row>, grouping: GroupBy): string -> real {
    key => FiguresOf(InGroup(rows, grouping, key)).odooTotal
  }

  function ReportedPayments(rows: seq<Row>, grouping: GroupBy): string -> real {
    key => FiguresOf(InGroup(rows, grouping, key)).odooPayments
  }

  function ReportedReceipts(rows: seq<Row>, grouping: GroupBy): string -> real {
    key => FiguresOf(InGroup(rows, grouping, key)).oracleReceipts
  }

  /** A row as it is built carries amounts already rounded to whole cents. */
  ghost predicate AmountsInCents(row: Row) {
    InCents(OrderTotal(row)) && InCents(PaymentTotal(row)) && InCents(ReceiptTotal(row))
  }

  /** Sales, payments and receipts: what the groups report adds up, to the cent, to what the totals report. */
  lemma ReportedGroupsAddUp(rows: seq<Row>, grouping: GroupBy)
    requires forall row :: row in rows ==> AmountsInCents(row)
    ensures SumSet(Keys(rows, grouping), ReportedOdoo(rows, grouping)) == FiguresOf(rows).odooTotal
    ensures SumSet(Keys(rows, grouping), ReportedPayments(rows, grouping)) == FiguresOf(rows).odooPayments
    ensures SumSet(Keys(rows, grouping), ReportedReceipts(rows, grouping)) == FiguresOf(rows).oracleReceipts
  {
    hide InCents, Round2, SumSet, SumSeq, Keys, Bucket, OrderTotal, PaymentTotal, ReceiptTotal, Problems, MatchRate;
    RoundedGroupsAddUp(rows, grouping, OrderTotal, ReportedOdoo(rows, grouping));
    RoundedGroupsAddUp(rows, grouping, PaymentTotal, ReportedPayments(rows, grouping));
    RoundedGroupsAddUp(rows, grouping, ReceiptTotal, ReportedReceipts(rows, grouping));
  }
}
