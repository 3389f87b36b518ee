/** The tender report of one window: from the stored receipts to the totals, and which tenders count as unmapped. */
module TenderWindow {
  import opened Wrappers
  import opened Sums
  import Text
  import opened Reconciliation
  import opened ReceiptNumbers
  import opened Tender

  // ----- from stored receipts to the totals

  /** The window's transaction numbers, each once, in the order first seen. */
  function Txns(rows: seq<Row>): seq<string> {
    if |rows| == 0 then []
    else
      var earlier, txn := Txns(rows[..|rows| - 1]), TxnOf(rows[|rows| - 1]);
      if txn == "" || txn in earlier then earlier else earlier + [txn]
  }

  lemma {:induction false} TxnsAreLocated(rows: seq<Row>)
    ensures forall t :: t in Txns(rows) <==> t != "" && FirstWith(rows, t).Some?
    ensures forall i, j :: 0 <= i < j < |Txns(rows)| ==> Txns(rows)[i] != Txns(rows)[j]
  {
    if |rows| == 0 {
    } else {
      TxnsAreLocated(rows[..|rows| - 1]);
    }
  }

  lemma {:induction false} ChunksHoldOnlyTheirs(txns: seq<string>, size: nat)
    requires size > 0
    ensures forall p, i :: 0 <= p < |Chunks(txns, size)| && 0 <= i < |Chunks(txns, size)[p]| ==>
      Chunks(txns, size)[p][i] in txns
  {
    if |txns| > size {
      ChunksHoldOnlyTheirs(txns[size..], size);
      assert forall t :: t in txns[size..] ==> t in txns;
      assert forall t :: t in txns[..size] ==> t in txns;
    }
  }

  /** What collecting gives: receipts of the kind asked for, each under a number of one of the parts. */
  ghost predicate CollectedFrom(out: seq<Receipt>, isMisc: bool, txns: seq<string>) {
    forall i :: 0 <= i < |out| ==> out[i].isMisc == isMisc && out[i].txn in txns && out[i].txn != ""
  }

  lemma {:induction false} PartIsCollected(table: seq<Stored>, part: seq<string>, isMisc: bool, txns: seq<string>)
    requires forall i :: 0 <= i < |part| ==> part[i] in txns
    ensures CollectedFrom(FromPart(table, part, isMisc), isMisc, txns)
  {
    if |table| == 0 {
    } else {
      hide Longest, LastIndexOf;
      var r := table[|table| - 1];
      PartIsCollected(table[..|table| - 1], part, isMisc, txns);
      LongestIsTheWinner(r.number.GetOr(""), part);
    }
  }

  lemma {:induction false} PartsAreCollected(
    table: seq<Stored>, parts: seq<seq<string>>, isMisc: bool, txns: seq<string>)
    requires forall p, i :: 0 <= p < |parts| && 0 <= i < |parts[p]| ==> parts[p][i] in txns
    ensures CollectedFrom(FromParts(table, parts, isMisc), isMisc, txns)
  {
    if |parts| == 0 {
    } else {
      hide FromPart;
      PartsAreCollected(table, parts[..|parts| - 1], isMisc, txns);
      PartIsCollected(table, parts[|parts| - 1], isMisc, txns);
    }
  }

  lemma {:induction false} CollectedMoneyLands(rows: seq<Row>, out: seq<Receipt>, isMisc: bool, side: Side)
    requires CollectedFrom(out, isMisc, Txns(rows))
    ensures SumSeq(out, LandsOn(rows, side))
         == if side == (if isMisc then Fee else Receipted) then SumSeq(out, AmountOf) else 0.0
  {
    if |out| == 0 {
    } else {
      hide FirstWith, Txns;
      TxnsAreLocated(rows);
      CollectedMoneyLands(rows, out[..|out| - 1], isMisc, side);
    }
  }

  lemma TableLands(rows: seq<Row>, table: seq<Stored>, isMisc: bool, side: Side)
    ensures
      var parts := Chunks(Txns(rows), PART_SIZE);
      SumSeq(FromParts(table, parts, isMisc), LandsOn(rows, side))
      == if side == (if isMisc then Fee else Receipted) then SumSeq(table, ClaimedAmount(parts)) else 0.0
  {
    hide SumSeq, LandsOn, ClaimedAmount, FromParts, Chunks, Txns;
    var parts := Chunks(Txns(rows), PART_SIZE);
    ChunksHoldOnlyTheirs(Txns(rows), PART_SIZE);
    PartsAreCollected(table, parts, isMisc, Txns(rows));
    CollectedMoneyLands(rows, FromParts(table, parts, isMisc), isMisc, side);
    MoneyIsCountedOncePerPart(table, parts, isMisc);
  }

  /**
   Every stored receipt reaches the report with its money once for each two hundred of the window's transaction numbers
   among which one occurs in its number: standard receipts as takings receipted, miscellaneous ones as fees.
   */
  lemma StoredReceiptsReachTheReport(rows: seq<Row>, standard: seq<Stored>, misc: seq<Stored>)
    ensures
      var parts := Chunks(Txns(rows), PART_SIZE);
      var receipts := ByTransaction(standard, misc, Txns(rows));
      && SumSeq(receipts, LandsOn(rows, Receipted)) == SumSeq(standard, ClaimedAmount(parts))
      && SumSeq(receipts, LandsOn(rows, Fee)) == SumSeq(misc, ClaimedAmount(parts))
  {
    hide SumSeq, LandsOn, ClaimedAmount, FromParts, Chunks, Txns;
    var parts := Chunks(Txns(rows), PART_SIZE);
    var a, b := FromParts(standard, parts, false), FromParts(misc, parts, true);
    SumSeqConcat(a, b, LandsOn(rows, Receipted));
    SumSeqConcat(a, b, LandsOn(rows, Fee));
    TableLands(rows, standard, false, Receipted);
    TableLands(rows, standard, false, Fee);
    TableLands(rows, misc, true, Receipted);
    TableLands(rows, misc, true, Fee);
  }

  // ----- mapping status

  datatype Mapping = Mapping(oracleName: string, usable: bool)

  datatype MappingStatus = Mapped | Pending | OracleOnly | Unmapped

  ghost predicate ReceiptedSomewhere(list: seq<TenderRow>, tender: string) {
    exists i :: 0 <= i < |list| && list[i].oracleCount > 0 && Text.Upper(list[i].tender) == Text.Upper(tender)
  }

  predicate HasUsableMapping(mappings: map<string, Mapping>, tender: string) {
    Text.Upper(tender) in mappings && mappings[Text.Upper(tender)].usable
  }

  /** No usable mapping, and no receipt for it anywhere in the window. */
  ghost predicate Stuck(list: seq<TenderRow>, mappings: map<string, Mapping>, tender: string) {
    !HasUsableMapping(mappings, tender) && !ReceiptedSomewhere(list, tender)
  }

  method FindReceipted(list: seq<TenderRow>) returns (receipted: set<string>)
    ensures forall i :: 0 <= i < |list| ==>
      (Text.Upper(list[i].tender) in receipted <==> ReceiptedSomewhere(list, list[i].tender))
  {
    hide Text.Upper;
    receipted := {};
    for i := 0 to |list|
      invariant forall t :: t in receipted <==>
        exists j :: 0 <= j < i && list[j].oracleCount > 0 && Text.Upper(list[j].tender) == t
    {
      if list[i].oracleCount > 0 {
        receipted := receipted + {Text.Upper(list[i].tender)};
      }
    }
  }

  /**
   The headline list names a tender exactly if it is stuck, and a row is called unmapped only then; a tender that
   settles for one store is never unmapped for another.
   */
  method MapTenders(list: seq<TenderRow>, mappings: map<string, Mapping>)
    returns (status: seq<MappingStatus>, unmapped: set<string>)
    ensures |status| == |list|
    ensures forall t :: t in unmapped <==>
      exists i :: 0 <= i < |list| && list[i].tender == t && Stuck(list, mappings, t)
    ensures forall i :: 0 <= i < |list| ==>
      (status[i] == Unmapped <==>
        Stuck(list, mappings, list[i].tender) && Text.Upper(list[i].tender) !in mappings)
    ensures forall i :: 0 <= i < |list| ==>
      (status[i] == OracleOnly <==>
        Text.Upper(list[i].tender) !in mappings && list[i].odooCount == 0 && list[i].oracleCount > 0)
    ensures forall i :: 0 <= i < |list| ==>
      (status[i] == Pending <==>
        Text.Upper(list[i].tender) in mappings && !HasUsableMapping(mappings, list[i].tender))
  {
    hide Text.Upper, ReceiptedSomewhere;
    var receipted := FindReceipted(list);
    status, unmapped := [], {};
    for i := 0 to |list|
      invariant |status| == i
      invariant forall t :: t in unmapped <==> exists j :: 0 <= j < i && list[j].tender == t && Stuck(list, mappings, t)
      invariant forall j :: 0 <= j < i ==>
        (status[j] == Unmapped <==>
          Stuck(list, mappings, list[j].tender) && Text.Upper(list[j].tender) !in mappings)
      invariant forall j :: 0 <= j < i ==>
        (status[j] == OracleOnly <==>
          Text.Upper(list[j].tender) !in mappings && list[j].odooCount == 0 && list[j].oracleCount > 0)
      invariant forall j :: 0 <= j < i ==>
        (status[j] == Pending <==>
          Text.Upper(list[j].tender) in mappings && !HasUsableMapping(mappings, list[j].tender))
    {
      var folded := Text.Upper(list[i].tender);
      OwnReceiptsCount(list, i);
      if folded in mappings {
        status := status + [if mappings[folded].usable then Mapped else Pending];
        if !mappings[folded].usable && folded !in receipted {
          unmapped := unmapped + {list[i].tender};
        }
      } else if list[i].odooCount == 0 && list[i].oracleCount > 0 {
        status := status + [OracleOnly];
      } else if folded in receipted {
        status := status + [Mapped];
      } else {
        status := status + [Unmapped];
        unmapped := unmapped + {list[i].tender};
      }
    }
  }

  lemma OwnReceiptsCount(list: seq<TenderRow>, i: nat)
    requires i < |list|
    ensures list[i].oracleCount > 0 ==> ReceiptedSomewhere(list, list[i].tender)
  {
  }
}
