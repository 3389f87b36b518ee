/** Receipts found back by the transaction number inside their own number, and the tender by what precedes it. */
module ReceiptNumbers {
  import opened Wrappers
  import opened Sums
  import opened Text

  const UNKNOWN_TENDER := "UNKNOWN"
  const PART_SIZE: nat := 200

  datatype Stored = Stored(number: Option<string>, amount: real, status: Option<string>)

  /** Neither rejected nor without a status, which the database's comparison does not let through either. */
  predicate Accepted(status: Option<string>) {
    status.Some? && Upper(status.value) != "ERROR"
  }

  datatype Receipt = Receipt(txn: string, tender: string, amount: real, isMisc: bool)

  // ----- attributing one receipt number

  predicate Occurs(number: string, txn: string) {
    Includes(number, "-" + txn)
  }

  /** The longest transaction number that occurs after a hyphen, the earliest listed of several as long. */
  function Longest(number: string, part: seq<string>): Option<string> {
    if |part| == 0 then None
    else
      var best := Longest(number, part[..|part| - 1]);
      var txn := part[|part| - 1];
      if Occurs(number, txn) && (best.None? || |txn| > |best.value|) then Some(txn) else best
  }

  /** Index `i` of the part is the one that wins. */
  ghost predicate Wins(number: string, part: seq<string>, i: nat) {
    && i < |part|
    && Occurs(number, part[i])
    && (forall j :: 0 <= j < |part| && Occurs(number, part[j]) ==>
      |part[j]| <= |part[i]| && (j < i ==> |part[j]| < |part[i]|))
  }

  lemma {:induction false} LongestIsTheWinner(number: string, part: seq<string>)
    ensures Longest(number, part).None? ==> forall j :: 0 <= j < |part| ==> !Occurs(number, part[j])
    ensures Longest(number, part).Some? ==>
      exists i: nat :: Wins(number, part, i) && part[i] == Longest(number, part).value
  {
    hide Occurs;
    if |part| == 0 {
    } else {
      var before := part[..|part| - 1];
      LongestIsTheWinner(number, before);
      assert forall j :: 0 <= j < |before| ==> part[j] == before[j];
      if Longest(number, part) == Longest(number, before) {
        if Longest(number, before).Some? {
          var i: nat :| Wins(number, before, i) && before[i] == Longest(number, before).value;
          assert Wins(number, part, i);
        }
      } else {
        assert Wins(number, part, |part| - 1);
      }
    }
  }

  lemma OneWinner(number: string, part: seq<string>, i: nat, j: nat)
    requires Wins(number, part, i) && Wins(number, part, j)
    ensures i == j
  {
  }

  /** A transaction number is chosen exactly if it occurs, nothing longer does, and nothing as long does earlier. */
  lemma ChosenExactlyWhen(number: string, part: seq<string>, txn: string)
    ensures Longest(number, part) == Some(txn) <==> exists i: nat :: Wins(number, part, i) && part[i] == txn
  {
    hide Occurs, Longest;
    LongestIsTheWinner(number, part);
    if i: nat :| Wins(number, part, i) && part[i] == txn {
      assert Longest(number, part).Some?;
      var k: nat :| Wins(number, part, k) && part[k] == Longest(number, part).value;
      OneWinner(number, part, i, k);
    }
  }

  /** The last index at which `p` occurs, at or before `from`; -1 if there is none. */
  function LastFrom(s: string, p: string, from: int): (i: int)
    requires from <= |s|
    ensures -1 <= i && (from >= 0 ==> i <= from)
    ensures i >= 0 ==> OccursAt(s, p, i)
    ensures forall j :: i < j <= from ==> !OccursAt(s, p, j)
    decreases from + 1
  {
    if from < 0 then -1
    else if OccursAt(s, p, from) then from
    else LastFrom(s, p, from - 1)
  }

  function LastIndexOf(s: string, p: string): int {
    LastFrom(s, p, |s|)
  }

  lemma LastIndexIs(s: string, p: string, i: nat)
    requires i <= |s| && OccursAt(s, p, i)
    requires forall j :: i < j <= |s| ==> !OccursAt(s, p, j)
    ensures LastIndexOf(s, p) == i
  {
  }

  lemma OccurrenceHasALast(number: string, txn: string)
    requires Occurs(number, txn)
    ensures 0 <= LastIndexOf(number, "-" + txn) <= |number|
  {
  }

  function OrUnknown(name: string): string {
    if name == "" then UNKNOWN_TENDER else name
  }

  /** What one receipt of a part becomes; a receipt in which nothing occurs is left out. */
  function Attributed(r: Stored, part: seq<string>, isMisc: bool): Option<Receipt> {
    var number := r.number.GetOr("");
    var matched := Longest(number, part);
    if !Accepted(r.status) || matched.None? || matched.value == "" then None
    else
      LongestIsTheWinner(number, part);
      OccurrenceHasALast(number, matched.value);
      var cut := LastIndexOf(number, "-" + matched.value);
      Some(Receipt(matched.value, OrUnknown(Trim(number[..cut])), r.amount, isMisc))
  }

  // ----- the round trip

  predicate IsDigit(c: char) {
    '0' <= c <= '9'
  }

  predicate IsTxn(txn: string) {
    |txn| > 0 && forall i :: 0 <= i < |txn| ==> IsDigit(txn[i])
  }

  /** The number a receipt is given when it is pushed. */
  function Numbered(tender: string, txn: string, isMisc: bool): string {
    tender + "-" + txn + if isMisc then "-MISC" else ""
  }

  lemma CharsOfNumbered(tender: string, txn: string, isMisc: bool)
    ensures
      var number := Numbered(tender, txn, isMisc);
      && |number| == |tender| + 1 + |txn| + (if isMisc then 5 else 0)
      && number[..|tender|] == tender
      && number[|tender|] == '-'
      && number[|tender| + 1..|tender| + 1 + |txn|] == txn
      && number[|tender| + 1 + |txn|..] == (if isMisc then "-MISC" else "")
      && OccursAt(number, "-" + txn, |tender|)
  {
    var number := Numbered(tender, txn, isMisc);
    assert number[|tender|..|tender| + 1 + |txn|] == "-" + txn;
  }

  /** After the tender, no hyphen but the one put in is followed by a digit. */
  lemma NoHyphenDigitAfter(tender: string, txn: string, isMisc: bool, i: int)
    requires IsTxn(txn) && |tender| < i < |Numbered(tender, txn, isMisc)| - 1
    ensures var number := Numbered(tender, txn, isMisc); number[i] == '-' ==> !IsDigit(number[i + 1])
  {
    var number, after := Numbered(tender, txn, isMisc), |tender| + 1;
    CharsOfNumbered(tender, txn, isMisc);
    hide Numbered;
    if i < after + |txn| {
      assert number[i] == number[after..after + |txn|][i - after];
    } else {
      assert number[i + 1] == number[after + |txn|..][i + 1 - after - |txn|];
    }
  }

  /** Nor inside it, if it holds no hyphen before a digit itself. */
  lemma NoHyphenDigitBefore(tender: string, txn: string, isMisc: bool, i: int)
    requires NoHyphenDigit(tender) && 0 <= i < |tender|
    ensures var number := Numbered(tender, txn, isMisc);
      i + 1 < |number| && (number[i] == '-' ==> !IsDigit(number[i + 1]))
  {
    var number := Numbered(tender, txn, isMisc);
    CharsOfNumbered(tender, txn, isMisc);
    hide Numbered;
    assert number[i] == number[..|tender|][i];
    if i + 1 < |tender| {
      assert number[i + 1] == number[..|tender|][i + 1];
    }
  }

  /** An occurrence starts with a hyphen and goes on with the digits of the number looked for. */
  lemma OccurrenceChars(s: string, txn: string, i: int)
    requires OccursAt(s, "-" + txn, i)
    ensures 0 <= i && i + 1 + |txn| <= |s| && s[i] == '-' && s[i + 1..i + 1 + |txn|] == txn
    ensures IsTxn(txn) ==> IsDigit(s[i + 1])
  {
    var p := "-" + txn;
    assert s[i] == s[i..i + |p|][0] == p[0];
    assert s[i + 1..i + 1 + |txn|] == s[i..i + |p|][1..] == p[1..] == txn;
    if IsTxn(txn) {
      assert s[i + 1] == s[i + 1..i + 1 + |txn|][0];
    }
  }

  /** After the hyphen that was put in, no transaction number occurs. */
  lemma NothingAfterTheTxn(tender: string, txn: string, isMisc: bool, other: string, i: int)
    requires IsTxn(txn) && IsTxn(other) && |tender| < i
    ensures !OccursAt(Numbered(tender, txn, isMisc), "-" + other, i)
  {
    var number := Numbered(tender, txn, isMisc);
    if OccursAt(number, "-" + other, i) {
      OccurrenceChars(number, other, i);
      NoHyphenDigitAfter(tender, txn, isMisc, i);
      assert false;
    }
  }

  /** Cutting at the last occurrence gives back what was put in front, whatever hyphens it holds. */
  lemma CutGivesBackTheTender(tender: string, txn: string, isMisc: bool)
    requires IsTxn(txn)
    ensures Occurs(Numbered(tender, txn, isMisc), txn)
    ensures LastIndexOf(Numbered(tender, txn, isMisc), "-" + txn) == |tender|
    ensures Numbered(tender, txn, isMisc)[..|tender|] == tender
  {
    var number := Numbered(tender, txn, isMisc);
    CharsOfNumbered(tender, txn, isMisc);
    forall j | |tender| < j <= |number|
      ensures !OccursAt(number, "-" + txn, j)
    {
      NothingAfterTheTxn(tender, txn, isMisc, txn, j);
    }
    LastIndexIs(number, "-" + txn, |tender|);
  }

  /** The receipt comes back to its own transaction number, with its tender, exactly if that number wins its part. */
  lemma RoundTripExactlyWhen(
    tender: string, part: seq<string>, i: nat, amount: real, status: Option<string>, isMisc: bool)
    requires i < |part| && IsTxn(part[i]) && Accepted(status)
    requires forall j, k :: 0 <= j < k < |part| ==> part[j] != part[k]
    ensures
      var number := Numbered(tender, part[i], isMisc);
      Attributed(Stored(Some(number), amount, status), part, isMisc)
      == Some(Receipt(part[i], if Trim(tender) == "" then "UNKNOWN" else Trim(tender), amount, isMisc))
      <==> forall j :: 0 <= j < |part| && j != i && Occurs(number, part[j]) ==>
        |part[j]| < |part[i]| || (|part[j]| == |part[i]| && i < j)
  {
    hide Occurs, Longest, Trim, Accepted, LastIndexOf, Numbered;
    var number := Numbered(tender, part[i], isMisc);
    CutGivesBackTheTender(tender, part[i], isMisc);
    ChosenExactlyWhen(number, part, part[i]);
    if Longest(number, part) == Some(part[i]) {
      var k: nat :| Wins(number, part, k) && part[k] == part[i];
      assert k == i;
    } else {
      assert !Wins(number, part, i);
    }
  }

  /** No hyphen inside the tender is followed by a digit. */
  predicate NoHyphenDigit(tender: string) {
    forall i :: 0 <= i < |tender| - 1 && tender[i] == '-' ==> !IsDigit(tender[i + 1])
  }

  /** A run of digits ends where a character is none. */
  lemma DigitsEnd(s: string, start: nat, n: nat, stop: nat)
    requires start + n <= |s| && IsTxn(s[start..start + n])
    requires start <= stop <= |s| && (stop < |s| ==> !IsDigit(s[stop]))
    ensures start + n <= stop
  {
    var run := s[start..start + n];
    assert forall k :: 0 <= k < n ==> IsDigit(run[k]);
    assert forall p :: start <= p < start + n ==> s[p] == run[p - start];
  }

  lemma OnlyPrefixesOccur(tender: string, txn: string, isMisc: bool, other: string)
    requires IsTxn(txn) && IsTxn(other) && NoHyphenDigit(tender)
    requires Occurs(Numbered(tender, txn, isMisc), other)
    ensures other <= txn
  {
    hide Numbered, Occurs, OccursAt, IsDigit, NoHyphenDigit;
    var number, after := Numbered(tender, txn, isMisc), |tender| + 1;
    var i := FirstOccurrence(number, other);
    CharsOfNumbered(tender, txn, isMisc);
    OccurrenceChars(number, other, i);
    if i > |tender| {
      NoHyphenDigitAfter(tender, txn, isMisc, i);
    } else if i < |tender| {
      NoHyphenDigitBefore(tender, txn, isMisc, i);
    }
    assert i == |tender|;
    EndOfTxn(tender, txn, isMisc);
    DigitsEnd(number, after, |other|, after + |txn|);
    assert txn[..|other|] == number[after..after + |txn|][..|other|] == number[after..after + |other|];
  }

  lemma EndOfTxn(tender: string, txn: string, isMisc: bool)
    ensures
      var number, stop := Numbered(tender, txn, isMisc), |tender| + 1 + |txn|;
      stop <= |number| && (stop < |number| ==> !IsDigit(number[stop]))
  {
  }

  lemma FirstOccurrence(number: string, txn: string) returns (i: int)
    requires Occurs(number, txn)
    ensures 0 <= i <= |number| && OccursAt(number, "-" + txn, i)
  {
    i :| 0 <= i <= |number| && OccursAt(number, "-" + txn, i);
  }

  /** With numeric transaction numbers, a tender without a hyphen before a digit always comes back. */
  lemma PlainTendersAlwaysComeBack(
    tender: string, part: seq<string>, i: nat, amount: real, status: Option<string>, isMisc: bool)
    requires i < |part| && Accepted(status) && NoHyphenDigit(tender)
    requires forall j :: 0 <= j < |part| ==> IsTxn(part[j])
    requires forall j, k :: 0 <= j < k < |part| ==> part[j] != part[k]
    ensures Attributed(Stored(Some(Numbered(tender, part[i], isMisc)), amount, status), part, isMisc)
         == Some(Receipt(part[i], if Trim(tender) == "" then "UNKNOWN" else Trim(tender), amount, isMisc))
  {
    hide Occurs, Attributed, Accepted, Trim, IsTxn, NoHyphenDigit;
    var number := Numbered(tender, part[i], isMisc);
    forall j | 0 <= j < |part| && j != i && Occurs(number, part[j])
      ensures |part[j]| < |part[i]|
    {
      OnlyPrefixesOccur(tender, part[i], isMisc, part[j]);
    }
    RoundTripExactlyWhen(tender, part, i, amount, status, isMisc);
  }

  // ----- whole tables, two hundred transaction numbers at a time

  function Chunks(txns: seq<string>, size: nat): seq<seq<string>>
    requires size > 0
  {
    if |txns| == 0 then []
    else if |txns| <= size then [txns]
    else [txns[..size]] + Chunks(txns[size..], size)
  }

  function FromPart(table: seq<Stored>, part: seq<string>, isMisc: bool): seq<Receipt> {
    if |table| == 0 then []
    else
      var r := Attributed(table[|table| - 1], part, isMisc);
      FromPart(table[..|table| - 1], part, isMisc) + if r.Some? then [r.value] else []
  }

  function FromParts(table: seq<Stored>, parts: seq<seq<string>>, isMisc: bool): seq<Receipt> {
    if |parts| == 0 then []
    else FromParts(table, parts[..|parts| - 1], isMisc) + FromPart(table, parts[|parts| - 1], isMisc)
  }

  function ByTransaction(standard: seq<Stored>, misc: seq<Stored>, txns: seq<string>): seq<Receipt> {
    FromParts(standard, Chunks(txns, PART_SIZE), false) + FromParts(misc, Chunks(txns, PART_SIZE), true)
  }

  /** The inner loop over the numbers of a part. */
  method MatchOne(number: string, part: seq<string>) returns (matched: Option<string>)
    ensures matched == Longest(number, part)
  {
    hide Occurs;
    matched := None;
    for i := 0 to |part|
      invariant matched == Longest(number, part[..i])
    {
      assert part[..i + 1][..i] == part[..i];
      if Includes(number, "-" + part[i]) && (matched.None? || |part[i]| > |matched.value|) {
        matched := Some(part[i]);
      }
      OccursIs(number, part[i]);
    }
    assert part[..|part|] == part;
  }

  lemma OccursIs(number: string, txn: string)
    ensures Occurs(number, txn) == Includes(number, "-" + txn)
  {
  }

  method Collect(table: seq<Stored>, txns: seq<string>, isMisc: bool) returns (out: seq<Receipt>)
    ensures out == FromParts(table, Chunks(txns, PART_SIZE), isMisc)
  {
    hide Longest, LastIndexOf, Accepted, Trim, Chunks;
    var parts := Chunks(txns, PART_SIZE);
    out := [];
    for p := 0 to |parts|
      invariant out == FromParts(table, parts[..p], isMisc)
    {
      ghost var before := out;
      for i := 0 to |table|
        invariant out == before + FromPart(table[..i], parts[p], isMisc)
      {
        assert table[..i + 1][..i] == table[..i];
        if Accepted(table[i].status) {
          var number := table[i].number.GetOr("");
          var matched := MatchOne(number, parts[p]);
          if matched.Some? && matched.value != "" {
            LongestIsTheWinner(number, parts[p]);
            OccurrenceHasALast(number, matched.value);
            var cut := LastIndexOf(number, "-" + matched.value);
            var tender := Trim(number[..cut]);
            tender := if tender == "" then UNKNOWN_TENDER else tender;
            out := out + [Receipt(matched.value, tender, table[i].amount, isMisc)];
          }
        }
      }
      assert table[..|table|] == table;
      assert parts[..p + 1][..p] == parts[..p];
    }
    assert parts[..|parts|] == parts;
  }

  method ReceiptsByTransaction(standard: seq<Stored>, misc: seq<Stored>, txns: seq<string>) returns (out: seq<Receipt>)
    ensures out == ByTransaction(standard, misc, txns)
  {
    if |txns| == 0 {
      return [];
    }
    var fromStandard := Collect(standard, txns, false);
    var fromMisc := Collect(misc, txns, true);
    out := fromStandard + fromMisc;
  }

  // ----- how often a receipt counts

  /** The parts in which the receipt finds a transaction number. */
  function Claims(r: Stored, parts: seq<seq<string>>): nat {
    if |parts| == 0 then 0
    else Claims(r, parts[..|parts| - 1]) + if Attributed(r, parts[|parts| - 1], false).Some? then 1 else 0
  }

  function AmountOf(r: Receipt): real {
    r.amount
  }

  function ClaimedAmount(parts: seq<seq<string>>): Stored -> real {
    (r: Stored) => Claims(r, parts) as real * r.amount
  }

  function AmountIn(part: seq<string>): Stored -> real {
    (r: Stored) => if Attributed(r, part, false).Some? then r.amount else 0.0
  }

  lemma KindDoesNotMatter(r: Stored, part: seq<string>, isMisc: bool)
    ensures Attributed(r, part, isMisc).Some? == Attributed(r, part, false).Some?
    ensures Attributed(r, part, isMisc).Some? ==> Attributed(r, part, isMisc).value.amount == r.amount
  {
  }

  lemma {:induction false} PartSum(table: seq<Stored>, part: seq<string>, isMisc: bool)
    ensures SumSeq(FromPart(table, part, isMisc), AmountOf) == SumSeq(table, AmountIn(part))
  {
    if |table| == 0 {
    } else {
      hide Attributed;
      var before, r := table[..|table| - 1], table[|table| - 1];
      PartSum(before, part, isMisc);
      KindDoesNotMatter(r, part, isMisc);
      var a := Attributed(r, part, isMisc);
      if a.Some? {
        SumSeqSnoc(FromPart(before, part, isMisc), a.value, AmountOf);
      } else {
        assert FromPart(before, part, isMisc) + [] == FromPart(before, part, isMisc);
      }
    }
  }

  lemma ClaimedAmountGrows(r: Stored, parts: seq<seq<string>>)
    requires |parts| > 0
    ensures ClaimedAmount(parts)(r) == ClaimedAmount(parts[..|parts| - 1])(r) + AmountIn(parts[|parts| - 1])(r)
  {
    hide Attributed;
    var n := Claims(r, parts[..|parts| - 1]);
    assert (n + 1) as real * r.amount == n as real * r.amount + r.amount;
  }

  lemma {:induction false} SumsGrow(table: seq<Stored>, parts: seq<seq<string>>)
    requires |parts| > 0
    ensures SumSeq(table, ClaimedAmount(parts))
         == SumSeq(table, ClaimedAmount(parts[..|parts| - 1])) + SumSeq(table, AmountIn(parts[|parts| - 1]))
  {
    hide ClaimedAmount, AmountIn;
    if |table| == 0 {
    } else {
      SumsGrow(table[..|table| - 1], parts);
      ClaimedAmountGrows(table[|table| - 1], parts);
    }
  }

  lemma {:induction false} NoPartsNoMoney(table: seq<Stored>)
    ensures SumSeq(table, ClaimedAmount([])) == 0.0
  {
    if |table| == 0 {
    } else {
      NoPartsNoMoney(table[..|table| - 1]);
    }
  }

  /** The money collected: each receipt's amount, once for every part in which it finds a transaction number. */
  lemma {:induction false} MoneyIsCountedOncePerPart(table: seq<Stored>, parts: seq<seq<string>>, isMisc: bool)
    ensures SumSeq(FromParts(table, parts, isMisc), AmountOf) == SumSeq(table, ClaimedAmount(parts))
  {
    if |parts| == 0 {
      assert parts == [];
      NoPartsNoMoney(table);
    } else {
      hide FromPart, SumSeq, ClaimedAmount, AmountIn;
      var before, part := parts[..|parts| - 1], parts[|parts| - 1];
      MoneyIsCountedOncePerPart(table, before, isMisc);
      PartSum(table, part, isMisc);
      SumSeqConcat(FromParts(table, before, isMisc), FromPart(table, part, isMisc), AmountOf);
      SumsGrow(table, parts);
    }
  }

  /** Up to two hundred transaction numbers there is one part, so no receipt counts twice. */
  lemma OnePartCountsOnce(r: Stored, txns: seq<string>)
    requires |txns| <= PART_SIZE
    ensures Claims(r, Chunks(txns, PART_SIZE)) <= 1
  {
    if |txns| > 0 {
      assert [txns][..0] == [];
      assert Chunks(txns, PART_SIZE) == [txns];
      assert Claims(r, [txns][..0]) == 0;
    }
  }

  /**
   A part claims a receipt exactly if it has a status, which does not read as an error in any spelling, and one of the
   part's numbers occurs after a hyphen in its number.
   */
  lemma ClaimedExactlyWhen(r: Stored, part: seq<string>, isMisc: bool)
    requires forall j :: 0 <= j < |part| ==> part[j] != ""
    ensures Attributed(r, part, isMisc).Some? <==>
      && r.status.Some? && Lower(r.status.value) != "error"
      && r.number.Some?
      && exists j, i :: 0 <= j < |part| && 0 <= i <= |r.number.value| && OccursAt(r.number.value, "-" + part[j], i)
  {
    hide Longest, LastIndexOf, Trim;
    if r.status.Some? {
      FoldingsAgree(r.status.value, "ERROR");
      assert Upper("ERROR") == "ERROR" && Lower("ERROR") == "error";
    }
    var number := r.number.GetOr("");
    LongestIsTheWinner(number, part);
    forall j | 0 <= j < |part|
      ensures Occurs(number, part[j]) <==> exists i :: 0 <= i <= |number| && OccursAt(number, "-" + part[j], i)
    {
    }
  }

  /** A receipt in which numbers of two parts occur is collected twice, once for each, and its money with it. */
  lemma TwoPartsCountItTwice(txns: seq<string>, amount: real)
    requires |txns| == 201 && txns[0] == "12" && txns[200] == "123"
    requires forall j :: 0 < j < 200 ==> !Occurs("CASH-123", txns[j])
    ensures ByTransaction([Stored(Some("CASH-123"), amount, Some("SUCCESS"))], [], txns)
         == [Receipt("12", "CASH", amount, false), Receipt("123", "CASH", amount, false)]
  {
    hide Occurs, Longest, LastIndexOf, Attributed;
    var r := Stored(Some("CASH-123"), amount, Some("SUCCESS"));
    var first, second := txns[..200], txns[200..];
    assert second == ["123"];
    assert Chunks(txns, 200) == [first, second];
    assert Attributed(r, first, false) == Some(Receipt("12", "CASH", amount, false)) by {
      assert "-" + "12" == "-12";
      TwelveIn123();
      assert Wins("CASH-123", first, 0);
      ChosenExactlyWhen("CASH-123", first, "12");
      AttributedTo(r, first, "12", 4);
    }
    assert Attributed(r, second, false) == Some(Receipt("123", "CASH", amount, false)) by {
      assert Numbered("CASH", "123", false) == "CASH-123";
      CutGivesBackTheTender("CASH", "123", false);
      assert Wins("CASH-123", second, 0);
      ChosenExactlyWhen("CASH-123", second, "123");
      AttributedTo(r, second, "123", 4);
    }
    OneReceipt(r, first, false);
    OneReceipt(r, second, false);
    TwoParts([r], first, second, false);
    assert FromParts([], Chunks(txns, PART_SIZE), true) == [] by {
      NothingStored(Chunks(txns, PART_SIZE), true);
    }
  }

  lemma TwoParts(table: seq<Stored>, first: seq<string>, second: seq<string>, isMisc: bool)
    ensures FromParts(table, [first, second], isMisc)
         == FromPart(table, first, isMisc) + FromPart(table, second, isMisc)
  {
    hide FromPart;
    assert [first, second][..1] == [first];
    assert [first][..0] == [];
    assert FromParts(table, [first], isMisc) == [] + FromPart(table, first, isMisc);
  }

  lemma {:induction false} NothingStored(parts: seq<seq<string>>, isMisc: bool)
    ensures FromParts([], parts, isMisc) == []
  {
    if |parts| == 0 {
    } else {
      NothingStored(parts[..|parts| - 1], isMisc);
    }
  }

  lemma TwelveIn123()
    ensures Occurs("CASH-123", "12") && LastIndexOf("CASH-123", "-12") == 4
  {
    var s := "CASH-123";
    assert "-" + "12" == "-12" && s[4..7] == "-12";
    assert OccursAt(s, "-12", 4);
    assert s[5] == '1';
    LastIndexIs(s, "-12", 4);
  }

  lemma AttributedTo(r: Stored, part: seq<string>, txn: string, cut: nat)
    requires r.number == Some("CASH-123") && r.status == Some("SUCCESS") && txn != ""
    requires Longest("CASH-123", part) == Some(txn) && LastIndexOf("CASH-123", "-" + txn) == cut == 4
    ensures Attributed(r, part, false) == Some(Receipt(txn, "CASH", r.amount, false))
  {
    hide Longest, LastIndexOf;
    assert "CASH-123"[..4] == "CASH";
    assert Upper("SUCCESS")[0] == 'S';
    assert "ERROR"[0] == 'E';
    TrimmedIsUnchanged("CASH");
  }

  lemma OneReceipt(r: Stored, part: seq<string>, isMisc: bool)
    ensures FromPart([r], part, isMisc)
         == if Attributed(r, part, isMisc).Some? then [Attributed(r, part, isMisc).value] else []
  {
    assert [r][..0] == [];
    assert FromPart([r][..0], part, isMisc) == [];
  }
}
